/** The compiler's graph searches: `allPathsReachTarget`, the two reachability queues and the
    region of a parallel fork. */
module PathChecks {
  import opened Workflow
  import opened Graphs

  /** The edges that are not bounded returns. */
  function WithoutLoops(edges: seq<Edge>): (r: seq<Edge>)
    ensures forall e :: e in r <==> e in edges && !IsLoop(e)
  {
    if edges == [] then []
    else (if IsLoop(edges[0]) then [] else [edges[0]]) + WithoutLoops(edges[1..])
  }

  function PlainGraph(g: Outgoing): Outgoing {
    map a | a in g :: WithoutLoops(g[a])
  }

  lemma PlainEdge(g: Outgoing, a: Id, b: Id)
    ensures HasEdge(PlainGraph(g), a, b) <==> a in g && exists e :: e in g[a] && !IsLoop(e) && e.target == b
  {
    if a in g && exists e :: e in g[a] && !IsLoop(e) && e.target == b {
      var e :| e in g[a] && !IsLoop(e) && e.target == b;
      assert e in WithoutLoops(g[a]);
    }
    if HasEdge(PlainGraph(g), a, b) {
      var plain := WithoutLoops(g[a]);
      assert PlainGraph(g)[a] == plain;
      var i :| 0 <= i < |plain| && plain[i].target == b;
      assert plain[i] in plain;
      assert plain[i] in g[a];
    }
  }

  lemma PlainWellFormed(g: Outgoing)
    requires WellFormed(g)
    ensures WellFormed(PlainGraph(g))
  {
    forall a, i | a in g && 0 <= i < |WithoutLoops(g[a])|
      ensures WithoutLoops(g[a])[i].source == a && WithoutLoops(g[a])[i].target in g
    {
      assert WithoutLoops(g[a])[i] in WithoutLoops(g[a]);
    }
  }

  ghost predicate DeadEnd(g: Outgoing, x: Id) {
    forall y :: !HasEdge(PlainGraph(g), x, y)
  }

  /** A way for a path to fail to reach `target`: stop at the blocked node, stop at a node
      without plain exits, or come back to an earlier node, without ever meeting `target`. */
  ghost predicate Escapes(g: Outgoing, target: Id, blocked: Id, w: seq<Id>) {
    && IsWalk(PlainGraph(g), w)
    && target !in w
    && (w[|w| - 1] == blocked || DeadEnd(g, w[|w| - 1]) || w[|w| - 1] in w[..|w| - 1])
  }

  ghost predicate AlwaysReaches(g: Outgoing, start: Id, target: Id, blocked: Id) {
    forall w :: |w| > 0 && w[0] == start ==> !Escapes(g, target, blocked, w)
  }

  /** `rank` orders the guaranteed nodes: each has plain exits, all to nodes of lower rank. */
  ghost predicate Guaranteed(g: Outgoing, target: Id, blocked: Id, x: Id, rank: map<Id, nat>)
    requires x in rank
  {
    x == target ||
    (x != blocked && !DeadEnd(g, x) &&
     forall y :: HasEdge(PlainGraph(g), x, y) ==> y in rank && rank[y] < rank[x])
  }

  ghost predicate Ranked(g: Outgoing, target: Id, blocked: Id, rank: map<Id, nat>) {
    forall x {:trigger Guaranteed(g, target, blocked, x, rank)} :: x in rank ==> Guaranteed(g, target, blocked, x, rank)
  }

  /** Along a walk that avoids the target, ranks fall, so the walk cannot escape. */
  lemma {:induction false} RanksFall(g: Outgoing, target: Id, blocked: Id, rank: map<Id, nat>, w: seq<Id>, i: nat, j: nat)
    requires Ranked(g, target, blocked, rank)
    requires IsWalk(PlainGraph(g), w) && target !in w && w[0] in rank && i <= j < |w|
    ensures w[i] in rank && w[j] in rank
    ensures rank[w[j]] + (j - i) <= rank[w[i]]
    decreases j
  {
    if i < j {
      RanksFall(g, target, blocked, rank, w, i, j - 1);
      assert Guaranteed(g, target, blocked, w[j - 1], rank);
      assert HasEdge(PlainGraph(g), w[j - 1], w[j]);
    } else if j > 0 {
      RanksFall(g, target, blocked, rank, w, j - 1, j - 1);
      assert Guaranteed(g, target, blocked, w[j - 1], rank);
      assert HasEdge(PlainGraph(g), w[j - 1], w[j]);
    }
  }

  lemma GuaranteedReaches(g: Outgoing, start: Id, target: Id, blocked: Id, rank: map<Id, nat>)
    requires Ranked(g, target, blocked, rank) && start in rank
    ensures AlwaysReaches(g, start, target, blocked)
  {
    forall w | |w| > 0 && w[0] == start && IsWalk(PlainGraph(g), w) && target !in w
      ensures !Escapes(g, target, blocked, w)
    {
      var last := |w| - 1;
      RanksFall(g, target, blocked, rank, w, last, last);
      assert Guaranteed(g, target, blocked, w[last], rank);
      forall i | 0 <= i < last
        ensures w[i] != w[last]
      {
        RanksFall(g, target, blocked, rank, w, i, last);
      }
    }
  }

  /** Nothing outside `rank` can be added: it is blocked, a dead end, or has an exit outside. */
  ghost predicate Saturated(g: Outgoing, blocked: Id, rank: map<Id, nat>) {
    forall x :: x in g && x !in rank && x != blocked && !DeadEnd(g, x) ==>
                  exists y :: HasEdge(PlainGraph(g), x, y) && y !in rank
  }

  /** From outside a saturated set, a walk that never enters the set escapes. */
  lemma {:induction false} OutsideEscapes(g: Outgoing, target: Id, blocked: Id, rank: map<Id, nat>, w: seq<Id>)
    returns (v: seq<Id>)
    requires WellFormed(g) && target in rank && Saturated(g, blocked, rank)
    requires IsWalk(PlainGraph(g), w) && Distinct(w)
    requires forall i :: 0 <= i < |w| ==> w[i] in g && w[i] !in rank
    ensures |v| > 0 && v[0] == w[0] && Escapes(g, target, blocked, v)
    decreases g.Keys - Elements(w)
  {
    var x := w[|w| - 1];
    if x == blocked || DeadEnd(g, x) {
      return w;
    }
    var y :| HasEdge(PlainGraph(g), x, y) && y !in rank;
    v := w + [y];
    WalkExtend(PlainGraph(g), w, y);
    if y in w {
      assert v[..|v| - 1] == w;
    } else {
      PlainWellFormed(g);
      EdgeTargetIsNode(PlainGraph(g), x, y);
      assert y in Elements(v) && y !in Elements(w);
      assert Elements(w) <= Elements(v) by {
        forall z | z in Elements(w)
          ensures z in Elements(v)
        {
          assert z in w;
        }
      }
      v := OutsideEscapes(g, target, blocked, rank, v);
    }
  }

  /** Does every exit of `x` already lead into `guaranteed`?  (the inner `exits` test) */
  predicate AllExitsIn(edges: seq<Edge>, guaranteed: set<Id>) {
    forall i :: 0 <= i < |edges| ==> edges[i].target in guaranteed
  }

  lemma DeadEndPlain(g: Outgoing, x: Id)
    requires x in g
    ensures DeadEnd(g, x) <==> WithoutLoops(g[x]) == []
  {
    if WithoutLoops(g[x]) != [] {
      assert PlainGraph(g)[x][0] == WithoutLoops(g[x])[0];
      assert HasEdge(PlainGraph(g), x, WithoutLoops(g[x])[0].target);
    }
  }

  /** `entries` lists the keys of `outgoing` in the order the map iterates them. */
  method AllPathsReachTarget(
    start: Id, target: Id, outgoing: Outgoing, entries: seq<Id>, blocked: Id) returns (reaches: bool)
    requires WellFormed(outgoing) && Elements(entries) == outgoing.Keys
    requires start in outgoing && target in outgoing
    ensures reaches <==> AlwaysReaches(outgoing, start, target, blocked)
  {
    var guaranteed := {target};
    ghost var rank: map<Id, nat> := map[target := 0];
    var changed := true;
    while changed
      invariant guaranteed == rank.Keys <= outgoing.Keys && target in rank
      invariant forall x :: x in rank ==> rank[x] < |rank|
      invariant Ranked(outgoing, target, blocked, rank)
      invariant !changed ==> Saturated(outgoing, blocked, rank)
      decreases outgoing.Keys - guaranteed, changed
    {
      changed := false;
      ghost var atPassStart := guaranteed;
      for n := 0 to |entries|
        invariant guaranteed == rank.Keys <= outgoing.Keys && target in rank
        invariant forall x :: x in rank ==> rank[x] < |rank|
        invariant Ranked(outgoing, target, blocked, rank)
        invariant atPassStart <= guaranteed && (changed ==> atPassStart < guaranteed)
        invariant !changed ==> SaturatedOn(outgoing, blocked, rank, entries[..n])
      {
        var nodeId := entries[n];
        assert nodeId in Elements(entries);
        var exits := WithoutLoops(outgoing[nodeId]);
        DeadEndPlain(outgoing, nodeId);
        assert entries[..n + 1] == entries[..n] + [nodeId];
        if !(nodeId == blocked || nodeId in guaranteed || exits == []) {
          if AllExitsIn(exits, guaranteed) {
            AddRanked(outgoing, target, blocked, rank, nodeId);
            rank := rank[nodeId := |rank|];
            guaranteed := guaranteed + {nodeId};
            changed := true;
          } else {
            var i :| 0 <= i < |exits| && exits[i].target !in guaranteed;
            assert PlainGraph(outgoing)[nodeId][i] == exits[i];
            assert HasEdge(PlainGraph(outgoing), nodeId, exits[i].target);
          }
        }
      }
      assert entries[..|entries|] == entries;
      if !changed {
        SaturatedEverywhere(outgoing, blocked, rank, entries);
      }
    }
    reaches := start in guaranteed;
    if reaches {
      GuaranteedReaches(outgoing, start, target, blocked, rank);
    } else {
      var v := OutsideEscapes(outgoing, target, blocked, rank, [start]);
    }
  }

  ghost predicate SaturatedOn(g: Outgoing, blocked: Id, rank: map<Id, nat>, entries: seq<Id>) {
    forall x :: x in entries && x in g && x !in rank && x != blocked && !DeadEnd(g, x) ==>
                  exists y :: HasEdge(PlainGraph(g), x, y) && y !in rank
  }

  lemma SaturatedEverywhere(g: Outgoing, blocked: Id, rank: map<Id, nat>, entries: seq<Id>)
    requires SaturatedOn(g, blocked, rank, entries) && Elements(entries) == g.Keys
    ensures Saturated(g, blocked, rank)
  {
    forall x | x in g
      ensures x in entries
    {
      assert x in Elements(entries);
    }
  }

  lemma AddRanked(g: Outgoing, target: Id, blocked: Id, rank: map<Id, nat>, x: Id)
    requires Ranked(g, target, blocked, rank) && (forall y :: y in rank ==> rank[y] < |rank|)
    requires x in g && x !in rank && x != blocked && !DeadEnd(g, x)
    requires AllExitsIn(WithoutLoops(g[x]), rank.Keys)
    ensures Ranked(g, target, blocked, rank[x := |rank|])
    ensures var rank' := rank[x := |rank|]; forall y :: y in rank' ==> rank'[y] < |rank'|
  {
    var rank' := rank[x := |rank|];
    assert rank'.Keys == rank.Keys + {x};
    assert |rank'.Keys| == |rank.Keys| + 1;
    assert |rank'| == |rank'.Keys| && |rank| == |rank.Keys|;
    forall z | z in rank'
      ensures Guaranteed(g, target, blocked, z, rank')
    {
      if z in rank {
        assert Guaranteed(g, target, blocked, z, rank);
      } else {
        forall y | HasEdge(PlainGraph(g), x, y)
          ensures y in rank' && rank'[y] < rank'[x]
        {
          var i :| 0 <= i < |PlainGraph(g)[x]| && PlainGraph(g)[x][i].target == y;
        }
      }
    }
  }

  /** The targets of a list of edges, in order. */
  function Targets(edges: seq<Edge>): (r: seq<Id>)
    ensures |r| == |edges| && forall i :: 0 <= i < |r| ==> r[i] == edges[i].target
  {
    seq(|edges|, i requires 0 <= i < |edges| => edges[i].target)
  }

  /** Some walk leads from one of `starts` to `x` without touching `walls`. */
  ghost predicate Reaches(g: Outgoing, starts: seq<Id>, walls: set<Id>, x: Id) {
    exists w :: IsWalk(g, w) && w[0] in starts && w[|w| - 1] == x && Elements(w) !! walls
  }

  lemma ReachesStep(g: Outgoing, starts: seq<Id>, walls: set<Id>, x: Id, y: Id)
    requires Reaches(g, starts, walls, x) && HasEdge(g, x, y) && y !in walls
    ensures Reaches(g, starts, walls, y)
  {
    var w :| IsWalk(g, w) && w[0] in starts && w[|w| - 1] == x && Elements(w) !! walls;
    var v := w + [y];
    WalkExtend(g, w, y);
    assert Elements(v) == Elements(w) + {y};
  }

  lemma ReachesStart(g: Outgoing, starts: seq<Id>, walls: set<Id>, x: Id)
    requires x in starts && x !in walls
    ensures Reaches(g, starts, walls, x)
  {
    assert IsWalk(g, [x]) && [x][0] in starts && Elements([x]) !! walls;
  }

  /** Everything a worklist still owes: successors of visited nodes are visited, queued or walls. */
  ghost predicate Frontier(g: Outgoing, visited: set<Id>, pending: seq<Id>, walls: set<Id>) {
    forall x, y :: x in visited && HasEdge(g, x, y) ==> y in visited || y in pending || y in walls
  }

  lemma ClosedSearchIsComplete(g: Outgoing, starts: seq<Id>, walls: set<Id>, visited: set<Id>, x: Id)
    requires Frontier(g, visited, [], walls)
    requires forall s :: s in starts ==> s in visited || s in walls
    requires Reaches(g, starts, walls, x)
    ensures x in visited
  {
    var w :| IsWalk(g, w) && w[0] in starts && w[|w| - 1] == x && Elements(w) !! walls;
    assert forall i :: 0 <= i < |w| ==> w[i] in Elements(w);
    var i := 0;
    while i < |w| - 1
      invariant 0 <= i < |w| && w[i] in visited
    {
      assert HasEdge(g, w[i], w[i + 1]);
      i := i + 1;
    }
  }

  /** The worklist loops: mark everything reachable from `starts` outside `walls`.  With
      `walls == {}` this is the forward (or, on reversed edges, the backward) reachability
      queue; with the fork and its join as walls it collects the region of a fork. */
  method Search(g: Outgoing, starts: seq<Id>, walls: set<Id>) returns (visited: set<Id>)
    requires WellFormed(g) && forall s :: s in starts ==> s in g
    ensures visited <= g.Keys
    ensures forall x :: x in visited <==> Reaches(g, starts, walls, x)
  {
    visited := {};
    var pending := starts;
    forall x | x in pending && x !in walls
      ensures Reaches(g, starts, walls, x)
    {
      ReachesStart(g, starts, walls, x);
    }
    while pending != []
      invariant visited <= g.Keys && forall x :: x in pending ==> x in g
      invariant Frontier(g, visited, pending, walls)
      invariant forall s :: s in starts ==> s in visited || s in pending || s in walls
      invariant forall x :: x in visited ==> Reaches(g, starts, walls, x)
      invariant forall x :: x in pending && x !in walls ==> Reaches(g, starts, walls, x)
      decreases g.Keys - visited, |pending|
    {
      var id := pending[0];
      ghost var before := pending;
      assert before == [id] + before[1..];
      assert forall x :: x in before ==> x == id || x in before[1..];
      if id in walls || id in visited {
        pending := pending[1..];
      } else {
        visited := visited + {id};
        pending := pending[1..] + Targets(g[id]);
        forall y | HasEdge(g, id, y)
          ensures y in Targets(g[id])
        {
          var i :| 0 <= i < |g[id]| && g[id][i].target == y;
          assert Targets(g[id])[i] == y;
        }
        forall y | y in Targets(g[id])
          ensures y in g && (y !in walls ==> Reaches(g, starts, walls, y))
        {
          var i :| 0 <= i < |g[id]| && Targets(g[id])[i] == y;
          assert HasEdge(g, id, y);
          if y !in walls {
            ReachesStep(g, starts, walls, id, y);
          }
        }
      }
      assert Frontier(g, visited, pending, walls);
    }
    forall x | Reaches(g, starts, walls, x)
      ensures x in visited
    {
      ClosedSearchIsComplete(g, starts, walls, visited, x);
    }
  }
}
