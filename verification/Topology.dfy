/** Adjacency maps and the compiler's topological order: Kahn's algorithm with a sorted queue. */
module Topology {
  import opened Workflow
  import opened Graphs
  import opened PathChecks
  import opened Sorting

  ghost predicate Connects(ids: set<Id>, edges: seq<Edge>) {
    forall e :: e in edges ==> e.source in ids && e.target in ids
  }

  function LeavesNode(a: Id): Edge -> bool {
    (e: Edge) => e.source == a
  }

  function EdgesFrom(edges: seq<Edge>, a: Id): seq<Edge> {
    Filter(edges, LeavesNode(a))
  }

  function OutgoingOf(ids: set<Id>, edges: seq<Edge>): Outgoing {
    map a | a in ids :: EdgesFrom(edges, a)
  }

  /** Edges turned around, so that the incoming map of a graph is the outgoing map of its reverse. */
  function Flip(e: Edge): Edge {
    e.(source := e.target, target := e.source)
  }

  function Reversed(edges: seq<Edge>): (r: seq<Edge>)
    ensures |r| == |edges| && forall i :: 0 <= i < |r| ==> r[i] == Flip(edges[i])
  {
    seq(|edges|, i requires 0 <= i < |edges| => Flip(edges[i]))
  }

  lemma OutgoingWellFormed(ids: set<Id>, edges: seq<Edge>)
    requires Connects(ids, edges)
    ensures WellFormed(OutgoingOf(ids, edges))
  {
    forall a, i | a in ids && 0 <= i < |EdgesFrom(edges, a)|
      ensures EdgesFrom(edges, a)[i].source == a && EdgesFrom(edges, a)[i].target in ids
    {
      FilterMembers(edges, LeavesNode(a));
      assert EdgesFrom(edges, a)[i] in EdgesFrom(edges, a);
    }
  }

  lemma OutgoingEdge(ids: set<Id>, edges: seq<Edge>, a: Id, b: Id)
    ensures HasEdge(OutgoingOf(ids, edges), a, b) <==> a in ids && exists e :: e in edges && e.source == a && e.target == b
  {
    FilterMembers(edges, LeavesNode(a));
    var from := EdgesFrom(edges, a);
    if a in ids && exists e :: e in edges && e.source == a && e.target == b {
      var e :| e in edges && e.source == a && e.target == b;
      assert e in from;
      var i :| 0 <= i < |from| && from[i] == e;
      assert OutgoingOf(ids, edges)[a][i].target == b;
    }
    if HasEdge(OutgoingOf(ids, edges), a, b) {
      var i :| 0 <= i < |from| && from[i].target == b;
      assert from[i] in from;
    }
  }

  lemma PlainOutgoingEdge(ids: set<Id>, edges: seq<Edge>, a: Id, b: Id)
    ensures HasEdge(PlainGraph(OutgoingOf(ids, edges)), a, b) <==>
            a in ids && exists e :: e in edges && !IsLoop(e) && e.source == a && e.target == b
  {
    FilterMembers(edges, LeavesNode(a));
    PlainEdge(OutgoingOf(ids, edges), a, b);
  }

  lemma ReversedEdge(ids: set<Id>, edges: seq<Edge>, a: Id, b: Id)
    requires Connects(ids, edges)
    ensures Connects(ids, Reversed(edges))
    ensures HasEdge(OutgoingOf(ids, Reversed(edges)), a, b) <==> HasEdge(OutgoingOf(ids, edges), b, a)
  {
    OutgoingEdge(ids, Reversed(edges), a, b);
    OutgoingEdge(ids, edges, b, a);
    forall e | e in Reversed(edges)
      ensures Flip(e) in edges
    {
      var i :| 0 <= i < |edges| && Reversed(edges)[i] == e;
      assert Flip(e) == edges[i];
    }
    forall e | e in edges
      ensures Flip(e) in Reversed(edges)
    {
      var i :| 0 <= i < |edges| && edges[i] == e;
      assert Reversed(edges)[i] == Flip(e);
    }
  }

  /** The loop that pushes every edge onto its source's list. */
  method BuildOutgoing(nodeIds: seq<Id>, edges: seq<Edge>) returns (outgoing: Outgoing)
    requires Connects(Elements(nodeIds), edges)
    ensures outgoing == OutgoingOf(Elements(nodeIds), edges)
  {
    ghost var ids := Elements(nodeIds);
    outgoing := map a | a in nodeIds :: [];
    for i := 0 to |edges|
      invariant outgoing.Keys == ids
      invariant forall a :: a in ids ==> outgoing[a] == EdgesFrom(edges[..i], a)
    {
      var e := edges[i];
      assert edges[..i + 1] == edges[..i] + [e];
      forall a | a in ids
        ensures EdgesFrom(edges[..i + 1], a) == EdgesFrom(edges[..i], a) + (if e.source == a then [e] else [])
      {
        FilterSnoc(edges[..i], e, LeavesNode(a));
      }
      assert e in edges;
      outgoing := outgoing[e.source := outgoing[e.source] + [e]];
    }
    assert edges[..|edges|] == edges;
  }

  // ----- counting the plain edges that still hold a node back

  function One(b: bool): nat {
    if b then 1 else 0
  }

  /** Plain edges into `v` from nodes outside `done`: the value of `indegrees[v]`. */
  function Pending(edges: seq<Edge>, done: set<Id>, v: Id): nat {
    if edges == [] then 0
    else
      var e := edges[0];
      One(!IsLoop(e) && e.target == v && e.source !in done) + Pending(edges[1..], done, v)
  }

  /** Plain edges into `v` in a list. */
  function PlainInto(edges: seq<Edge>, v: Id): nat {
    if edges == [] then 0 else One(!IsLoop(edges[0]) && edges[0].target == v) + PlainInto(edges[1..], v)
  }

  lemma {:induction false} PlainIntoSnoc(edges: seq<Edge>, e: Edge, v: Id)
    ensures PlainInto(edges + [e], v) == PlainInto(edges, v) + One(!IsLoop(e) && e.target == v)
  {
    if edges != [] {
      assert (edges + [e])[1..] == edges[1..] + [e];
      PlainIntoSnoc(edges[1..], e, v);
    }
  }

  lemma {:induction false} PlainIntoPrefix(edges: seq<Edge>, i: nat, v: Id)
    requires i < |edges| && !IsLoop(edges[i]) && edges[i].target == v
    ensures PlainInto(edges[..i], v) < PlainInto(edges, v)
  {
    if i == 0 {
    } else {
      assert edges[..i][1..] == edges[1..][..i - 1];
      PlainIntoPrefix(edges[1..], i - 1, v);
    }
  }

  lemma {:induction false} PendingZero(edges: seq<Edge>, done: set<Id>, v: Id)
    ensures Pending(edges, done, v) == 0 <==>
            forall e :: e in edges && !IsLoop(e) && e.target == v ==> e.source in done
  {
    if edges != [] {
      PendingZero(edges[1..], done, v);
      assert edges == [edges[0]] + edges[1..];
      assert edges[0] in edges;
    }
  }

  lemma {:induction false} PendingFinish(edges: seq<Edge>, done: set<Id>, u: Id, v: Id)
    requires u !in done
    ensures Pending(edges, done, v) == Pending(edges, done + {u}, v) + PlainInto(EdgesFrom(edges, u), v)
  {
    if edges != [] {
      PendingFinish(edges[1..], done, u, v);
      var rest := EdgesFrom(edges[1..], u);
      if edges[0].source == u {
        assert EdgesFrom(edges, u) == [edges[0]] + rest;
        assert ([edges[0]] + rest)[1..] == rest;
      } else {
        assert EdgesFrom(edges, u) == rest;
      }
    }
  }

  lemma {:induction false} PendingSnoc(edges: seq<Edge>, e: Edge, v: Id)
    ensures Pending(edges + [e], {}, v) == Pending(edges, {}, v) + One(!IsLoop(e) && e.target == v)
  {
    if edges != [] {
      assert (edges + [e])[1..] == edges[1..] + [e];
      PendingSnoc(edges[1..], e, v);
    }
  }

  // ----- what the emitted order is

  /** `v` is not yet emitted and all its plain predecessors are. */
  ghost predicate Ready(g: Outgoing, done: set<Id>, v: Id) {
    v in g && v !in done && forall u :: HasEdge(PlainGraph(g), u, v) ==> u in done
  }

  ghost predicate LeastReady(g: Outgoing, done: set<Id>, v: Id) {
    Ready(g, done, v) && forall w :: Ready(g, done, w) ==> v <= w
  }

  /** Each entry is the least ready node at its turn, and nothing is ready at the end. */
  ghost predicate Greedy(g: Outgoing, order: seq<Id>) {
    && (forall k :: 0 <= k < |order| ==> LeastReady(g, Elements(order[..k]), order[k]))
    && (forall v :: !Ready(g, Elements(order), v))
  }

  /** A list of all nodes, each once, in which every plain edge points forward. */
  ghost predicate IsTopological(g: Outgoing, p: seq<Id>) {
    && Distinct(p) && Elements(p) == g.Keys
    && forall i, j :: 0 <= i < |p| && 0 <= j < |p| && HasEdge(PlainGraph(g), p[i], p[j]) ==> i < j
  }

  ghost predicate LexLess(s: seq<Id>, t: seq<Id>) {
    exists k :: 0 <= k < |s| && k < |t| && s[..k] == t[..k] && s[k] < t[k]
  }

  /** No walk along plain edges returns to where it started. */
  ghost predicate PlainAcyclic(g: Outgoing) {
    forall a, b :: HasEdge(PlainGraph(g), a, b) ==> !Reach(PlainGraph(g), b, a)
  }

  lemma GreedyDistinct(g: Outgoing, order: seq<Id>)
    requires forall k :: 0 <= k < |order| ==> LeastReady(g, Elements(order[..k]), order[k])
    ensures Distinct(order) && Elements(order) <= g.Keys
  {
    forall i, j | 0 <= i < j < |order|
      ensures order[i] != order[j]
    {
      assert order[..j][i] in Elements(order[..j]);
      assert LeastReady(g, Elements(order[..j]), order[j]);
    }
    forall x | x in Elements(order)
      ensures x in g
    {
      var k :| 0 <= k < |order| && order[k] == x;
      assert LeastReady(g, Elements(order[..k]), order[k]);
    }
  }

  /** A complete greedy order is a topological order. */
  lemma GreedyIsTopological(g: Outgoing, order: seq<Id>)
    requires Greedy(g, order) && Elements(order) == g.Keys
    ensures IsTopological(g, order)
  {
    GreedyDistinct(g, order);
    forall i, j | 0 <= i < |order| && 0 <= j < |order| && HasEdge(PlainGraph(g), order[i], order[j])
      ensures i < j
    {
      assert LeastReady(g, Elements(order[..j]), order[j]);
      var k :| 0 <= k < j && order[..j][k] == order[i];
    }
  }

  /** ... and no topological order is lexicographically smaller. */
  lemma GreedyIsLeast(g: Outgoing, order: seq<Id>, p: seq<Id>)
    requires Greedy(g, order) && IsTopological(g, p)
    ensures order == p || LexLess(order, p)
  {
    GreedyDistinct(g, order);
    var k := CommonPrefix(order, p);
    assert k < |order| ==> LeastReady(g, Elements(order[..k]), order[k]);
    assert k == |order| ==> order[..k] == order;
    assert k == |p| ==> p[..k] == p;
    if k < |p| {
      NextIsReady(g, p, k);
    }
    hide IsTopological, Ready;
  }

  lemma CommonPrefix(s: seq<Id>, t: seq<Id>) returns (k: nat)
    ensures k <= |s| && k <= |t| && s[..k] == t[..k] && (k < |s| && k < |t| ==> s[k] != t[k])
  {
    k := 0;
    while k < |s| && k < |t| && s[k] == t[k]
      invariant k <= |s| && k <= |t| && s[..k] == t[..k]
    {
      assert s[..k + 1] == s[..k] + [s[k]];
      assert t[..k + 1] == t[..k] + [t[k]];
      k := k + 1;
    }
  }

  lemma NextIsReady(g: Outgoing, p: seq<Id>, k: nat)
    requires IsTopological(g, p) && k < |p|
    ensures Ready(g, Elements(p[..k]), p[k])
  {
    assert p[k] in Elements(p);
    forall u | HasEdge(PlainGraph(g), u, p[k])
      ensures u in Elements(p[..k])
    {
      assert u in Elements(p);
      var i :| 0 <= i < |p| && p[i] == u;
      assert p[..k][i] == u;
    }
  }

  /** At most one order is greedy. */
  lemma {:induction false} GreedyUnique(g: Outgoing, s: seq<Id>, t: seq<Id>, k: nat)
    requires Greedy(g, s) && Greedy(g, t) && k <= |s| && k <= |t| && s[..k] == t[..k]
    ensures s == t
    decreases |s| - k
  {
    assert k < |s| ==> LeastReady(g, Elements(s[..k]), s[k]);
    assert k < |t| ==> LeastReady(g, Elements(t[..k]), t[k]);
    if k < |s| && k < |t| {
      assert s[..k + 1] == s[..k] + [s[k]] && t[..k + 1] == t[..k] + [t[k]];
      GreedyUnique(g, s, t, k + 1);
    } else {
      assert k == |s| ==> s[..k] == s;
      assert k == |t| ==> t[..k] == t;
    }
  }

  // ----- the order is complete exactly for acyclic plain graphs

  ghost function Ancestors(g: Outgoing, rest: set<Id>, v: Id): set<Id> {
    set u | u in rest && Reach(PlainGraph(g), u, v)
  }

  /** In an acyclic plain graph every non-empty set has a node without predecessor in the set. */
  lemma {:induction false} HasSource(g: Outgoing, rest: set<Id>, v: Id) returns (s: Id)
    requires PlainAcyclic(g) && v in rest
    ensures s in rest && forall u :: HasEdge(PlainGraph(g), u, s) ==> u !in rest
    decreases Ancestors(g, rest, v)
  {
    var plain := PlainGraph(g);
    if u :| HasEdge(plain, u, v) && u in rest {
      ReachEdge(plain, u, v);
      ReachSelf(plain, v);
      assert !Reach(plain, v, u);
      forall x | x in Ancestors(g, rest, u)
        ensures x in Ancestors(g, rest, v)
      {
        ReachTrans(plain, x, u, v);
      }
      assert v in Ancestors(g, rest, v) && v !in Ancestors(g, rest, u);
      s := HasSource(g, rest, u);
    } else {
      s := v;
    }
  }

  lemma AcyclicOrderComplete(g: Outgoing, order: seq<Id>)
    requires WellFormed(g) && Greedy(g, order) && PlainAcyclic(g)
    ensures Elements(order) == g.Keys
  {
    GreedyDistinct(g, order);
    forall v | v in g
      ensures v in Elements(order)
    {
      if v !in Elements(order) {
        var s := HasReady(g, Elements(order), v);
      }
    }
  }

  lemma HasReady(g: Outgoing, done: set<Id>, v: Id) returns (s: Id)
    requires WellFormed(g) && PlainAcyclic(g) && v in g && v !in done
    ensures Ready(g, done, s)
  {
    s := HasSource(g, g.Keys - done, v);
  }

  /** An acyclic plain graph has a topological order. */
  lemma SomeTopological(g: Outgoing) returns (p: seq<Id>)
    requires WellFormed(g) && PlainAcyclic(g)
    ensures IsTopological(g, p)
  {
    p := [];
    while exists v :: v in g && v !in p
      invariant Distinct(p) && Elements(p) <= g.Keys
      invariant forall k :: 0 <= k < |p| ==> Ready(g, Elements(p[..k]), p[k])
      decreases g.Keys - Elements(p)
    {
      var v :| v in g && v !in p;
      var s := HasReady(g, Elements(p), v);
      assert forall k :: 0 <= k < |p| ==> (p + [s])[..k] == p[..k];
      assert (p + [s])[..|p|] == p;
      assert Elements(p + [s]) == Elements(p) + {s};
      p := p + [s];
    }
    forall v
      ensures v in Elements(p) <==> v in g.Keys
    {
    }
    forall i, j | 0 <= i < |p| && 0 <= j < |p| && HasEdge(PlainGraph(g), p[i], p[j])
      ensures i < j
    {
      assert Ready(g, Elements(p[..j]), p[j]);
      var k :| 0 <= k < j && p[..j][k] == p[i];
    }
  }

  /** In a topological order the position grows along every plain walk. */
  lemma {:induction false} PositionGrows(g: Outgoing, p: seq<Id>, w: seq<Id>, i: nat, j: nat)
    requires WellFormed(g) && IsTopological(g, p) && IsWalk(PlainGraph(g), w)
    requires i < |p| && j < |p| && w[0] == p[i] && w[|w| - 1] == p[j]
    ensures i + |w| - 1 <= j
    decreases |w|
  {
    if |w| > 1 {
      PlainWellFormed(g);
      assert HasEdge(PlainGraph(g), w[0], w[1]);
      EdgeTargetIsNode(PlainGraph(g), w[0], w[1]);
      assert w[1] in Elements(p);
      var m :| 0 <= m < |p| && p[m] == w[1];
      WalkSuffix(PlainGraph(g), w, 1);
      PositionGrows(g, p, w[1..], m, j);
    }
  }

  lemma TopologicalIsAcyclic(g: Outgoing, p: seq<Id>)
    requires WellFormed(g) && IsTopological(g, p)
    ensures PlainAcyclic(g)
  {
    var plain := PlainGraph(g);
    PlainWellFormed(g);
    forall a, b | HasEdge(plain, a, b)
      ensures !Reach(plain, b, a)
    {
      EdgeTargetIsNode(plain, a, b);
      assert a in Elements(p) && b in Elements(p);
      var i :| 0 <= i < |p| && p[i] == a;
      var j :| 0 <= j < |p| && p[j] == b;
      forall w | WalkFromTo(plain, b, a, w)
        ensures false
      {
        PositionGrows(g, p, w, j, i);
      }
    }
  }

  // ----- the loop itself

  function Identity(): Id -> int {
    (x: Id) => x
  }

  /** `v` waits in the queue exactly when it is unemitted and nothing holds it back. */
  ghost predicate QueueOk(ids: set<Id>, order: seq<Id>, queue: seq<Id>, indegrees: map<Id, int>) {
    && Distinct(queue)
    && indegrees.Keys == ids
    && (forall v :: v in queue <==> v in ids && v !in order && indegrees[v] == 0)
    && (forall v :: v in order ==> v in ids && indegrees[v] == 0)
  }

  lemma ReadyWhenNothingPending(ids: set<Id>, edges: seq<Edge>, done: set<Id>, v: Id)
    requires Connects(ids, edges)
    ensures Ready(OutgoingOf(ids, edges), done, v) <==> v in ids && v !in done && Pending(edges, done, v) == 0
  {
    var g := OutgoingOf(ids, edges);
    PendingZero(edges, done, v);
    if v in ids && v !in done && Pending(edges, done, v) == 0 {
      forall u | HasEdge(PlainGraph(g), u, v)
        ensures u in done
      {
        PlainOutgoingEdge(ids, edges, u, v);
      }
    }
    if Ready(g, done, v) {
      forall e | e in edges && !IsLoop(e) && e.target == v
        ensures e.source in done
      {
        PlainOutgoingEdge(ids, edges, e.source, v);
      }
    }
  }

  method SortIds(queue: seq<Id>) returns (sorted: seq<Id>)
    requires Distinct(queue)
    ensures Distinct(sorted) && forall v :: v in sorted <==> v in queue
    ensures forall i, j :: 0 <= i < j < |sorted| ==> sorted[i] <= sorted[j]
  {
    sorted := Sort(queue, Identity());
    SortCorrect(queue, Identity());
    SameMultisetSameMembers(queue, sorted);
    DistinctKeysPermutation(queue, sorted, Identity());
  }

  /** The two initialising passes: in-degrees over plain edges, and the sorted start queue. */
  method InitialQueue(nodeIds: seq<Id>, edges: seq<Edge>) returns (indegrees: map<Id, int>, queue: seq<Id>)
    requires Distinct(nodeIds) && Connects(Elements(nodeIds), edges)
    ensures QueueOk(Elements(nodeIds), [], queue, indegrees)
    ensures forall v :: v in indegrees ==> indegrees[v] == Pending(edges, {}, v)
    ensures forall i, j :: 0 <= i < j < |queue| ==> queue[i] <= queue[j]
  {
    indegrees := map a | a in nodeIds :: 0;
    for i := 0 to |edges|
      invariant indegrees.Keys == Elements(nodeIds)
      invariant forall v :: v in indegrees ==> indegrees[v] == Pending(edges[..i], {}, v)
    {
      var e := edges[i];
      assert edges[..i + 1] == edges[..i] + [e] && e in edges;
      forall v
        ensures Pending(edges[..i + 1], {}, v) == Pending(edges[..i], {}, v) + One(!IsLoop(e) && e.target == v)
      {
        PendingSnoc(edges[..i], e, v);
      }
      if !IsLoop(e) {
        indegrees := indegrees[e.target := indegrees[e.target] + 1];
      }
    }
    assert edges[..|edges|] == edges;
    queue := [];
    for i := 0 to |nodeIds|
      invariant Distinct(queue)
      invariant forall v :: v in queue <==> v in nodeIds[..i] && indegrees[v] == 0
    {
      assert nodeIds[..i + 1] == nodeIds[..i] + [nodeIds[i]];
      assert nodeIds[i] in Elements(nodeIds) && nodeIds[i] !in nodeIds[..i];
      if indegrees[nodeIds[i]] == 0 {
        queue := queue + [nodeIds[i]];
      }
    }
    assert nodeIds[..|nodeIds|] == nodeIds;
    queue := SortIds(queue);
  }

  lemma LowerKeepsQueue(ids: set<Id>, order: seq<Id>, queue: seq<Id>, indegrees: map<Id, int>, t: Id)
    requires QueueOk(ids, order, queue, indegrees) && t in ids && indegrees[t] > 0
    ensures QueueOk(ids, order, if indegrees[t] == 1 then queue + [t] else queue, indegrees[t := indegrees[t] - 1])
  {
  }

  /** The first `n` plain edges of the emitted node have been taken off the in-degrees. */
  ghost predicate Lowered(ids: set<Id>, total: map<Id, nat>, out: seq<Edge>, n: nat, indegrees: map<Id, int>) {
    && indegrees.Keys == ids == total.Keys && n <= |out|
    && forall v :: v in ids ==> indegrees[v] == total[v] - PlainInto(out[..n], v)
  }

  lemma LowerStep(ids: set<Id>, total: map<Id, nat>, out: seq<Edge>, n: nat, indegrees: map<Id, int>)
    requires Lowered(ids, total, out, n, indegrees) && n < |out| && out[n].target in ids
    requires forall v :: v in ids ==> PlainInto(out, v) <= total[v]
    ensures !IsLoop(out[n]) ==> indegrees[out[n].target] > 0
    ensures Lowered(ids, total, out, n + 1,
                    if IsLoop(out[n]) then indegrees else indegrees[out[n].target := indegrees[out[n].target] - 1])
  {
    var e := out[n];
    assert out[..n + 1] == out[..n] + [e];
    forall v
      ensures PlainInto(out[..n + 1], v) == PlainInto(out[..n], v) + One(!IsLoop(e) && e.target == v)
    {
      PlainIntoSnoc(out[..n], e, v);
    }
    if !IsLoop(e) {
      PlainIntoPrefix(out, n, e.target);
    }
  }

  lemma LoweredStart(ids: set<Id>, edges: seq<Edge>, done: set<Id>, u: Id, indegrees: map<Id, int>)
    returns (total: map<Id, nat>)
    requires Connects(ids, edges) && u !in done && indegrees.Keys == ids
    requires forall v :: v in ids ==> indegrees[v] == Pending(edges, done, v)
    ensures forall v :: v in ids ==> v in total && total[v] == Pending(edges, done, v)
    ensures forall v :: v in ids ==> PlainInto(EdgesFrom(edges, u), v) <= total[v]
    ensures Lowered(ids, total, EdgesFrom(edges, u), 0, indegrees)
    ensures forall i :: 0 <= i < |EdgesFrom(edges, u)| ==> EdgesFrom(edges, u)[i].target in ids
  {
    var out := EdgesFrom(edges, u);
    total := map v | v in ids :: Pending(edges, done, v);
    forall v | v in ids
      ensures PlainInto(out, v) <= total[v]
    {
      PendingFinish(edges, done, u, v);
    }
    FilterMembers(edges, LeavesNode(u));
    assert forall i :: 0 <= i < |out| ==> out[i] in out;
  }

  lemma LoweredAll(ids: set<Id>, edges: seq<Edge>, done: set<Id>, u: Id, total: map<Id, nat>, indegrees: map<Id, int>)
    requires u !in done && Lowered(ids, total, EdgesFrom(edges, u), |EdgesFrom(edges, u)|, indegrees)
    requires forall v :: v in ids ==> total[v] == Pending(edges, done, v)
    ensures forall v :: v in ids ==> indegrees[v] == Pending(edges, done + {u}, v)
  {
    var out := EdgesFrom(edges, u);
    assert out[..|out|] == out;
    forall v | v in ids
      ensures indegrees[v] == Pending(edges, done + {u}, v)
    {
      PendingFinish(edges, done, u, v);
    }
  }

  /** Emitting `u`: lower the in-degree of its plain successors and queue those that reach zero. */
  method Emit(ghost ids: set<Id>, ghost edges: seq<Edge>, out: seq<Edge>, ghost order: seq<Id>, u: Id,
              queue: seq<Id>, indegrees: map<Id, int>)
    returns (queue': seq<Id>, indegrees': map<Id, int>)
    requires Connects(ids, edges) && out == EdgesFrom(edges, u) && u in ids && u !in order
    requires QueueOk(ids, order + [u], queue, indegrees)
    requires forall v :: v in ids ==> indegrees[v] == Pending(edges, Elements(order), v)
    ensures QueueOk(ids, order + [u], queue', indegrees')
    ensures forall v :: v in ids ==> indegrees'[v] == Pending(edges, Elements(order) + {u}, v)
  {
    queue', indegrees' := queue, indegrees;
    ghost var total := LoweredStart(ids, edges, Elements(order), u, indegrees);
    hide *;
    for i := 0 to |out|
      invariant QueueOk(ids, order + [u], queue', indegrees')
      invariant indegrees'.Keys == ids && Lowered(ids, total, out, i, indegrees')
    {
      var e := out[i];
      LowerStep(ids, total, out, i, indegrees');
      if !IsLoop(e) {
        LowerKeepsQueue(ids, order + [u], queue', indegrees', e.target);
        indegrees' := indegrees'[e.target := indegrees'[e.target] - 1];
        if indegrees'[e.target] == 0 {
          queue' := queue' + [e.target];
        }
      }
    }
    LoweredAll(ids, edges, Elements(order), u, total, indegrees');
  }

  /** `null` exactly when the plain edges contain a cycle; otherwise the greedy order. */
  method TopologicalOrder(nodeIds: seq<Id>, edges: seq<Edge>) returns (result: Option<seq<Id>>)
    requires Distinct(nodeIds) && Connects(Elements(nodeIds), edges)
    ensures result.Some? <==> PlainAcyclic(OutgoingOf(Elements(nodeIds), edges))
    ensures result.Some? ==> Greedy(OutgoingOf(Elements(nodeIds), edges), result.value)
  {
    var outgoing := BuildOutgoing(nodeIds, edges);
    ghost var ids := Elements(nodeIds);
    OutgoingWellFormed(ids, edges);
    var indegrees, queue := InitialQueue(nodeIds, edges);
    var order: seq<Id> := [];
    assert Elements(order) == {};
    hide Connects, PlainAcyclic, LeastReady, Pending, QueueOk;
    while queue != []
      invariant QueueOk(ids, order, queue, indegrees)
      invariant forall v :: v in ids ==> indegrees[v] == Pending(edges, Elements(order), v)
      invariant forall i, j :: 0 <= i < j < |queue| ==> queue[i] <= queue[j]
      invariant Distinct(queue) && indegrees.Keys == ids
      invariant forall k :: 0 <= k < |order| ==> LeastReady(outgoing, Elements(order[..k]), order[k])
      decreases ids - Elements(order)
    {
      var nodeId := queue[0];
      QueueHead(ids, edges, order, queue, indegrees);
      queue, indegrees := Emit(ids, edges, outgoing[nodeId], order, nodeId, queue[1..], indegrees);
      order := Append(outgoing, order, nodeId);
      queue := SortQueue(ids, order, queue, indegrees);
    }
    NoneReady(ids, edges, order, indegrees);
    GreedyDistinct(outgoing, order);
    SameSize(order, nodeIds);
    if |order| == |nodeIds| {
      GreedyIsTopological(outgoing, order);
      TopologicalIsAcyclic(outgoing, order);
      result := Some(order);
    } else {
      if PlainAcyclic(outgoing) {
        AcyclicOrderComplete(outgoing, order);
      }
      result := None;
    }
  }

  /** `topologicalOrder.push(nodeId)` */
  method Append(g: Outgoing, order: seq<Id>, v: Id) returns (longer: seq<Id>)
    requires forall k :: 0 <= k < |order| ==> LeastReady(g, Elements(order[..k]), order[k])
    requires LeastReady(g, Elements(order), v)
    ensures longer == order + [v] && Elements(longer) == Elements(order) + {v} && v !in Elements(order)
    ensures forall k :: 0 <= k < |longer| ==> LeastReady(g, Elements(longer[..k]), longer[k])
  {
    longer := order + [v];
    forall k | 0 <= k < |longer|
      ensures LeastReady(g, Elements(longer[..k]), longer[k])
    {
      if k < |order| {
        assert longer[..k] == order[..k];
      } else {
        assert longer[..k] == order;
      }
    }
  }

  /** `topologyQueue.sort()` */
  method SortQueue(ghost ids: set<Id>, ghost order: seq<Id>, queue: seq<Id>, ghost indegrees: map<Id, int>)
    returns (sorted: seq<Id>)
    requires QueueOk(ids, order, queue, indegrees)
    ensures QueueOk(ids, order, sorted, indegrees) && Distinct(sorted) && indegrees.Keys == ids
    ensures forall i, j :: 0 <= i < j < |sorted| ==> sorted[i] <= sorted[j]
  {
    sorted := SortIds(queue);
  }

  lemma NoneReady(ids: set<Id>, edges: seq<Edge>, order: seq<Id>, indegrees: map<Id, int>)
    requires Connects(ids, edges) && QueueOk(ids, order, [], indegrees)
    requires forall v :: v in ids ==> indegrees[v] == Pending(edges, Elements(order), v)
    ensures forall v :: !Ready(OutgoingOf(ids, edges), Elements(order), v)
  {
    forall v
      ensures !Ready(OutgoingOf(ids, edges), Elements(order), v)
    {
      ReadyWhenNothingPending(ids, edges, Elements(order), v);
    }
  }

  /** The head of the sorted queue is the least ready node. */
  lemma QueueHead(ids: set<Id>, edges: seq<Edge>, order: seq<Id>, queue: seq<Id>, indegrees: map<Id, int>)
    requires Connects(ids, edges) && QueueOk(ids, order, queue, indegrees) && queue != []
    requires forall v :: v in ids ==> indegrees[v] == Pending(edges, Elements(order), v)
    requires forall i, j :: 0 <= i < j < |queue| ==> queue[i] <= queue[j]
    ensures queue[0] in ids && queue[0] !in order
    ensures LeastReady(OutgoingOf(ids, edges), Elements(order), queue[0])
    ensures QueueOk(ids, order + [queue[0]], queue[1..], indegrees)
  {
    var g := OutgoingOf(ids, edges);
    assert queue[0] in queue;
    ReadyWhenNothingPending(ids, edges, Elements(order), queue[0]);
    forall w | Ready(g, Elements(order), w)
      ensures queue[0] <= w
    {
      ReadyWhenNothingPending(ids, edges, Elements(order), w);
      assert w in queue;
    }
    assert queue == [queue[0]] + queue[1..];
  }

  lemma SameSize(s: seq<Id>, t: seq<Id>)
    requires Distinct(s) && Distinct(t) && Elements(s) <= Elements(t)
    ensures |s| == |t| <==> Elements(s) == Elements(t)
  {
    DistinctSize(s);
    DistinctSize(t);
    if |s| == |t| {
      assert |Elements(t) - Elements(s)| == 0;
    }
  }

  lemma {:induction false} DistinctSize(s: seq<Id>)
    requires Distinct(s)
    ensures |Elements(s)| == |s|
  {
    if s != [] {
      var front := s[..|s| - 1];
      DistinctSize(front);
      assert Elements(s) == Elements(front) + {s[|s| - 1]};
    }
  }
}
