/** Walks and reachability in the compiler's `outgoing` map. */
module Graphs {
  import opened Workflow

  /** Node id to its outgoing edges, in definition order. */
  type Outgoing = map<Id, seq<Edge>>

  ghost predicate WellFormed(g: Outgoing) {
    forall a, i :: a in g && 0 <= i < |g[a]| ==> g[a][i].source == a && g[a][i].target in g
  }

  ghost predicate HasEdge(g: Outgoing, a: Id, b: Id) {
    a in g && exists i :: 0 <= i < |g[a]| && g[a][i].target == b
  }

  ghost predicate IsWalk(g: Outgoing, w: seq<Id>) {
    |w| > 0 && forall i :: 0 <= i < |w| - 1 ==> HasEdge(g, w[i], w[i + 1])
  }

  ghost predicate WalkFromTo(g: Outgoing, a: Id, b: Id, w: seq<Id>) {
    IsWalk(g, w) && w[0] == a && w[|w| - 1] == b
  }

  ghost predicate Reach(g: Outgoing, a: Id, b: Id) {
    exists w :: WalkFromTo(g, a, b, w)
  }

  ghost predicate Mutual(g: Outgoing, a: Id, b: Id) {
    Reach(g, a, b) && Reach(g, b, a)
  }

  lemma ReachSelf(g: Outgoing, a: Id)
    ensures Reach(g, a, a)
  {
    assert WalkFromTo(g, a, a, [a]);
  }

  lemma ReachEdge(g: Outgoing, a: Id, b: Id)
    requires HasEdge(g, a, b)
    ensures Reach(g, a, b)
  {
    assert WalkFromTo(g, a, b, [a, b]);
  }

  lemma EdgeTargetIsNode(g: Outgoing, a: Id, b: Id)
    requires WellFormed(g) && HasEdge(g, a, b)
    ensures b in g
  {
  }

  lemma WalkConcat(g: Outgoing, a: Id, b: Id, c: Id, v: seq<Id>, w: seq<Id>)
    requires WalkFromTo(g, a, b, v) && WalkFromTo(g, b, c, w)
    ensures WalkFromTo(g, a, c, v + w[1..])
  {
    var u := v + w[1..];
    forall i | 0 <= i < |u| - 1
      ensures HasEdge(g, u[i], u[i + 1])
    {
      if i < |v| - 1 {
        assert HasEdge(g, v[i], v[i + 1]);
      } else {
        var k := i - (|v| - 1);
        assert u[i] == w[k];
        assert HasEdge(g, w[k], w[k + 1]);
      }
    }
  }

  lemma ReachTrans(g: Outgoing, a: Id, b: Id, c: Id)
    requires Reach(g, a, b) && Reach(g, b, c)
    ensures Reach(g, a, c)
  {
    var v :| WalkFromTo(g, a, b, v);
    var w :| WalkFromTo(g, b, c, w);
    WalkConcat(g, a, b, c, v, w);
  }

  lemma WalkExtend(g: Outgoing, w: seq<Id>, y: Id)
    requires IsWalk(g, w) && HasEdge(g, w[|w| - 1], y)
    ensures IsWalk(g, w + [y])
  {
    var v := w + [y];
    forall i | 0 <= i < |v| - 1
      ensures HasEdge(g, v[i], v[i + 1])
    {
      if i < |w| - 1 {
        assert HasEdge(g, w[i], w[i + 1]);
      }
    }
  }

  lemma WalkSuffix(g: Outgoing, w: seq<Id>, i: nat)
    requires IsWalk(g, w) && i < |w|
    ensures WalkFromTo(g, w[i], w[|w| - 1], w[i..])
    ensures WalkFromTo(g, w[0], w[i], w[..i + 1])
  {
    forall k | 0 <= k < |w[i..]| - 1
      ensures HasEdge(g, w[i..][k], w[i..][k + 1])
    {
      assert HasEdge(g, w[i + k], w[i + k + 1]);
    }
  }

  /** A walk that starts inside a set and ends outside it crosses the boundary on some edge. */
  lemma FirstExit(g: Outgoing, inside: set<Id>, a: Id, b: Id) returns (x: Id, y: Id)
    requires a in inside && b !in inside && Reach(g, a, b)
    ensures x in inside && y !in inside && HasEdge(g, x, y)
    ensures Reach(g, a, x) && Reach(g, y, b)
  {
    var w :| WalkFromTo(g, a, b, w);
    var i := 0;
    while w[i + 1] in inside
      invariant 0 <= i < |w| - 1
      invariant w[i] in inside
      decreases |w| - i
    {
      i := i + 1;
    }
    x, y := w[i], w[i + 1];
    assert HasEdge(g, w[i], w[i + 1]);
    WalkSuffix(g, w, i);
    WalkSuffix(g, w, i + 1);
  }

  /** A set closed under successors that holds `a` holds everything `a` reaches. */
  lemma ClosedSetContainsReach(g: Outgoing, inside: set<Id>, a: Id, b: Id)
    requires a in inside && Reach(g, a, b)
    requires forall x, y :: x in inside && HasEdge(g, x, y) ==> y in inside
    ensures b in inside
  {
    if b !in inside {
      var x, y := FirstExit(g, inside, a, b);
    }
  }

  /** Every walk can be cut down to one that meets no node twice. */
  lemma {:induction false} SimpleWalk(g: Outgoing, a: Id, b: Id, w: seq<Id>) returns (v: seq<Id>)
    requires WalkFromTo(g, a, b, w)
    ensures WalkFromTo(g, a, b, v) && Distinct(v)
    decreases |w|
  {
    v := w;
    if i, j :| 0 <= i < j < |w| && w[i] == w[j] {
      WalkSuffix(g, w, i);
      WalkSuffix(g, w, j);
      WalkConcat(g, a, w[i], b, w[..i + 1], w[j..]);
      v := SimpleWalk(g, a, b, w[..i + 1] + w[j..][1..]);
    }
  }
}
