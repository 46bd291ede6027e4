/** `stronglyConnectedComponents`: Tarjan's algorithm over the `outgoing` map. */
module StronglyConnected {
  import opened Workflow
  import opened Graphs

  ghost predicate InComponent(components: seq<seq<Id>>, c: int, x: Id) {
    0 <= c < |components| && x in components[c]
  }

  ghost predicate Listed(components: seq<seq<Id>>, x: Id) {
    exists c :: InComponent(components, c, x)
  }

  ghost predicate SameComponent(components: seq<seq<Id>>, a: Id, b: Id) {
    exists c :: InComponent(components, c, a) && InComponent(components, c, b)
  }

  /** Non-empty, duplicate-free, pairwise disjoint lists that together hold exactly `nodes`. */
  ghost predicate IsPartition(components: seq<seq<Id>>, nodes: set<Id>) {
    && (forall c :: 0 <= c < |components| ==> components[c] != [] && Distinct(components[c]))
    && (forall c, d, x :: InComponent(components, c, x) && InComponent(components, d, x) ==> c == d)
    && (forall x :: Listed(components, x) <==> x in nodes)
  }

  /** The lists partition the nodes, and two nodes share one exactly when each reaches the other. */
  ghost predicate AreComponents(g: Outgoing, components: seq<seq<Id>>) {
    && IsPartition(components, g.Keys)
    && forall a, b :: a in g && b in g ==> (SameComponent(components, a, b) <==> Mutual(g, a, b))
  }

  ghost predicate IsScc(g: Outgoing, component: seq<Id>) {
    forall x, y :: x in component ==> (y in component <==> Mutual(g, x, y))
  }

  /** The algorithm's variables other than `lowLinks`. */
  datatype Search = Search(
    index: nat, stack: seq<Id>, indices: map<Id, nat>, components: seq<seq<Id>>)

  ghost predicate StackOk(s: Search) {
    && (forall k :: 0 <= k < |s.stack| ==> s.stack[k] in s.indices)
    && (forall k, m :: 0 <= k < m < |s.stack| ==> s.indices[s.stack[k]] < s.indices[s.stack[m]])
    && (forall x :: x in s.indices ==> s.indices[x] < s.index)
  }

  /** Every numbered node is either on the stack or already in a component, never both. */
  ghost predicate Split(s: Search) {
    && (forall x :: x in s.indices <==> x in s.stack || Listed(s.components, x))
    && (forall x :: x in s.stack ==> !Listed(s.components, x))
    && (forall c :: 0 <= c < |s.components| ==> s.components[c] != [] && Distinct(s.components[c]))
    && (forall c, d, x :: InComponent(s.components, c, x) && InComponent(s.components, d, x) ==> c == d)
  }

  /** `y` reaches some open call that was numbered no later than `y`. */
  ghost predicate AnchoredBelow(g: Outgoing, s: Search, active: set<Id>, y: Id) {
    y in s.indices && exists x :: x in active && x in s.indices && s.indices[x] <= s.indices[y] && Reach(g, y, x)
  }

  ghost predicate Anchored(g: Outgoing, s: Search, active: set<Id>) {
    forall y {:trigger AnchoredBelow(g, s, active, y)} :: y in s.stack ==> AnchoredBelow(g, s, active, y)
  }

  /** Earlier stack entries reach later ones. */
  ghost predicate Chained(g: Outgoing, s: Search) {
    forall k, m {:trigger Reach(g, s.stack[k], s.stack[m])} ::
      0 <= k <= m < |s.stack| ==> Reach(g, s.stack[k], s.stack[m])
  }

  /** Only open calls may still have unnumbered successors. */
  ghost predicate Explored(g: Outgoing, s: Search, active: set<Id>) {
    && (forall x :: x in active ==> x in s.stack)
    && (forall x, y :: x in s.indices && x !in active && HasEdge(g, x, y) ==> y in s.indices)
  }

  ghost predicate Sccs(g: Outgoing, s: Search) {
    forall c :: 0 <= c < |s.components| ==> IsScc(g, s.components[c])
  }

  /** `active` is the set of nodes whose `visit` call has not returned. */
  ghost predicate Inv(g: Outgoing, s: Search, active: set<Id>) {
    && StackOk(s)
    && Split(s)
    && Explored(g, s, active)
    && Chained(g, s)
    && Anchored(g, s, active)
    && Sccs(g, s)
  }

  /** `t` extends `s`: nothing numbered, stacked or emitted in `s` has changed. */
  ghost predicate Extends(s: Search, t: Search) {
    && s.index <= t.index
    && |s.stack| <= |t.stack| && t.stack[..|s.stack|] == s.stack
    && (forall x :: x in s.indices ==> x in t.indices && t.indices[x] == s.indices[x])
    && |s.components| <= |t.components| && t.components[..|s.components|] == s.components
  }

  lemma ExtendsKeys(s: Search, t: Search)
    requires Extends(s, t)
    ensures s.indices.Keys <= t.indices.Keys
  {
    forall x | x in s.indices.Keys
      ensures x in t.indices.Keys
    {
    }
  }

  /** `low` is the number of some stacked node that `x` reaches. */
  ghost predicate LowWitness(g: Outgoing, s: Search, x: Id, low: nat) {
    exists y :: y in s.stack && y in s.indices && s.indices[y] == low && Reach(g, x, y)
  }

  /** No edge from the stack above position `p` enters the stack below `p` at a number under `low`. */
  ghost predicate LowBounds(g: Outgoing, s: Search, p: nat, from: nat, low: nat) {
    forall k, m :: 0 <= m < p && from <= k < |s.stack| && m < |s.stack| && HasEdge(g, s.stack[k], s.stack[m])
      ==> s.stack[m] in s.indices && low <= s.indices[s.stack[m]]
  }

  lemma StackDistinct(s: Search)
    requires StackOk(s)
    ensures Distinct(s.stack)
  {
  }

  function Push(s: Search, x: Id): Search {
    Search(s.index + 1, s.stack + [x], s.indices[x := s.index], s.components)
  }

  lemma PushAnchored(g: Outgoing, s: Search, active: set<Id>, x: Id)
    requires Anchored(g, s, active) && x !in s.indices
    ensures Anchored(g, Push(s, x), active + {x})
  {
    var t := Push(s, x);
    forall y | y in t.stack
      ensures AnchoredBelow(g, t, active + {x}, y)
    {
      if y in s.stack {
        assert AnchoredBelow(g, s, active, y);
        var a :| a in active && a in s.indices && s.indices[a] <= s.indices[y] && Reach(g, y, a);
        assert a in active + {x} && t.indices[a] <= t.indices[y];
      } else {
        ReachSelf(g, x);
        assert y == x && x in active + {x};
      }
    }
  }

  lemma PushChained(g: Outgoing, s: Search, active: set<Id>, x: Id)
    requires Chained(g, s) && Anchored(g, s, active)
    requires forall a :: a in active ==> Reach(g, a, x)
    ensures Chained(g, Push(s, x))
  {
    var t := Push(s, x);
    forall k, m | 0 <= k <= m < |t.stack|
      ensures Reach(g, t.stack[k], t.stack[m])
    {
      if m < |s.stack| {
        assert Reach(g, s.stack[k], s.stack[m]);
      } else if k < m {
        var y := s.stack[k];
        assert y in s.stack;
        assert AnchoredBelow(g, s, active, y);
        var a :| a in active && a in s.indices && s.indices[a] <= s.indices[y] && Reach(g, y, a);
        ReachTrans(g, y, a, x);
      } else {
        ReachSelf(g, x);
      }
    }
  }

  lemma PushSplit(s: Search, x: Id)
    requires StackOk(s) && Split(s) && x !in s.indices
    ensures StackOk(Push(s, x)) && Split(Push(s, x)) && Extends(s, Push(s, x))
  {
    var t := Push(s, x);
    forall k, m | 0 <= k < m < |t.stack|
      ensures t.indices[t.stack[k]] < t.indices[t.stack[m]]
    {
      assert t.stack[k] == s.stack[k];
    }
  }

  lemma PushKeepsInv(g: Outgoing, s: Search, active: set<Id>, x: Id)
    requires Inv(g, s, active) && x !in s.indices
    requires forall a :: a in active ==> Reach(g, a, x)
    ensures Inv(g, Push(s, x), active + {x})
    ensures Extends(s, Push(s, x))
  {
    PushAnchored(g, s, active, x);
    PushChained(g, s, active, x);
    PushSplit(s, x);
  }

  /** Returning from a node that is not a component root leaves it finished but still stacked. */
  lemma LeaveAnchored(g: Outgoing, s: Search, active: set<Id>, x: Id, low: nat)
    requires Anchored(g, s, active + {x})
    requires x in s.indices && LowWitness(g, s, x, low) && low < s.indices[x]
    ensures Anchored(g, s, active)
  {
    var z :| z in s.stack && z in s.indices && s.indices[z] == low && Reach(g, x, z);
    assert AnchoredBelow(g, s, active + {x}, z);
    var w :| w in active + {x} && w in s.indices && s.indices[w] <= s.indices[z] && Reach(g, z, w);
    ReachTrans(g, x, z, w);
    forall y | y in s.stack
      ensures AnchoredBelow(g, s, active, y)
    {
      assert AnchoredBelow(g, s, active + {x}, y);
      var a :| a in active + {x} && a in s.indices && s.indices[a] <= s.indices[y] && Reach(g, y, a);
      if a == x {
        ReachTrans(g, y, x, w);
        assert w in active && s.indices[w] <= s.indices[y];
      }
    }
  }

  lemma LeaveKeepsInv(g: Outgoing, s: Search, active: set<Id>, x: Id, low: nat)
    requires Inv(g, s, active + {x}) && x in s.indices
    requires forall y :: HasEdge(g, x, y) ==> y in s.indices
    requires LowWitness(g, s, x, low) && low < s.indices[x]
    ensures Inv(g, s, active)
  {
    LeaveAnchored(g, s, active, x, low);
  }

  function Emit(s: Search, p: nat, component: seq<Id>): Search
    requires p <= |s.stack|
  {
    s.(stack := s.stack[..p], components := s.components + [component])
  }

  /** The stack above a root is one class of mutually reachable nodes. */
  lemma SegmentMutual(g: Outgoing, s: Search, active: set<Id>, x: Id, p: nat, y: Id)
    requires Chained(g, s) && Anchored(g, s, active + {x})
    requires p < |s.stack| && s.stack[p] == x
    requires forall a :: a in active ==> a in s.stack[..p]
    requires y in s.stack[p..]
    ensures Mutual(g, x, y)
  {
    var m :| p <= m < |s.stack| && s.stack[m] == y;
    assert Reach(g, s.stack[p], s.stack[m]);
    assert AnchoredBelow(g, s, active + {x}, y);
    var a :| a in active + {x} && a in s.indices && s.indices[a] <= s.indices[y] && Reach(g, y, a);
    if a != x {
      var k :| 0 <= k < p && s.stack[k] == a;
      assert Reach(g, s.stack[k], s.stack[p]);
      ReachTrans(g, y, a, x);
    }
  }

  /** An edge out of the stack above a root can only enter an emitted component. */
  lemma SegmentExit(g: Outgoing, s: Search, active: set<Id>, x: Id, p: nat, u: Id, v: Id)
    requires StackOk(s) && Explored(g, s, active + {x})
    requires p < |s.stack| && s.stack[p] == x
    requires forall a :: a in active ==> a in s.stack[..p]
    requires forall y :: HasEdge(g, x, y) ==> y in s.indices
    requires LowBounds(g, s, p, p, s.indices[x])
    requires u in s.stack[p..] && v !in s.stack[p..] && HasEdge(g, u, v)
    ensures v in s.indices && v !in s.stack
  {
    var k :| p <= k < |s.stack| && s.stack[k] == u;
    StackDistinct(s);
    assert u !in active;
    forall m | 0 <= m < |s.stack|
      ensures s.stack[m] != v
    {
      if m < p {
        assert s.indices[s.stack[m]] < s.indices[s.stack[p]];
      } else {
        assert s.stack[p..][m - p] == s.stack[m];
      }
    }
  }

  /** Nothing outside the stack above a root is mutually reachable with the root. */
  lemma SegmentMaximal(g: Outgoing, s: Search, active: set<Id>, x: Id, p: nat, z: Id)
    requires StackOk(s) && Split(s) && Explored(g, s, active + {x}) && Sccs(g, s)
    requires p < |s.stack| && s.stack[p] == x
    requires forall a :: a in active ==> a in s.stack[..p]
    requires forall y :: HasEdge(g, x, y) ==> y in s.indices
    requires LowBounds(g, s, p, p, s.indices[x])
    requires Mutual(g, x, z)
    ensures z in s.stack[p..]
  {
    var inside := Elements(s.stack[p..]);
    assert s.stack[p..][0] == x;
    if z !in s.stack[p..] {
      var u, v := FirstExit(g, inside, x, z);
      SegmentExit(g, s, active, x, p, u, v);
      var c :| InComponent(s.components, c, v);
      ReachEdge(g, u, v);
      ReachTrans(g, x, u, v);
      ReachTrans(g, v, z, x);
      assert IsScc(g, s.components[c]);
      assert InComponent(s.components, c, x);
    }
  }

  lemma SegmentIsScc(g: Outgoing, s: Search, active: set<Id>, x: Id, p: nat, component: seq<Id>)
    requires Inv(g, s, active + {x})
    requires p < |s.stack| && s.stack[p] == x
    requires forall a :: a in active ==> a in s.stack[..p]
    requires forall y :: HasEdge(g, x, y) ==> y in s.indices
    requires LowBounds(g, s, p, p, s.indices[x])
    requires forall y :: y in component <==> y in s.stack[p..]
    ensures IsScc(g, component)
  {
    forall a, b | a in component
      ensures b in component <==> Mutual(g, a, b)
    {
      SegmentMutual(g, s, active, x, p, a);
      if b in component {
        SegmentMutual(g, s, active, x, p, b);
        ReachTrans(g, a, x, b);
        ReachTrans(g, b, x, a);
      }
      if Mutual(g, a, b) {
        ReachTrans(g, x, a, b);
        ReachTrans(g, b, a, x);
        SegmentMaximal(g, s, active, x, p, b);
      }
    }
  }

  lemma EmitAnchored(g: Outgoing, s: Search, active: set<Id>, x: Id, p: nat, component: seq<Id>)
    requires StackOk(s) && Anchored(g, s, active + {x})
    requires p < |s.stack| && s.stack[p] == x
    ensures Anchored(g, Emit(s, p, component), active)
  {
    var t := Emit(s, p, component);
    forall y | y in t.stack
      ensures AnchoredBelow(g, t, active, y)
    {
      var m :| 0 <= m < p && s.stack[m] == y;
      assert y in s.stack;
      assert AnchoredBelow(g, s, active + {x}, y);
      var a :| a in active + {x} && a in s.indices && s.indices[a] <= s.indices[y] && Reach(g, y, a);
      assert s.indices[s.stack[m]] < s.indices[s.stack[p]];
    }
  }

  lemma EmitChained(g: Outgoing, s: Search, p: nat, component: seq<Id>)
    requires Chained(g, s) && p <= |s.stack|
    ensures Chained(g, Emit(s, p, component))
  {
    forall k, m | 0 <= k <= m < p
      ensures Reach(g, s.stack[..p][k], s.stack[..p][m])
    {
      assert Reach(g, s.stack[k], s.stack[m]);
    }
  }

  lemma EmitListed(components: seq<seq<Id>>, component: seq<Id>)
    ensures forall c, y :: InComponent(components + [component], c, y) <==>
                             InComponent(components, c, y) || (c == |components| && y in component)
    ensures forall y :: Listed(components + [component], y) <==> Listed(components, y) || y in component
  {
    var all := components + [component];
    assert forall c, y :: InComponent(all, c, y) <==>
                            InComponent(components, c, y) || (c == |components| && y in component);
    forall y
      ensures Listed(all, y) <==> Listed(components, y) || y in component
    {
      if y in component {
        assert InComponent(all, |components|, y);
      }
      if Listed(components, y) {
        var c :| InComponent(components, c, y);
        assert InComponent(all, c, y);
      }
    }
  }

  lemma EmitSplit(s: Search, p: nat, component: seq<Id>)
    requires StackOk(s) && Split(s) && p < |s.stack|
    requires Distinct(component) && forall y :: y in component <==> y in s.stack[p..]
    ensures StackOk(Emit(s, p, component)) && Split(Emit(s, p, component))
  {
    var t := Emit(s, p, component);
    assert s.stack == s.stack[..p] + s.stack[p..];
    var root := s.stack[p..][0];
    assert root in component;
    EmitListed(s.components, component);
    StackDistinct(s);
    assert forall y :: y in component ==> y !in t.stack && y in s.stack;
  }

  lemma EmitKeepsInv(g: Outgoing, s: Search, active: set<Id>, x: Id, p: nat, component: seq<Id>)
    requires Inv(g, s, active + {x})
    requires p < |s.stack| && s.stack[p] == x
    requires forall a :: a in active ==> a in s.stack[..p]
    requires forall y :: HasEdge(g, x, y) ==> y in s.indices
    requires LowBounds(g, s, p, p, s.indices[x])
    requires Distinct(component) && forall y :: y in component <==> y in s.stack[p..]
    ensures Inv(g, Emit(s, p, component), active)
  {
    SegmentIsScc(g, s, active, x, p, component);
    EmitAnchored(g, s, active, x, p, component);
    EmitChained(g, s, p, component);
    EmitSplit(s, p, component);
  }

  class Tarjan {
    const outgoing: Outgoing
    var index: nat
    var stack: seq<Id>
    var onStack: set<Id>
    var indices: map<Id, nat>
    var lowLinks: map<Id, nat>
    var components: seq<seq<Id>>

    constructor (outgoing: Outgoing)
      ensures this.outgoing == outgoing
      ensures View() == Search(0, [], map[], []) && onStack == {} && lowLinks == map[]
    {
      this.outgoing := outgoing;
      index, stack, onStack, indices, lowLinks, components := 0, [], {}, map[], map[], [];
    }

    ghost function View(): Search
      reads this
    {
      Search(index, stack, indices, components)
    }

    ghost predicate Valid(active: set<Id>)
      reads this
    {
      && WellFormed(outgoing)
      && Inv(outgoing, View(), active)
      && onStack == Elements(stack)
      && lowLinks.Keys == indices.Keys <= outgoing.Keys
    }

    /** The loop that empties the stack down to the root `nodeId`. */
    method PopTo(nodeId: Id, ghost p: nat) returns (component: seq<Id>)
      requires StackOk(View()) && onStack == Elements(stack)
      requires p < |stack| && stack[p] == nodeId
      modifies this`stack, this`onStack
      ensures stack == old(stack)[..p] && onStack == Elements(stack)
      ensures Distinct(component)
      ensures forall y :: y in component <==> y in old(stack)[p..]
    {
      ghost var done := View();
      component := [];
      while stack != []
        invariant p < |stack| <= |done.stack| && stack == done.stack[..|stack|]
        invariant onStack == Elements(stack)
        invariant |component| == |done.stack| - |stack|
        invariant forall k :: 0 <= k < |component| ==> component[k] == done.stack[|done.stack| - 1 - k]
      {
        var current := stack[|stack| - 1];
        assert stack == stack[..|stack| - 1] + [current];
        assert current == done.stack[|stack| - 1];
        StackDistinct(done);
        stack := stack[..|stack| - 1];
        onStack := onStack - {current};
        component := component + [current];
        if current == nodeId {
          break;
        }
      }
      PoppedSegment(done, p, component);
    }

    /** The recursive `visit` closure. */
    method Visit(nodeId: Id, ghost active: set<Id>)
      requires Valid(active) && nodeId in outgoing && nodeId !in indices
      requires forall a :: a in active ==> Reach(outgoing, a, nodeId)
      modifies this
      ensures Valid(active) && nodeId in indices && Extends(old(View()), View())
      ensures forall x :: x in old(lowLinks) ==> x in lowLinks && lowLinks[x] == old(lowLinks)[x]
      ensures LowResult(outgoing, old(View()), View(), nodeId, lowLinks[nodeId])
      decreases outgoing.Keys - indices.Keys, 0
    {
      hide Inv, Scanned, Extends, LowResult;
      ghost var before := View();
      Open(nodeId, active);
      var edges := outgoing[nodeId];
      for i := 0 to |edges|
        invariant Valid(active + {nodeId}) && nodeId in lowLinks
        invariant Scanned(outgoing, before, View(), nodeId, lowLinks[nodeId])
        invariant forall x :: x in before.indices ==> x in lowLinks && lowLinks[x] == old(lowLinks)[x]
        invariant FirstProcessed(before, View(), edges, i, lowLinks[nodeId])
        invariant old(indices).Keys + {nodeId} <= indices.Keys
      {
        ghost var mid, low := View(), lowLinks[nodeId];
        ScanEdge(nodeId, edges[i].target, before, active);
        ProcessedStays(before, mid, View(), edges, i, low, lowLinks[nodeId]);
      }
      Close(nodeId, before, active);
    }

    /** The opening of `visit`: number `nodeId` and push it. */
    method Open(nodeId: Id, ghost active: set<Id>)
      requires Valid(active) && nodeId in outgoing && nodeId !in indices
      requires forall a :: a in active ==> Reach(outgoing, a, nodeId)
      modifies this
      ensures Valid(active + {nodeId}) && View() == Push(old(View()), nodeId)
      ensures forall a :: a in active ==> a in old(stack)
      ensures lowLinks == old(lowLinks)[nodeId := old(index)]
      ensures Scanned(outgoing, old(View()), View(), nodeId, lowLinks[nodeId])
    {
      PushKeepsInv(outgoing, View(), active, nodeId);
      PushScanned(outgoing, View(), active, nodeId);
      indices := indices[nodeId := index];
      lowLinks := lowLinks[nodeId := index];
      index := index + 1;
      stack := stack + [nodeId];
      onStack := onStack + {nodeId};
    }

    /** One iteration of the loop over the outgoing edges of `nodeId`. */
    method ScanEdge(nodeId: Id, target: Id, ghost before: Search, ghost active: set<Id>)
      requires Valid(active + {nodeId}) && HasEdge(outgoing, nodeId, target)
      requires nodeId in lowLinks && Scanned(outgoing, before, View(), nodeId, lowLinks[nodeId])
      requires forall a :: a in active ==> a in before.stack
      modifies this
      ensures Valid(active + {nodeId}) && Extends(old(View()), View())
      ensures nodeId in lowLinks && lowLinks[nodeId] <= old(lowLinks)[nodeId]
      ensures Scanned(outgoing, before, View(), nodeId, lowLinks[nodeId])
      ensures forall x :: x in before.indices ==> x in lowLinks && lowLinks[x] == old(lowLinks)[x]
      ensures Processed(before, View(), target, lowLinks[nodeId])
      decreases outgoing.Keys - indices.Keys, 1
    {
      hide Split, Anchored, Sccs, LowBounds, Reach, HasEdge;
      ghost var mid, low := View(), lowLinks[nodeId];
      ReachEdge(outgoing, nodeId, target);
      EdgeTargetIsNode(outgoing, nodeId, target);
      if target !in indices {
        OpenCallsReach(outgoing, before, mid, active, nodeId, target);
        Visit(target, active + {nodeId});
        AfterChild(outgoing, before, mid, View(), nodeId, target, low, lowLinks[target]);
        lowLinks := lowLinks[nodeId := Min(lowLinks[nodeId], lowLinks[target])];
      } else if target in onStack {
        AfterBackEdge(outgoing, before, mid, nodeId, target, low);
        lowLinks := lowLinks[nodeId := Min(lowLinks[nodeId], indices[target])];
      }
    }

    /** The end of `visit`: either return, or pop the component rooted at `nodeId`. */
    method Close(nodeId: Id, ghost before: Search, ghost active: set<Id>)
      requires Valid(active + {nodeId}) && nodeId in lowLinks
      requires Scanned(outgoing, before, View(), nodeId, lowLinks[nodeId])
      requires nodeId in outgoing
      requires FirstProcessed(before, View(), outgoing[nodeId], |outgoing[nodeId]|, lowLinks[nodeId])
      requires forall a :: a in active ==> a in before.stack
      modifies this`stack, this`onStack, this`components
      ensures Valid(active) && Extends(before, View())
      ensures LowResult(outgoing, before, View(), nodeId, lowLinks[nodeId])
    {
      ghost var done, p := View(), |before.stack|;
      AllProcessed(outgoing, before, done, nodeId, lowLinks[nodeId]);
      if lowLinks[nodeId] != indices[nodeId] {
        LeaveKeepsInv(outgoing, done, active, nodeId, lowLinks[nodeId]);
        return;
      }
      var component := PopTo(nodeId, p);
      EmitKeepsInv(outgoing, done, active, nodeId, p, component);
      components := components + [component];
      assert View() == Emit(done, p, component);
    }
  }

  /** What `visit` promises its caller about the low link it leaves behind. */
  ghost predicate LowResult(g: Outgoing, s: Search, t: Search, x: Id, low: nat) {
    && (s.index <= low ==> t.stack == s.stack)
    && (low < s.index ==> LowWitness(g, t, x, low) && LowBounds(g, t, |s.stack|, |s.stack|, low))
  }

  /** The state between two edges of `x`; `before` is the state in which `visit(x)` was called. */
  ghost predicate Scanned(g: Outgoing, before: Search, s: Search, x: Id, low: nat) {
    && Extends(before, s)
    && |before.stack| < |s.stack| && s.stack[|before.stack|] == x
    && x !in before.indices && x in s.indices && s.indices[x] == before.index && low <= before.index
    && LowWitness(g, s, x, low)
    && LowBounds(g, s, |before.stack|, |before.stack| + 1, low)
  }

  ghost predicate Processed(before: Search, s: Search, target: Id, low: nat) {
    target in s.indices && (target in before.stack ==> low <= s.indices[target])
  }

  lemma PushScanned(g: Outgoing, s: Search, active: set<Id>, x: Id)
    requires StackOk(s) && StackOk(Push(s, x)) && x !in s.indices && Extends(s, Push(s, x))
    ensures Scanned(g, s, Push(s, x), x, s.index)
  {
    ReachSelf(g, x);
  }

  /** The first `n` edges of a node have been handled. */
  ghost predicate FirstProcessed(before: Search, s: Search, edges: seq<Edge>, n: nat, low: nat) {
    forall j :: 0 <= j < n <= |edges| ==> Processed(before, s, edges[j].target, low)
  }

  lemma ProcessedStays(before: Search, s: Search, t: Search, edges: seq<Edge>, n: nat, low: nat, low': nat)
    requires Extends(s, t) && low' <= low && n < |edges|
    requires FirstProcessed(before, s, edges, n, low)
    requires Processed(before, t, edges[n].target, low')
    ensures FirstProcessed(before, t, edges, n + 1, low')
  {
  }

  lemma AllProcessed(g: Outgoing, before: Search, s: Search, x: Id, low: nat)
    requires StackOk(s) && Scanned(g, before, s, x, low)
    requires x in g && FirstProcessed(before, s, g[x], |g[x]|, low)
    ensures forall y :: HasEdge(g, x, y) ==> y in s.indices
    ensures LowBounds(g, s, |before.stack|, |before.stack|, low)
  {
    forall y | HasEdge(g, x, y)
      ensures Processed(before, s, y, low)
    {
      var j :| 0 <= j < |g[x]| && g[x][j].target == y;
    }
    forall m | 0 <= m < |before.stack| && HasEdge(g, x, s.stack[m])
      ensures low <= s.indices[s.stack[m]]
    {
      assert s.stack[m] == before.stack[m];
    }
  }

  lemma OpenCallsReach(g: Outgoing, before: Search, s: Search, active: set<Id>, x: Id, target: Id)
    requires StackOk(s) && Chained(g, s) && Extends(before, s)
    requires |before.stack| < |s.stack| && s.stack[|before.stack|] == x
    requires Reach(g, x, target)
    requires forall a :: a in active ==> a in before.stack
    ensures forall a :: a in active + {x} ==> Reach(g, a, target)
  {
    forall a | a in active
      ensures Reach(g, a, target)
    {
      EarlierReaches(g, s, a, |before.stack|);
      ReachTrans(g, a, x, target);
    }
  }

  lemma AfterBackEdge(g: Outgoing, before: Search, s: Search, x: Id, target: Id, low: nat)
    requires StackOk(s) && Scanned(g, before, s, x, low)
    requires target in s.stack && Reach(g, x, target)
    ensures Scanned(g, before, s, x, Min(low, s.indices[target]))
  {
  }

  lemma EarlierReaches(g: Outgoing, s: Search, a: Id, p: nat)
    requires Chained(g, s) && p < |s.stack| && a in s.stack[..p]
    ensures Reach(g, a, s.stack[p])
  {
    var k :| 0 <= k < p && s.stack[k] == a;
    assert Reach(g, s.stack[k], s.stack[p]);
  }

  lemma PoppedSegment(s: Search, p: nat, component: seq<Id>)
    requires StackOk(s) && p <= |s.stack| && |component| == |s.stack| - p
    requires forall k :: 0 <= k < |component| ==> component[k] == s.stack[|s.stack| - 1 - k]
    ensures Distinct(component)
    ensures forall y :: y in component <==> y in s.stack[p..]
  {
    StackDistinct(s);
    forall y | y in s.stack[p..]
      ensures y in component
    {
      var m :| p <= m < |s.stack| && s.stack[m] == y;
      assert component[|s.stack| - 1 - m] == y;
    }
  }

  lemma AfterChild(g: Outgoing, before: Search, s: Search, t: Search, x: Id, child: Id, low: nat, childLow: nat)
    requires StackOk(s) && StackOk(t) && Extends(s, t) && Scanned(g, before, s, x, low)
    requires Reach(g, x, child) && LowResult(g, s, t, child, childLow)
    ensures Scanned(g, before, t, x, Min(low, childLow))
  {
    if low <= childLow {
      var y :| y in s.stack && s.indices[y] == low && Reach(g, x, y);
      assert y in t.stack[..|s.stack|];
      assert t.indices[y] == low;
    } else {
      var y :| y in t.stack && y in t.indices && t.indices[y] == childLow && Reach(g, child, y);
      ReachTrans(g, x, child, y);
    }
    var p, l := |before.stack|, Min(low, childLow);
    assert t.stack[..p] == s.stack[..p];
    forall k, m | 0 <= m < p && p + 1 <= k < |t.stack| && HasEdge(g, t.stack[k], t.stack[m])
      ensures l <= t.indices[t.stack[m]]
    {
      assert t.stack[m] == s.stack[m];
      if k < |s.stack| {
        assert t.stack[k] == s.stack[k];
      }
    }
  }

  /** Emits the strongly connected components of any finite graph. */
  method StronglyConnectedComponents(nodeIds: seq<Id>, outgoing: Outgoing) returns (components: seq<seq<Id>>)
    requires WellFormed(outgoing) && Elements(nodeIds) == outgoing.Keys
    ensures AreComponents(outgoing, components)
  {
    var search := new Tarjan(outgoing);
    for i := 0 to |nodeIds|
      invariant fresh(search) && search.outgoing == outgoing && search.Valid({})
      invariant Elements(nodeIds[..i]) <= search.indices.Keys
    {
      var nodeId := nodeIds[i];
      assert nodeId in Elements(nodeIds);
      assert Elements(nodeIds[..i + 1]) == Elements(nodeIds[..i]) + {nodeId};
      ghost var mid := search.View();
      if nodeId !in search.indices {
        search.Visit(nodeId, {});
        ExtendsKeys(mid, search.View());
      }
    }
    assert nodeIds[..|nodeIds|] == nodeIds;
    components := search.components;
    Finished(outgoing, search.View());
  }

  lemma StackNeedsOpenCall(g: Outgoing, s: Search, active: set<Id>)
    requires Anchored(g, s, active) && s.stack != []
    ensures active != {}
  {
    assert AnchoredBelow(g, s, active, s.stack[0]);
  }

  /** With no open call the stack is empty and every numbered node has been emitted. */
  lemma Finished(g: Outgoing, s: Search)
    requires Inv(g, s, {}) && s.indices.Keys == g.Keys
    ensures AreComponents(g, s.components)
  {
    if s.stack != [] {
      StackNeedsOpenCall(g, s, {});
    }
    forall a, b | a in g && b in g
      ensures SameComponent(s.components, a, b) <==> Mutual(g, a, b)
    {
      assert Listed(s.components, a);
      var c :| InComponent(s.components, c, a);
      assert IsScc(g, s.components[c]);
    }
  }
}
