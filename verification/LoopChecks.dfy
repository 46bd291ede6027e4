/** The compiler's loop rules: every cycle crosses a declared loop edge, and every declared loop
    edge lies on a cycle. */
module LoopChecks {
  import opened Workflow
  import opened Graphs
  import opened PathChecks
  import opened StronglyConnected
  import opened Topology

  datatype Diagnostic =
    | LoopNotDeclared(node: Id)
    | LoopNotBounded(edge: Id)
    | LoopEdgeNotCyclic(edge: Id)

  /** No cycle of two or more nodes consists of plain edges only. */
  ghost predicate PlainCyclesAreSelfLoops(g: Outgoing) {
    forall a, b :: a != b && HasEdge(PlainGraph(g), a, b) ==> !Reach(PlainGraph(g), b, a)
  }

  ghost predicate LoopEdgesAreCyclic(g: Outgoing, edges: seq<Edge>) {
    forall e :: e in edges && IsLoop(e) ==> Reach(g, e.target, e.source)
  }

  predicate Inside(e: Edge, members: seq<Id>) {
    e.source in members && e.target in members
  }

  predicate HasInnerLoop(edges: seq<Edge>, members: seq<Id>) {
    exists i :: 0 <= i < |edges| && IsLoop(edges[i]) && Inside(edges[i], members)
  }

  lemma InnerLoopIff(edges: seq<Edge>, members: seq<Id>)
    ensures HasInnerLoop(edges, members) <==> exists e :: e in edges && IsLoop(e) && e.source in members && e.target in members
  {
    if e :| e in edges && IsLoop(e) && e.source in members && e.target in members {
      var i :| 0 <= i < |edges| && edges[i] == e;
      assert IsLoop(edges[i]) && Inside(edges[i], members);
    }
  }

  lemma PlainReachIsReach(g: Outgoing, a: Id, b: Id)
    requires Reach(PlainGraph(g), a, b)
    ensures Reach(g, a, b)
  {
    var w :| WalkFromTo(PlainGraph(g), a, b, w);
    forall i | 0 <= i < |w| - 1
      ensures HasEdge(g, w[i], w[i + 1])
    {
      PlainHasEdge(g, w[i], w[i + 1]);
    }
    assert WalkFromTo(g, a, b, w);
  }

  lemma PlainHasEdge(g: Outgoing, a: Id, b: Id)
    requires HasEdge(PlainGraph(g), a, b)
    ensures HasEdge(g, a, b)
  {
    PlainEdge(g, a, b);
    var e :| e in g[a] && !IsLoop(e) && e.target == b;
    var i :| 0 <= i < |g[a]| && g[a][i] == e;
  }

  /** Two distinct nodes of one plain component witness a plain cycle. */
  lemma MutualPlainIsCycle(g: Outgoing, a: Id, b: Id) returns (c: Id)
    requires a != b && Mutual(PlainGraph(g), a, b)
    ensures a != c && HasEdge(PlainGraph(g), a, c) && Reach(PlainGraph(g), c, a)
  {
    var x;
    x, c := FirstExit(PlainGraph(g), {a}, a, b);
    ReachTrans(PlainGraph(g), c, b, a);
  }

  /** A walk inside a component without inner loop edges uses plain edges only. */
  lemma UndeclaredComponentIsPlain(ids: set<Id>, edges: seq<Edge>, members: seq<Id>, a: Id, b: Id)
    requires IsScc(OutgoingOf(ids, edges), members) && !HasInnerLoop(edges, members)
    requires a in members && b in members
    ensures Reach(PlainGraph(OutgoingOf(ids, edges)), a, b)
  {
    var g := OutgoingOf(ids, edges);
    var w :| WalkFromTo(g, a, b, w);
    forall i | 0 <= i < |w|
      ensures w[i] in members
    {
      WalkSuffix(g, w, i);
      ReachTrans(g, w[i], b, a);
    }
    forall i | 0 <= i < |w| - 1
      ensures HasEdge(PlainGraph(g), w[i], w[i + 1])
    {
      assert HasEdge(g, w[i], w[i + 1]);
      OutgoingEdge(ids, edges, w[i], w[i + 1]);
      var e :| e in edges && e.source == w[i] && e.target == w[i + 1];
      assert Inside(e, members);
      PlainOutgoingEdge(ids, edges, w[i], w[i + 1]);
    }
    assert WalkFromTo(PlainGraph(g), a, b, w);
  }

  lemma ComponentIsScc(g: Outgoing, components: seq<seq<Id>>, c: nat)
    requires WellFormed(g) && AreComponents(g, components) && c < |components|
    ensures IsScc(g, components[c])
  {
    forall x, y | x in components[c]
      ensures y in components[c] <==> Mutual(g, x, y)
    {
      assert InComponent(components, c, x);
      assert Listed(components, x);
      if y in components[c] {
        assert InComponent(components, c, y) && Listed(components, y);
        assert SameComponent(components, x, y);
      }
      if Mutual(g, x, y) {
        ClosedSetContainsReach(g, g.Keys, x, y);
        assert SameComponent(components, x, y);
        var d :| InComponent(components, d, x) && InComponent(components, d, y);
        assert d == c;
      }
    }
  }

  /** `WF_LOOP_NOT_DECLARED`: components of several nodes without any inner loop edge. */
  method UndeclaredLoops(components: seq<seq<Id>>, edges: seq<Edge>) returns (diagnostics: seq<Diagnostic>)
    requires forall c :: 0 <= c < |components| ==> components[c] != []
    ensures diagnostics == Reports(components, Undeclared(edges), ReportUndeclared())
    ensures diagnostics == [] <==>
            forall c :: 0 <= c < |components| && |components[c]| > 1 ==> HasInnerLoop(edges, components[c])
  {
    diagnostics := [];
    NoReports(components, Undeclared(edges), ReportUndeclared());
    assert forall c {:trigger components[c]} :: 0 <= c < |components| ==> components[c] in components;
    for n := 0 to |components|
      invariant diagnostics == Reports(components[..n], Undeclared(edges), ReportUndeclared())
    {
      ReportsNext(components, n, Undeclared(edges), ReportUndeclared());
      if |components[n]| > 1 && !HasInnerLoop(edges, components[n]) {
        diagnostics := diagnostics + [LoopNotDeclared(components[n][0])];
      }
    }
    assert components[..|components|] == components;
  }

  function ReportUndeclared(): seq<Id> -> Diagnostic {
    (c: seq<Id>) => LoopNotDeclared(if c == [] then 0 else c[0])
  }

  /** A component of several nodes without a declared loop edge inside. */
  function Undeclared(edges: seq<Edge>): seq<Id> -> bool {
    (c: seq<Id>) => |c| > 1 && forall e :: e in edges && IsLoop(e) ==> e.source !in c || e.target !in c
  }

  /** The first edge, by id, among the plain edges inside `members`. */
  method LeastInnerPlainEdge(edges: seq<Edge>, members: seq<Id>) returns (edge: Edge)
    requires exists e :: e in edges && !IsLoop(e) && Inside(e, members)
    ensures edge in edges && !IsLoop(edge) && Inside(edge, members)
    ensures forall e :: e in edges && !IsLoop(e) && Inside(e, members) ==> edge.id <= e.id
  {
    var best: Option<Edge> := None;
    for i := 0 to |edges|
      invariant best.None? ==> forall k :: 0 <= k < i ==> IsLoop(edges[k]) || !Inside(edges[k], members)
      invariant best.Some? ==> best.value in edges && !IsLoop(best.value) && Inside(best.value, members)
      invariant best.Some? ==> forall k :: 0 <= k < i && !IsLoop(edges[k]) && Inside(edges[k], members) ==>
                                             best.value.id <= edges[k].id
    {
      if !IsLoop(edges[i]) && Inside(edges[i], members) && (best.None? || edges[i].id < best.value.id) {
        best := Some(edges[i]);
      }
    }
    edge := best.value;
  }

  /** A plain component of several nodes always holds a plain edge to report. */
  lemma InnerPlainEdgeExists(ids: set<Id>, edges: seq<Edge>, members: seq<Id>, a: Id, b: Id)
    requires IsScc(PlainGraph(OutgoingOf(ids, edges)), members)
    requires a in members && b in members && a != b
    ensures exists e :: e in edges && !IsLoop(e) && Inside(e, members)
  {
    var plain := PlainGraph(OutgoingOf(ids, edges));
    var c := MutualPlainIsCycle(OutgoingOf(ids, edges), a, b);
    ReachEdge(plain, a, c);
    assert Mutual(plain, a, c);
    PlainOutgoingEdge(ids, edges, a, c);
    var e :| e in edges && !IsLoop(e) && e.source == a && e.target == c;
    assert Inside(e, members);
  }

  /** The `regionByNode` lookup: which component lists `x`. */
  method RegionOf(components: seq<seq<Id>>, x: Id) returns (region: nat)
    requires Listed(components, x)
    ensures region < |components| && x in components[region]
  {
    region := 0;
    while x !in components[region]
      invariant region < |components|
      invariant forall d :: 0 <= d < region ==> x !in components[d]
      decreases |components| - region
    {
      ghost var c :| InComponent(components, c, x);
      region := region + 1;
    }
  }

  /** Plain component `c` is a single node, or lies in a region without declared loops. */
  ghost predicate QuietAt(
    edges: seq<Edge>, components: seq<seq<Id>>, plainComponents: seq<seq<Id>>, c: int)
    requires 0 <= c < |plainComponents|
  {
    |plainComponents[c]| > 1 ==>
      forall d, e :: InComponent(components, d, plainComponents[c][0]) && e in edges && IsLoop(e) ==>
                       e.source !in components[d] || e.target !in components[d]
  }

  /** The finding names the first plain edge, by id, inside `members`. */
  ghost predicate NamesLeast(edges: seq<Edge>, members: seq<Id>, x: Diagnostic) {
    exists e :: e in edges && !IsLoop(e) && Inside(e, members) && x == LoopNotBounded(e.id) &&
                forall f :: f in edges && !IsLoop(f) && Inside(f, members) ==> e.id <= f.id
  }

  /** `WF_LOOP_NOT_BOUNDED`: plain components of several nodes in a region that declares a loop.
      `at` lists them in order, and each has one finding. */
  method UnboundedLoops(
    ghost ids: set<Id>, edges: seq<Edge>, components: seq<seq<Id>>, plainComponents: seq<seq<Id>>)
    returns (diagnostics: seq<Diagnostic>, ghost at: seq<nat>)
    requires Connects(ids, edges)
    requires AreComponents(OutgoingOf(ids, edges), components)
    requires AreComponents(PlainGraph(OutgoingOf(ids, edges)), plainComponents)
    ensures diagnostics == [] <==>
            forall c :: 0 <= c < |plainComponents| ==> QuietAt(edges, components, plainComponents, c)
    ensures forall c :: 0 <= c < |plainComponents| ==> (c in at <==> !QuietAt(edges, components, plainComponents, c))
    ensures (forall i, j :: 0 <= i < j < |at| ==> at[i] < at[j]) && |diagnostics| == |at|
    ensures forall k :: 0 <= k < |at| ==>
                          at[k] < |plainComponents| && NamesLeast(edges, plainComponents[at[k]], diagnostics[k])
    ensures forall x :: x in diagnostics ==> OnPlainCycle(OutgoingOf(ids, edges), edges, x)
  {
    ghost var g := OutgoingOf(ids, edges);
    diagnostics, at := [], [];
    hide AreComponents, HasInnerLoop, OutgoingOf, PlainGraph, Inside, Connects, OnPlainCycle, NamesLeast;
    for n := 0 to |plainComponents|
      invariant forall x :: x in diagnostics ==> OnPlainCycle(g, edges, x)
      invariant diagnostics == [] <==> forall c :: 0 <= c < n ==> QuietAt(edges, components, plainComponents, c)
      invariant forall c :: 0 <= c < n ==> (c in at <==> !QuietAt(edges, components, plainComponents, c))
      invariant (forall i, j :: 0 <= i < j < |at| ==> at[i] < at[j]) && |diagnostics| == |at|
      invariant forall k :: 0 <= k < |at| ==> at[k] < n && NamesLeast(edges, plainComponents[at[k]], diagnostics[k])
    {
      var members := plainComponents[n];
      if |members| > 1 {
        InsidePlainComponent(ids, edges, components, plainComponents, n);
        var region := RegionOf(components, members[0]);
        assert InComponent(components, region, members[0]);
        OneRegion(g, components, region, members[0]);
        InnerLoopIff(edges, components[region]);
        assert QuietAt(edges, components, plainComponents, n) <==> !HasInnerLoop(edges, components[region]);
        if HasInnerLoop(edges, components[region]) {
          var edge := LeastInnerPlainEdge(edges, members);
          InnerEdgeOnPlainCycle(ids, edges, plainComponents, n, edge);
          LeastIsNamed(edges, members, edge);
          diagnostics, at := diagnostics + [LoopNotBounded(edge.id)], at + [n];
        }
      }
    }
  }

  lemma LeastIsNamed(edges: seq<Edge>, members: seq<Id>, e: Edge)
    requires e in edges && !IsLoop(e) && Inside(e, members)
    requires forall f :: f in edges && !IsLoop(f) && Inside(f, members) ==> e.id <= f.id
    ensures NamesLeast(edges, members, LoopNotBounded(e.id))
  {
  }

  /** The finding names a plain edge on a cycle of plain edges. */
  ghost predicate OnPlainCycle(g: Outgoing, edges: seq<Edge>, x: Diagnostic) {
    exists e :: e in edges && !IsLoop(e) && x == LoopNotBounded(e.id) && Reach(PlainGraph(g), e.target, e.source)
  }

  lemma InnerEdgeOnPlainCycle(ids: set<Id>, edges: seq<Edge>, plainComponents: seq<seq<Id>>, n: nat, e: Edge)
    requires Connects(ids, edges) && AreComponents(PlainGraph(OutgoingOf(ids, edges)), plainComponents)
    requires n < |plainComponents| && e in edges && !IsLoop(e) && Inside(e, plainComponents[n])
    ensures OnPlainCycle(OutgoingOf(ids, edges), edges, LoopNotBounded(e.id))
  {
    var plain := PlainGraph(OutgoingOf(ids, edges));
    OutgoingWellFormed(ids, edges);
    PlainWellFormed(OutgoingOf(ids, edges));
    ComponentIsScc(plain, plainComponents, n);
    assert Mutual(plain, e.source, e.target);
  }

  lemma InsidePlainComponent(
    ids: set<Id>, edges: seq<Edge>, components: seq<seq<Id>>, plainComponents: seq<seq<Id>>, n: nat)
    requires Connects(ids, edges)
    requires AreComponents(OutgoingOf(ids, edges), components)
    requires AreComponents(PlainGraph(OutgoingOf(ids, edges)), plainComponents)
    requires n < |plainComponents| && |plainComponents[n]| > 1
    ensures Listed(components, plainComponents[n][0])
    ensures exists e :: e in edges && !IsLoop(e) && Inside(e, plainComponents[n])
  {
    var g := OutgoingOf(ids, edges);
    var members := plainComponents[n];
    OutgoingWellFormed(ids, edges);
    PlainWellFormed(g);
    ComponentIsScc(PlainGraph(g), plainComponents, n);
    assert InComponent(plainComponents, n, members[0]) && Listed(plainComponents, members[0]);
    InnerPlainEdgeExists(ids, edges, members, members[0], members[1]);
  }

  lemma OneRegion(g: Outgoing, components: seq<seq<Id>>, c: int, x: Id)
    requires AreComponents(g, components) && InComponent(components, c, x)
    ensures forall d :: InComponent(components, d, x) ==> d == c
  {
  }

  /** The `inCycle` test of a declared loop edge. */
  predicate InCycle(components: seq<seq<Id>>, e: Edge) {
    exists c :: 0 <= c < |components| && (|components[c]| > 1 || e.source == e.target) && Inside(e, components[c])
  }

  lemma InCycleMeansCyclic(g: Outgoing, components: seq<seq<Id>>, e: Edge)
    requires AreComponents(g, components) && e.source in g && e.target in g && HasEdge(g, e.source, e.target)
    ensures InCycle(components, e) <==> Reach(g, e.target, e.source)
  {
    ReachEdge(g, e.source, e.target);
    if InCycle(components, e) {
      var c :| 0 <= c < |components| && (|components[c]| > 1 || e.source == e.target) && Inside(e, components[c]);
      assert InComponent(components, c, e.source) && InComponent(components, c, e.target);
      assert SameComponent(components, e.source, e.target);
    }
    if Reach(g, e.target, e.source) {
      assert SameComponent(components, e.source, e.target);
      var c :| InComponent(components, c, e.source) && InComponent(components, c, e.target);
      assert Inside(e, components[c]);
    }
  }

  /** `WF_LOOP_EDGE_NOT_CYCLIC` */
  method LoopEdgesOffCycle(ghost ids: set<Id>, edges: seq<Edge>, components: seq<seq<Id>>)
    returns (diagnostics: seq<Diagnostic>)
    requires Connects(ids, edges) && AreComponents(OutgoingOf(ids, edges), components)
    ensures diagnostics == Reports(edges, OffCycle(OutgoingOf(ids, edges)), ReportOffCycle())
    ensures diagnostics == [] <==> LoopEdgesAreCyclic(OutgoingOf(ids, edges), edges)
  {
    ghost var g := OutgoingOf(ids, edges);
    diagnostics := [];
    NoReports(edges, OffCycle(g), ReportOffCycle());
    for n := 0 to |edges|
      invariant diagnostics == Reports(edges[..n], OffCycle(g), ReportOffCycle())
    {
      ReportsNext(edges, n, OffCycle(g), ReportOffCycle());
      var e := edges[n];
      assert e in edges;
      OutgoingEdge(ids, edges, e.source, e.target);
      InCycleMeansCyclic(g, components, e);
      if IsLoop(e) && !InCycle(components, e) {
        diagnostics := diagnostics + [LoopEdgeNotCyclic(e.id)];
      }
    }
    assert edges[..|edges|] == edges;
  }

  function ReportOffCycle(): Edge -> Diagnostic {
    (e: Edge) => LoopEdgeNotCyclic(e.id)
  }

  /** A declared loop edge from whose target its source cannot be reached. */
  ghost function OffCycle(g: Outgoing): Edge -> bool {
    (e: Edge) => IsLoop(e) && !Reach(g, e.target, e.source)
  }

  /** The components decide plain acyclicity: the first two diagnostics are both absent exactly
      when no plain cycle joins two nodes. */
  lemma ComponentsDecideCycles(
    ids: set<Id>, edges: seq<Edge>, components: seq<seq<Id>>, plainComponents: seq<seq<Id>>)
    requires Connects(ids, edges)
    requires AreComponents(OutgoingOf(ids, edges), components)
    requires AreComponents(PlainGraph(OutgoingOf(ids, edges)), plainComponents)
    ensures PlainCyclesAreSelfLoops(OutgoingOf(ids, edges)) <==>
            (forall c :: 0 <= c < |components| && |components[c]| > 1 ==> HasInnerLoop(edges, components[c])) &&
            (forall c :: 0 <= c < |plainComponents| ==> QuietAt(edges, components, plainComponents, c))
  {
    var g := OutgoingOf(ids, edges);
    OutgoingWellFormed(ids, edges);
    PlainWellFormed(g);
    if PlainCyclesAreSelfLoops(g) {
      forall c | 0 <= c < |components| && |components[c]| > 1
        ensures HasInnerLoop(edges, components[c])
      {
        DeclaredWhenPlainAcyclic(ids, edges, components, c);
      }
      forall c | 0 <= c < |plainComponents|
        ensures QuietAt(edges, components, plainComponents, c)
      {
        PlainComponentsAreSingle(g, plainComponents, c);
      }
    }
    if a, b :| a != b && HasEdge(PlainGraph(g), a, b) && Reach(PlainGraph(g), b, a) {
      PlainHasEdge(g, a, b);
      var c, d := PlainCycleIsReported(ids, edges, components, plainComponents, a, b);
      InnerLoopIff(edges, components[d]);
      assert QuietAt(edges, components, plainComponents, c) ==> !HasInnerLoop(edges, components[d]);
    }
  }

  lemma DeclaredWhenPlainAcyclic(ids: set<Id>, edges: seq<Edge>, components: seq<seq<Id>>, c: nat)
    requires Connects(ids, edges) && AreComponents(OutgoingOf(ids, edges), components)
    requires PlainCyclesAreSelfLoops(OutgoingOf(ids, edges))
    requires c < |components| && |components[c]| > 1
    ensures HasInnerLoop(edges, components[c])
  {
    var g := OutgoingOf(ids, edges);
    OutgoingWellFormed(ids, edges);
    ComponentIsScc(g, components, c);
    if !HasInnerLoop(edges, components[c]) {
      var a, b := components[c][0], components[c][1];
      UndeclaredComponentIsPlain(ids, edges, components[c], a, b);
      UndeclaredComponentIsPlain(ids, edges, components[c], b, a);
      var x := MutualPlainIsCycle(g, a, b);
    }
  }

  lemma PlainComponentsAreSingle(g: Outgoing, plainComponents: seq<seq<Id>>, c: nat)
    requires WellFormed(PlainGraph(g)) && AreComponents(PlainGraph(g), plainComponents)
    requires PlainCyclesAreSelfLoops(g) && c < |plainComponents|
    ensures |plainComponents[c]| <= 1
  {
    ComponentIsScc(PlainGraph(g), plainComponents, c);
    if |plainComponents[c]| > 1 {
      var x := MutualPlainIsCycle(g, plainComponents[c][0], plainComponents[c][1]);
    }
  }

  lemma PlainCycleIsReported(
    ids: set<Id>, edges: seq<Edge>, components: seq<seq<Id>>, plainComponents: seq<seq<Id>>, a: Id, b: Id)
    returns (c: int, d: int)
    requires Connects(ids, edges)
    requires AreComponents(OutgoingOf(ids, edges), components)
    requires AreComponents(PlainGraph(OutgoingOf(ids, edges)), plainComponents)
    requires a != b && HasEdge(PlainGraph(OutgoingOf(ids, edges)), a, b)
    requires HasEdge(OutgoingOf(ids, edges), a, b)
    requires Reach(PlainGraph(OutgoingOf(ids, edges)), b, a)
    ensures 0 <= c < |plainComponents| && |plainComponents[c]| > 1
    ensures InComponent(components, d, plainComponents[c][0]) && |components[d]| > 1
  {
    hide *;
    var g := OutgoingOf(ids, edges);
    var plain := PlainGraph(g);
    OutgoingWellFormed(ids, edges);
    PlainWellFormed(g);
    ReachEdge(plain, a, b);
    c := SharedComponent(plain, plainComponents, a, b);
    var r := plainComponents[c][0];
    MutualOfMembers(plain, plainComponents, c, a, r);
    PlainReachIsReach(g, a, b);
    PlainReachIsReach(g, b, a);
    PlainReachIsReach(g, a, r);
    PlainReachIsReach(g, r, a);
    d := SharedComponent(g, components, a, b);
    MutualMember(g, components, d, a, r);
  }

  lemma SharedComponent(g: Outgoing, components: seq<seq<Id>>, a: Id, b: Id) returns (c: int)
    requires WellFormed(g) && AreComponents(g, components) && HasEdge(g, a, b)
    requires a != b && Reach(g, a, b) && Reach(g, b, a)
    ensures 0 <= c < |components| && |components[c]| > 1
    ensures a in components[c] && b in components[c]
  {
    assert a in g && b in g;
    assert SameComponent(components, a, b);
    c :| InComponent(components, c, a) && InComponent(components, c, b);
    TwoMembers(components[c], a, b);
  }

  lemma MutualOfMembers(g: Outgoing, components: seq<seq<Id>>, c: int, a: Id, b: Id)
    requires WellFormed(g) && AreComponents(g, components)
    requires 0 <= c < |components| && a in components[c] && b in components[c]
    ensures Reach(g, a, b) && Reach(g, b, a)
  {
    ComponentIsScc(g, components, c);
    assert Mutual(g, a, b);
  }

  lemma MutualMember(g: Outgoing, components: seq<seq<Id>>, c: int, a: Id, b: Id)
    requires WellFormed(g) && AreComponents(g, components)
    requires 0 <= c < |components| && a in components[c] && Reach(g, a, b) && Reach(g, b, a)
    ensures InComponent(components, c, b)
  {
    ComponentIsScc(g, components, c);
    assert Mutual(g, a, b);
  }

  lemma TwoMembers(s: seq<Id>, a: Id, b: Id)
    requires a in s && b in s && a != b
    ensures |s| > 1
  {
  }

  /** The whole block: no diagnostics exactly when the loop rules hold. */
  method CheckLoops(nodeIds: seq<Id>, edges: seq<Edge>, outgoing: Outgoing) returns (diagnostics: seq<Diagnostic>)
    requires Connects(Elements(nodeIds), edges) && outgoing == OutgoingOf(Elements(nodeIds), edges)
    ensures diagnostics == [] <==> PlainCyclesAreSelfLoops(outgoing) && LoopEdgesAreCyclic(outgoing, edges)
  {
    ghost var ids := Elements(nodeIds);
    OutgoingWellFormed(ids, edges);
    PlainWellFormed(outgoing);
    var components := StronglyConnectedComponents(nodeIds, outgoing);
    NonEmptyComponents(outgoing, components);
    hide *;
    var undeclared := UndeclaredLoops(components, edges);
    var plainComponents := components;
    var unbounded := [];
    if exists i :: 0 <= i < |edges| && IsLoop(edges[i]) {
      plainComponents := StronglyConnectedComponents(nodeIds, PlainGraph(outgoing));
      ghost var at;
      unbounded, at := UnboundedLoops(ids, edges, components, plainComponents);
    } else {
      NoLoopsMeansPlain(ids, edges);
      NoLoopsMeansQuiet(edges, components);
    }
    ComponentsDecideCycles(ids, edges, components, plainComponents);
    var offCycle := LoopEdgesOffCycle(ids, edges, components);
    diagnostics := undeclared + unbounded + offCycle;
  }

  lemma NonEmptyComponents(g: Outgoing, components: seq<seq<Id>>)
    requires AreComponents(g, components)
    ensures forall c :: 0 <= c < |components| ==> components[c] != []
  {
  }

  lemma NoLoopsMeansQuiet(edges: seq<Edge>, components: seq<seq<Id>>)
    requires forall i :: 0 <= i < |edges| ==> !IsLoop(edges[i])
    ensures forall c :: 0 <= c < |components| ==> QuietAt(edges, components, components, c)
  {
  }

  lemma NoLoopsMeansPlain(ids: set<Id>, edges: seq<Edge>)
    requires forall i :: 0 <= i < |edges| ==> !IsLoop(edges[i])
    ensures PlainGraph(OutgoingOf(ids, edges)) == OutgoingOf(ids, edges)
  {
    forall a | a in ids
      ensures WithoutLoops(EdgesFrom(edges, a)) == EdgesFrom(edges, a)
    {
      FilterMembers(edges, LeavesNode(a));
      WithoutLoopsIdentity(EdgesFrom(edges, a));
    }
  }

  lemma {:induction false} WithoutLoopsIdentity(edges: seq<Edge>)
    requires forall e :: e in edges ==> !IsLoop(e)
    ensures WithoutLoops(edges) == edges
  {
    if edges != [] {
      WithoutLoopsIdentity(edges[1..]);
      assert edges[0] in edges;
    }
  }
}
