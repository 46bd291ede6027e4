/** A definition that the compiler accepts and whose declared loop the engine does not count: a
    router, a task that is executed automatically, and the bounded return from the task. */
module AutomaticLoop {
  import opened Workflow
  import opened Graphs
  import opened PathChecks
  import opened Sorting
  import opened Topology
  import opened Compiler
  import opened CountedCycles
  import opened Executions
  import opened RepeatedVisits
  import LoopChecks

  /** The return edge, which the task queues its successor along. */
  const RETURN: Id := 13

  function Step(id: Id, kind: NodeKind): Node {
    Node(id, kind, false, 0, 0, "")
  }

  function Nodes(): seq<Node> {
    [Step(1, NodeKind.Start), Step(2, Router), Step(3, Activity("operate")), Step(4, End)]
  }

  /** `there` says whether the way to the task is a declared loop edge, too. */
  function Edges(there: Option<int>): seq<Edge> {
    [Edge(11, 1, "default", 2, None), Edge(12, 2, "task", 3, there), Edge(RETURN, 3, "default", 2, Some(1)),
     Edge(14, 2, "default", 4, None)]
  }

  function Example(there: Option<int>): Definition {
    Definition(Nodes(), Edges(there))
  }

  ghost predicate Allowed(there: Option<int>) {
    there.Some? ==> there.value == 1
  }

  lemma ExampleIds()
    ensures forall x :: x in IdSet(Nodes()) <==> x == 1 || x == 2 || x == 3 || x == 4
  {
    assert Ids(Nodes()) == [1, 2, 3, 4];
    assert forall x :: x in [1, 2, 3, 4] <==> x == 1 || x == 2 || x == 3 || x == 4;
  }

  lemma ExampleEdges(there: Option<int>)
    ensures forall e :: e in Edges(there) <==>
                          e == Edges(there)[0] || e == Edges(there)[1] || e == Edges(there)[2] || e == Edges(there)[3]
  {
  }

  lemma ExampleGraph(there: Option<int>, a: Id, b: Id)
    ensures HasEdge(GraphOf(Example(there)), a, b) <==> (a, b) in {(1, 2), (2, 3), (3, 2), (2, 4)}
    ensures HasEdge(PlainGraph(GraphOf(Example(there))), a, b) <==>
            (a, b) in {(1, 2), (2, 4)} || (there.None? && (a, b) == (2, 3))
    ensures HasEdge(PlainGraph(GraphOf(Uncounted(Example(there), {RETURN}))), a, b) <==>
            (a, b) in {(1, 2), (3, 2), (2, 4)} || (there.None? && (a, b) == (2, 3))
  {
    ExampleIds();
    EdgesBetween(there, a, b);
    hide Nodes, Edges, Uncounted, IdSet, HasEdge, PlainGraph, OutgoingOf, IsLoop;
    OutgoingEdge(IdSet(Nodes()), Edges(there), a, b);
    PlainOutgoingEdge(IdSet(Nodes()), Edges(there), a, b);
    UncountedEdge(Example(there), {RETURN}, a, b);
  }

  lemma EdgesBetween(there: Option<int>, a: Id, b: Id)
    ensures (exists e :: e in Edges(there) && e.source == a && e.target == b) <==> (a, b) in {(1, 2), (2, 3), (3, 2), (2, 4)}
    ensures (exists e :: e in Edges(there) && !IsLoop(e) && e.source == a && e.target == b) <==>
            (a, b) in {(1, 2), (2, 4)} || (there.None? && (a, b) == (2, 3))
    ensures (exists e :: e in Edges(there) && (!IsLoop(e) || e.id in {RETURN}) && e.source == a && e.target == b) <==>
            (a, b) in {(1, 2), (3, 2), (2, 4)} || (there.None? && (a, b) == (2, 3))
  {
    ExampleEdges(there);
    var e := Edges(there);
    assert e[0] in e && e[1] in e && e[2] in e && e[3] in e;
  }

  lemma ExampleLists(there: Option<int>)
    requires Allowed(there)
    ensures NodesOk(Nodes()) && EdgesOk(IdSet(Nodes()), false, Edges(there))
  {
    ExampleIds();
    assert forall i, j :: 0 <= i < j < 4 ==> NodeId()(Nodes()[i]) != NodeId()(Nodes()[j]);
    assert forall i, j :: 0 <= i < j < 4 ==> EdgeId()(Edges(there)[i]) != EdgeId()(Edges(there)[j]);
    forall i | 0 <= i < 4
      ensures EdgeOk(IdSet(Nodes()), false, Edges(there)[i])
    {
    }
  }

  lemma ExampleKinds(there: Option<int>)
    ensures Filter(Nodes(), StartNode()) == [Nodes()[0]] && Filter(Nodes(), EndNode()) == [Nodes()[3]]
    ensures Terminals(Example(there), false) == [Nodes()[3]]
    ensures EdgesFrom(Edges(there), 1) != [] && EdgesFrom(Edges(there), 4) == []
  {
    var n := Nodes();
    assert n[1..] == [n[1], n[2], n[3]] && n[1..][1..] == [n[2], n[3]] && n[1..][1..][1..] == [n[3]];
    assert n[1..][1..][1..][1..] == [];
    var e := Edges(there);
    assert e[1..] == [e[1], e[2], e[3]] && e[1..][1..] == [e[2], e[3]] && e[1..][1..][1..] == [e[3]];
    assert e[1..][1..][1..][1..] == [];
    assert Filter(n[1..][1..][1..], StartNode()) == [] && Filter(n[1..][1..][1..], EndNode()) == [n[3]];
    assert Filter(n[1..][1..][1..], TerminalNode(false, e)) == [n[3]];
    assert Filter(n[1..][1..], StartNode()) == [] && Filter(n[1..][1..], EndNode()) == [n[3]];
    assert Filter(n[1..][1..], TerminalNode(false, e)) == [n[3]];
    assert Filter(n[1..], StartNode()) == [] && Filter(n[1..], EndNode()) == [n[3]];
    assert Filter(n[1..], TerminalNode(false, e)) == [n[3]];
    assert Filter(e[1..][1..][1..], LeavesNode(4)) == [] && Filter(e[1..][1..], LeavesNode(4)) == [];
    assert Filter(e[1..], LeavesNode(4)) == [];
  }

  lemma ExampleReach(there: Option<int>)
    ensures var g := GraphOf(Example(there));
            && Reach(g, 2, 3) && Reach(g, 3, 2)
            && Reach(g, 1, 1) && Reach(g, 1, 2) && Reach(g, 1, 3) && Reach(g, 1, 4)
            && Reach(g, 2, 4) && Reach(g, 3, 4) && Reach(g, 4, 4)
  {
    hide Reach, GraphOf, Example, HasEdge;
    var g := GraphOf(Example(there));
    ExampleGraph(there, 1, 2);
    ExampleGraph(there, 2, 3);
    ExampleGraph(there, 3, 2);
    ExampleGraph(there, 2, 4);
    ReachEdge(g, 1, 2);
    ReachEdge(g, 2, 3);
    ReachEdge(g, 3, 2);
    ReachEdge(g, 2, 4);
    ReachSelf(g, 1);
    ReachSelf(g, 4);
    ReachTrans(g, 1, 2, 3);
    ReachTrans(g, 1, 2, 4);
    ReachTrans(g, 3, 2, 4);
  }

  lemma ExampleNodes()
    ensures forall n :: n in Nodes() <==> n == Nodes()[0] || n == Nodes()[1] || n == Nodes()[2] || n == Nodes()[3]
  {
  }

  lemma ExampleRoute(there: Option<int>, n: Node)
    requires n in Nodes()
    ensures OnRoute(Example(there), false, GraphOf(Example(there)), n)
  {
    hide Reach, GraphOf, Terminals, EdgesFrom;
    var s, t := Nodes()[0], Nodes()[3];
    ExampleKinds(there);
    ExampleReach(there);
    ExampleNodes();
    assert s in Nodes() && StartNode()(s) && t in Terminals(Example(there), false);
  }

  lemma ExampleRoutes(there: Option<int>)
    ensures ReachOk(Example(there), false, GraphOf(Example(there)))
  {
    hide GraphOf, OnRoute, Nodes;
    forall n | n in Nodes()
      ensures OnRoute(Example(there), false, GraphOf(Example(there)), n)
    {
      ExampleRoute(there, n);
    }
  }

  lemma ExampleKeys(there: Option<int>)
    ensures forall x :: x in GraphOf(Example(there)) <==> x == 1 || x == 2 || x == 3 || x == 4
    ensures forall x :: x in GraphOf(Uncounted(Example(there), {RETURN})) <==> x == 1 || x == 2 || x == 3 || x == 4
  {
    ExampleIds();
  }

  lemma ExampleOrder(there: Option<int>)
    ensures IsTopological(GraphOf(Example(there)), [1, 2, 3, 4])
  {
    hide GraphOf, PlainGraph, HasEdge;
    var g, p := GraphOf(Example(there)), [1, 2, 3, 4];
    ExampleKeys(there);
    forall x
      ensures x in Elements(p) <==> x in g.Keys
    {
    }
    forall i, j | 0 <= i < 4 && 0 <= j < 4 && HasEdge(PlainGraph(g), p[i], p[j])
      ensures i < j
    {
      ExampleGraph(there, p[i], p[j]);
    }
  }

  lemma CountedOrder(there: Option<int>)
    requires there.Some?
    ensures IsTopological(GraphOf(Uncounted(Example(there), {RETURN})), [1, 3, 2, 4])
  {
    hide GraphOf, Uncounted, PlainGraph, HasEdge;
    var g, p := GraphOf(Uncounted(Example(there), {RETURN})), [1, 3, 2, 4];
    ExampleKeys(there);
    forall x
      ensures x in Elements(p) <==> x in g.Keys
    {
    }
    forall i, j | 0 <= i < 4 && 0 <= j < 4 && HasEdge(PlainGraph(g), p[i], p[j])
      ensures i < j
    {
      ExampleGraph(there, p[i], p[j]);
    }
  }

  lemma ExampleLoops(there: Option<int>)
    ensures LoopChecks.LoopEdgesAreCyclic(GraphOf(Example(there)), Edges(there))
  {
    hide Reach, GraphOf;
    ExampleReach(there);
    ExampleEdges(there);
  }

  lemma ExampleEnds(there: Option<int>)
    ensures CardinalityOk(Example(there), false) && EndsOk(Example(there)) && ForksOk(Example(there), GraphOf(Example(there)))
    ensures forall n :: n in Nodes() && StartNode()(n) ==> StartOk(Example(there), n.id)
  {
    hide GraphOf, ForkOk, Terminals, EdgesFrom;
    ExampleKinds(there);
    ExampleNodes();
    ExampleEdges(there);
    assert forall e :: e in Edges(there) ==> e.target != 1;
    assert forall n :: n in Nodes() && StartNode()(n) ==> n.id == 1;
    assert forall n :: n in Nodes() && EndNode()(n) ==> n.id == 4;
    assert forall n :: n in Nodes() ==> !IsFork(n);
  }

  lemma ExampleAccepted(there: Option<int>)
    requires Allowed(there)
    ensures Accepted(Example(there), false)
  {
    var d, g := Example(there), GraphOf(Example(there));
    ExampleLists(there);
    ExampleKinds(there);
    ExampleRoutes(there);
    ExampleLoops(there);
    ExampleOrder(there);
    AcceptedConnects(d, false);
    OutgoingWellFormed(IdSet(d.nodes), d.edges);
    TopologicalIsAcyclic(g, [1, 2, 3, 4]);
    ExampleEnds(there);
    hide NodesOk, EdgesOk, GraphOf, ReachOk, PlainAcyclic, LoopChecks.LoopEdgesAreCyclic, StartOk, EndsOk, ForksOk, Example;
  }

  /** Copying the cursor along the return leaves the cycle uncounted, unless the way to the task is
      counted: whether a copied loop edge does harm depends on the cycles through it. */
  lemma ExampleCountedIff(there: Option<int>)
    requires Allowed(there)
    ensures CyclesCounted(Example(there), {RETURN}) <==> there.Some?
  {
    var d, g := Example(there), GraphOf(Uncounted(Example(there), {RETURN}));
    if there.Some? {
      CountedOrder(there);
      ExampleLists(there);
      AcceptedConnects(d, false);
      UncountedConnects(d, {RETURN});
      OutgoingWellFormed(IdSet(d.nodes), UncountedEdges(d.edges, {RETURN}));
      TopologicalIsAcyclic(g, [1, 3, 2, 4]);
    } else {
      ExampleGraph(there, 2, 3);
      ExampleGraph(there, 3, 2);
      ReachEdge(PlainGraph(g), 3, 2);
    }
  }

  /** The router is taken up again on the same path with the same cursor, as often as the execution is
      resumed, although the return is bounded by one iteration. */
  lemma AutomaticLoopRepeats(n: nat)
    ensures Accepted(Example(None), false)
    ensures exists run: seq<Execution> :: run != [] && IsExecution(Example(None), {RETURN}, true, run) && NeverForks(run) &&
                          |run[|run| - 1].taken| > n && !HeadNew(run[|run| - 1])
  {
    ExampleAccepted(None);
    ExampleCountedIff(None);
    hide Accepted, CyclesCounted, Example, IsExecution;
    var run := UncountedRepeats(Example(None), false, {RETURN}, n);
  }
}
