/** Which cycles of a definition cost a traversal when the engine goes round them, and the order that
    runs follow when all of them do. */
module CountedCycles {
  import opened Workflow
  import opened Graphs
  import opened PathChecks
  import opened Sorting
  import opened Topology
  import opened Compiler
  import R = LoopRun

  ghost predicate Layout(d: Definition, order: seq<Id>) {
    Connects(IdSet(d.nodes), d.edges) && IsTopological(GraphOf(d), order) && DistinctKeys(d.edges, EdgeId())
  }

  /** The definition as the engine counts it: a copied edge counts no traversal. */
  function Uncounted(d: Definition, copied: set<Id>): Definition {
    d.(edges := UncountedEdges(d.edges, copied))
  }

  function UncountedEdges(edges: seq<Edge>, copied: set<Id>): (r: seq<Edge>)
    ensures |r| == |edges|
    ensures forall i :: 0 <= i < |r| ==> r[i] == if edges[i].id in copied then edges[i].(loop := None) else edges[i]
  {
    seq(|edges|, i requires 0 <= i < |edges| => if edges[i].id in copied then edges[i].(loop := None) else edges[i])
  }

  /** Every cycle crosses a declared loop edge that is counted.  This can be checked on the definition
      and the configuration of its tasks. */
  ghost predicate CyclesCounted(d: Definition, copied: set<Id>) {
    PlainAcyclic(GraphOf(Uncounted(d, copied)))
  }

  lemma UncountedEdge(d: Definition, copied: set<Id>, a: Id, b: Id)
    ensures HasEdge(PlainGraph(GraphOf(Uncounted(d, copied))), a, b) <==>
            a in IdSet(d.nodes) &&
            exists e :: e in d.edges && (!IsLoop(e) || e.id in copied) && e.source == a && e.target == b
  {
    var edges := UncountedEdges(d.edges, copied);
    PlainOutgoingEdge(IdSet(d.nodes), edges, a, b);
    if e :| e in d.edges && (!IsLoop(e) || e.id in copied) && e.source == a && e.target == b {
      var i :| 0 <= i < |d.edges| && d.edges[i] == e;
      assert edges[i] in edges;
    }
    if e :| e in edges && !IsLoop(e) && e.source == a && e.target == b {
      var i :| 0 <= i < |edges| && edges[i] == e;
      assert d.edges[i] in d.edges;
    }
  }

  /** If no automatically executed task leaves through a declared loop, acceptance suffices. */
  lemma NoLoopCopied(d: Definition, data: bool, copied: set<Id>)
    requires Accepted(d, data) && forall e :: e in d.edges && e.id in copied ==> !IsLoop(e)
    ensures CyclesCounted(d, copied)
  {
    forall i | 0 <= i < |d.edges|
      ensures UncountedEdges(d.edges, copied)[i] == d.edges[i]
    {
      assert d.edges[i] in d.edges;
    }
    assert UncountedEdges(d.edges, copied) == d.edges;
  }

  /** An order in which every edge that counts nothing points forward. */
  lemma CountedLayout(d: Definition, data: bool, copied: set<Id>) returns (order: seq<Id>)
    requires EdgesOk(IdSet(d.nodes), data, d.edges) && CyclesCounted(d, copied)
    ensures Layout(d, order) && R.CopiesForward(d.edges, copied, order)
  {
    var g := GraphOf(Uncounted(d, copied));
    AcceptedConnects(d, data);
    UncountedConnects(d, copied);
    OutgoingWellFormed(IdSet(d.nodes), UncountedEdges(d.edges, copied));
    order := SomeTopological(g);
    LayoutOf(d, copied, order);
  }

  lemma UncountedConnects(d: Definition, copied: set<Id>)
    requires Connects(IdSet(d.nodes), d.edges)
    ensures Connects(IdSet(d.nodes), UncountedEdges(d.edges, copied))
  {
    forall e | e in UncountedEdges(d.edges, copied)
      ensures e.source in IdSet(d.nodes) && e.target in IdSet(d.nodes)
    {
      var i :| 0 <= i < |d.edges| && UncountedEdges(d.edges, copied)[i] == e;
      assert d.edges[i] in d.edges;
    }
  }

  lemma LayoutOf(d: Definition, copied: set<Id>, order: seq<Id>)
    requires Connects(IdSet(d.nodes), d.edges) && DistinctKeys(d.edges, EdgeId())
    requires IsTopological(GraphOf(Uncounted(d, copied)), order)
    ensures Layout(d, order) && R.CopiesForward(d.edges, copied, order)
  {
    var ids := IdSet(d.nodes);
    assert GraphOf(d).Keys == GraphOf(Uncounted(d, copied)).Keys == ids;
    forall i, j | 0 <= i < |order| && 0 <= j < |order| && HasEdge(PlainGraph(GraphOf(d)), order[i], order[j])
      ensures i < j
    {
      PlainOutgoingEdge(ids, d.edges, order[i], order[j]);
      UncountedEdge(d, copied, order[i], order[j]);
    }
    forall e | e in d.edges && e.id in copied
      ensures e.source in order && e.target in order && R.Position(order, e.source) < R.Position(order, e.target)
    {
      assert e.source in Elements(order) && e.target in Elements(order);
      UncountedEdge(d, copied, e.source, e.target);
      assert HasEdge(PlainGraph(GraphOf(Uncounted(d, copied))),
                     order[R.Position(order, e.source)], order[R.Position(order, e.target)]);
    }
  }
}
