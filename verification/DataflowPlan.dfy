/** From the compiler to the executor: the execution plan of an accepted data flow, as
    `runDataflowDefinition` reads it. */
module DataflowPlan {
  import opened Workflow
  import opened Graphs
  import opened Topology
  import P = PathChecks
  import C = Compiler
  import E = DataflowExecutor

  /** `incoming`: the sources of a node's edges, in edge order. */
  function Parents(edges: seq<Edge>, node: Id): seq<Id> {
    if edges == [] then [] else (if edges[0].target == node then [edges[0].source] else []) + Parents(edges[1..], node)
  }

  lemma {:induction false} ParentIsSource(edges: seq<Edge>, node: Id, i: nat)
    requires i < |Parents(edges, node)|
    ensures exists e :: e in edges && e.source == Parents(edges, node)[i] && e.target == node
  {
    var here := if edges[0].target == node then 1 else 0;
    if i < here {
      assert edges[0] in edges;
    } else {
      ParentIsSource(edges[1..], node, i - here);
      var e :| e in edges[1..] && e.source == Parents(edges[1..], node)[i - here] && e.target == node;
      assert e in edges;
    }
  }

  /** One parent per edge into the node, in edge order. */
  lemma {:induction false} ParentsAreSources(edges: seq<Edge>, node: Id)
    ensures var into := Filter(edges, C.EntersNode(node));
            |Parents(edges, node)| == |into| && forall i :: 0 <= i < |into| ==> Parents(edges, node)[i] == into[i].source
  {
    if edges != [] {
      ParentsAreSources(edges[1..], node);
    }
  }

  /** The plan's own incoming map lists the edges that the parents come from. */
  lemma ParentsAreIncoming(d: C.Definition, plan: C.Plan, node: Id)
    requires C.IsPlan(d, true, plan) && node in plan.incoming
    ensures var into := plan.incoming[node];
            |Parents(plan.edges, node)| == |into| &&
            forall i :: 0 <= i < |into| ==> Parents(plan.edges, node)[i] == into[i].source && into[i].target == node
  {
    C.PlanFields(d, true, plan);
    ParentsAreSources(plan.edges, node);
    FilterMembers(plan.edges, C.EntersNode(node));
    hide C.IsPlan, Parents, Filter;
    var into := plan.incoming[node];
    assert forall i :: 0 <= i < |into| ==> into[i] in into;
  }

  function IncomingOf(nodes: seq<Node>, edges: seq<Edge>): map<Id, seq<Id>> {
    map n | n in C.Ids(nodes) :: Parents(edges, n)
  }

  /** The plan the executor works from: order and edges as compiled, whatever the nodes compute. */
  ghost predicate Executes(plan: C.Plan, e: E.Plan) {
    plan.order == Some(e.order) && e.incoming == IncomingOf(plan.nodes, plan.edges)
  }

  /** All inputs that are there, in order, when every parent is there. */
  lemma {:induction false} InputsComplete(parents: seq<Id>, outputs: map<Id, E.Output>)
    requires forall i :: 0 <= i < |parents| ==> parents[i] in outputs
    ensures |E.Inputs(parents, outputs)| == |parents|
    ensures forall i :: 0 <= i < |parents| ==> E.Inputs(parents, outputs)[i] == outputs[parents[i]]
  {
    if parents != [] {
      InputsComplete(parents[1..], outputs);
    }
  }

  /** The emitted order also suits the normalised definition, whose edges the plan carries. */
  lemma NormalOrder(d: C.Definition, plan: C.Plan)
    requires C.Accepted(d, true) && C.IsPlan(d, true, plan)
    ensures var n := C.Normalize(d);
            C.Accepted(n, true) && plan.edges == n.edges && plan.order.Some? && IsTopological(C.GraphOf(n), plan.order.value)
  {
    hide C.Accepted, IsTopological, C.GraphOf;
    C.NormalizePermutes(d);
    C.AcceptedPermutation(d, C.Normalize(d), true);
    C.SameMultisetGraph(d, C.Normalize(d));
    C.PlanOrder(d, true, plan);
    C.SameShapeTopological(C.GraphOf(d), C.GraphOf(C.Normalize(d)), plan.order.value);
  }

  /** An edge of a data flow is plain and so points forward. */
  lemma EdgePointsForward(n: C.Definition, order: seq<Id>, e: Edge, k: nat)
    requires C.Accepted(n, true) && IsTopological(C.GraphOf(n), order)
    requires e in n.edges && k < |order| && order[k] == e.target
    ensures e.source in order[..k]
  {
    var j :| 0 <= j < |n.edges| && n.edges[j] == e;
    assert C.EdgeOk(C.IdSet(n.nodes), true, n.edges[j]);
    C.AcceptedConnects(n, true);
    hide C.Accepted;
    PlainOutgoingEdge(C.IdSet(n.nodes), n.edges, e.source, e.target);
    assert HasEdge(P.PlainGraph(C.GraphOf(n)), e.source, e.target);
    assert e.source in C.GraphOf(n).Keys;
    hide HasEdge, C.GraphOf, P.PlainGraph;
    assert e.source in Elements(order);
    var p :| 0 <= p < |order| && order[p] == e.source;
    assert order[..k + 1][k] == order[k];
    assert p < k ==> order[..k][p] == e.source;
  }

  /** The parents of a node stand before it in the emitted order. */
  lemma ParentsComeFirst(d: C.Definition, plan: C.Plan, k: nat, i: nat)
    requires C.Accepted(d, true) && C.IsPlan(d, true, plan)
    requires plan.order.Some? && k < |plan.order.value| && i < |Parents(plan.edges, plan.order.value[k])|
    ensures Parents(plan.edges, plan.order.value[k])[i] in plan.order.value[..k]
  {
    hide *;
    NormalOrder(d, plan);
    ParentIsSource(plan.edges, plan.order.value[k], i);
    var e :| e in plan.edges && e.source == Parents(plan.edges, plan.order.value[k])[i] && e.target == plan.order.value[k];
    EdgePointsForward(C.Normalize(d), plan.order.value, e, k);
  }

  /** No node of an accepted data flow runs on missing inputs: at its turn it gets one input per
      incoming edge, each the final output of that edge's source. */
  lemma EveryInputIsFinal(d: C.Definition, plan: C.Plan, e: E.Plan, k: nat)
    requires C.Accepted(d, true) && C.IsPlan(d, true, plan) && Executes(plan, e) && k < |e.order|
    ensures var parents := Parents(plan.edges, e.order[k]);
            var inputs := E.Inputs(parents, E.Evaluated(e, k));
            |inputs| == |parents| && forall i :: 0 <= i < |parents| ==>
              parents[i] in E.Evaluated(e, |e.order|) && inputs[i] == E.Evaluated(e, |e.order|)[parents[i]]
  {
    var parents := Parents(plan.edges, e.order[k]);
    OrderCountsNodes(d, plan);
    hide C.Accepted, C.IsPlan, Parents, E.Inputs, E.Evaluated;
    E.EvaluatedKeys(e, k);
    E.EvaluatedStable(e, k, |e.order|);
    forall i | 0 <= i < |parents| ensures parents[i] in E.Evaluated(e, k) { ParentsComeFirst(d, plan, k, i); }
    InputsComplete(parents, E.Evaluated(e, k));
  }

  /** End to end: once a run of a compiled data flow succeeds, under whatever interleaving, every node
      has exactly one artifact, and its content is what the node computes from the artifacts of its
      parents. */
  lemma SuccessfulRunIsConsistent(d: C.Definition, plan: C.Plan, e: E.Plan, s: E.System, actions: seq<E.Action>, k: nat)
    requires C.Accepted(d, true) && C.IsPlan(d, true, plan) && Executes(plan, e) && E.Admitted(e, s)
    requires E.Run(e, s, actions).store.run == E.Success && k < |e.order|
    ensures e.order[k] in plan.incoming
    ensures var artifacts := E.Run(e, s, actions).store.artifacts;
            var parents := plan.incoming[e.order[k]];
            && |artifacts| == |e.order| == |d.nodes|
            && artifacts[k].node == e.order[k]
            && exists inputs ::
                 && |inputs| == |parents|
                 && (forall i :: 0 <= i < |parents| ==> E.Artifact(parents[i].source, inputs[i]) in artifacts)
                 && artifacts[k].output == e.compute(e.order[k], inputs, E.Evaluated(e, k))
  {
    var artifacts := E.Run(e, s, actions).store.artifacts;
    var n := |e.order|;
    var parents := Parents(plan.edges, e.order[k]);
    E.SuccessIsOneEvaluation(e, s, actions);
    EveryInputIsFinal(d, plan, e, k);
    NodeHasIncoming(d, plan, e, k);
    ParentsAreIncoming(d, plan, e.order[k]);
    OrderCountsNodes(d, plan);
    ComputedFromInputs(d, plan, e, k);
    hide C.Accepted, C.IsPlan, Executes, Parents, E.Admitted, E.Run, E.Inputs, E.Evaluated, E.NodeOutput;
    var inputs := E.Inputs(parents, E.Evaluated(e, k));
    forall i | 0 <= i < |parents|
      ensures E.Artifact(parents[i], inputs[i]) in artifacts
    {
      ParentsComeFirst(d, plan, k, i);
      var j :| 0 <= j < k && e.order[..k][j] == parents[i];
      assert artifacts[j] == E.Artifact(e.order[j], E.Evaluated(e, n)[e.order[j]]);
    }
  }

  /** What a node's artifact holds. */
  lemma ComputedFromInputs(d: C.Definition, plan: C.Plan, e: E.Plan, k: nat)
    requires C.Accepted(d, true) && C.IsPlan(d, true, plan) && Executes(plan, e) && k < |e.order|
    ensures e.order[k] in E.Evaluated(e, |e.order|)
    ensures E.Evaluated(e, |e.order|)[e.order[k]] ==
            e.compute(e.order[k], E.Inputs(Parents(plan.edges, e.order[k]), E.Evaluated(e, k)), E.Evaluated(e, k))
  {
    NodeHasParents(d, plan, e, k);
    hide C.Accepted, C.IsPlan, Parents, E.Inputs;
    E.EvaluatedStable(e, k + 1, |e.order|);
  }

  lemma NodeHasParents(d: C.Definition, plan: C.Plan, e: E.Plan, k: nat)
    requires C.Accepted(d, true) && C.IsPlan(d, true, plan) && Executes(plan, e) && k < |e.order|
    ensures e.order[k] in e.incoming && e.incoming[e.order[k]] == Parents(plan.edges, e.order[k])
  {
    var n := C.Normalize(d);
    C.NormalizePermutes(d);
    C.SameMultisetGraph(d, n);
    C.PlanOrder(d, true, plan);
    assert e.order[k] in Elements(e.order);
    assert e.order[k] in C.IdSet(n.nodes);
  }

  lemma NodeHasIncoming(d: C.Definition, plan: C.Plan, e: E.Plan, k: nat)
    requires C.Accepted(d, true) && C.IsPlan(d, true, plan) && Executes(plan, e) && k < |e.order|
    ensures e.order[k] in plan.incoming
  {
    NodeHasParents(d, plan, e, k);
    C.PlanFields(d, true, plan);
    hide C.Accepted, C.IsPlan, C.Normalize, Parents;
  }

  lemma OrderCountsNodes(d: C.Definition, plan: C.Plan)
    requires C.Accepted(d, true) && C.IsPlan(d, true, plan)
    ensures plan.order.Some? && Distinct(plan.order.value) && |plan.order.value| == |d.nodes|
  {
    C.PlanOrder(d, true, plan);
    C.DistinctIdsAreDistinct(d.nodes);
    SameSize(plan.order.value, C.Ids(d.nodes));
  }
}
