/** `analyzeWorkflowDefinition`: when a definition is accepted, and the plan that is emitted. */
module Compiler {
  import opened Workflow
  import opened Graphs
  import opened PathChecks
  import opened Sorting
  import opened Topology
  import LoopChecks

  datatype Definition = Definition(nodes: seq<Node>, edges: seq<Edge>)

  datatype Diagnostic =
    | NodeInvalid(node: Id)
    | NodeIdDuplicate(node: Id)
    | EdgeDangling(edge: Id)
    | EdgeIdDuplicate(edge: Id)
    | EdgeSelfLoop(edge: Id)
    | EdgeDuplicate(edge: Id)
    | DataflowLoopUnsupported(edge: Id)
    | LoopLimitInvalid(edge: Id)
    | StartEndCardinality
    | DataTerminalRequired
    | StartHasIncoming(node: Id)
    | EndHasOutgoing(node: Id)
    | StartNoOutgoing(node: Id)
    | NodeUnreachable(node: Id)
    | NodeCannotReachEnd(node: Id)
    | ParallelBranchesRequired(node: Id)
    | ParallelJoinRequired(node: Id)
    | ParallelJoinMismatch(node: Id)
    | ParallelJoinInputsRequired(node: Id)
    | ParallelBranchMissesJoin(edge: Id)
    | LoopParallelScopeMismatch(edge: Id)
    | LoopRule(rule: LoopChecks.Diagnostic)

  // ----- node and edge lists

  function NodeId(): Node -> int {
    (n: Node) => n.id
  }

  function EdgeId(): Edge -> int {
    (e: Edge) => e.id
  }

  function Ids(nodes: seq<Node>): (r: seq<Id>)
    ensures |r| == |nodes| && forall i :: 0 <= i < |r| ==> r[i] == nodes[i].id
  {
    seq(|nodes|, i requires 0 <= i < |nodes| => nodes[i].id)
  }

  ghost function IdSet(nodes: seq<Node>): set<Id> {
    Elements(Ids(nodes))
  }

  ghost function GraphOf(d: Definition): Outgoing {
    OutgoingOf(IdSet(d.nodes), d.edges)
  }

  ghost predicate NodesOk(nodes: seq<Node>) {
    DistinctKeys(nodes, NodeId()) && forall n :: n in nodes ==> !IsBlank(n.id)
  }

  method CheckNodes(nodes: seq<Node>) returns (diagnostics: seq<Diagnostic>)
    ensures diagnostics == [] <==> NodesOk(nodes)
  {
    diagnostics := [];
    var seen: set<Id> := {};
    for i := 0 to |nodes|
      invariant forall x :: x in seen <==> exists k :: 0 <= k < i && nodes[k].id == x && !IsBlank(x)
      invariant diagnostics == [] <==>
                (forall j, k :: 0 <= j < k < i ==> nodes[j].id != nodes[k].id) &&
                (forall k :: 0 <= k < i ==> !IsBlank(nodes[k].id))
    {
      if IsBlank(nodes[i].id) {
        diagnostics := diagnostics + [NodeInvalid(nodes[i].id)];
      } else {
        if nodes[i].id in seen {
          diagnostics := diagnostics + [NodeIdDuplicate(nodes[i].id)];
        }
        seen := seen + {nodes[i].id};
      }
    }
  }

  predicate SameRoute(d: Edge, e: Edge) {
    d.source == e.source && d.handle == e.handle && d.target == e.target
  }

  /** The rules that look at one edge: real endpoints, self-loops only as bounded returns of a
      workflow, limits between 1 and 1000, no loops in a data flow. */
  ghost predicate EdgeOk(ids: set<Id>, data: bool, e: Edge) {
    && !IsBlank(e.id) && e.source in ids && e.target in ids
    && (e.source == e.target ==> IsLoop(e) && !data)
    && (IsLoop(e) ==> !data && 1 <= e.loop.value <= 1000)
  }

  ghost predicate EdgesOk(ids: set<Id>, data: bool, edges: seq<Edge>) {
    && (forall i :: 0 <= i < |edges| ==> EdgeOk(ids, data, edges[i]))
    && DistinctKeys(edges, EdgeId())
    && (forall i, j :: 0 <= i < j < |edges| && edges[i].source == edges[j].source && edges[i].target == edges[j].target ==>
                         edges[i].handle != edges[j].handle)
  }

  /** The checks on one edge against the edges already accepted. */
  method CheckEdge(nodeIds: set<Id>, data: bool, kept: seq<Edge>, e: Edge) returns (diagnostics: seq<Diagnostic>)
    ensures diagnostics == [] <==>
            EdgeOk(nodeIds, data, e) && forall k :: 0 <= k < |kept| ==> kept[k].id != e.id && !SameRoute(kept[k], e)
  {
    if IsBlank(e.id) || e.source !in nodeIds || e.target !in nodeIds {
      return [EdgeDangling(e.id)];
    }
    diagnostics := [];
    if exists k :: 0 <= k < |kept| && kept[k].id == e.id {
      diagnostics := diagnostics + [EdgeIdDuplicate(e.id)];
    }
    if e.source == e.target && (!IsLoop(e) || data) {
      diagnostics := diagnostics + [EdgeSelfLoop(e.id)];
    }
    if exists k :: 0 <= k < |kept| && SameRoute(kept[k], e) {
      diagnostics := diagnostics + [EdgeDuplicate(e.id)];
    }
    if IsLoop(e) {
      if data {
        diagnostics := diagnostics + [DataflowLoopUnsupported(e.id)];
      }
      if e.loop.value < 1 || e.loop.value > 1000 {
        diagnostics := diagnostics + [LoopLimitInvalid(e.id)];
      }
    }
  }

  method CheckEdges(nodeIds: set<Id>, data: bool, edges: seq<Edge>) returns (diagnostics: seq<Diagnostic>)
    ensures diagnostics == [] <==> EdgesOk(nodeIds, data, edges)
  {
    diagnostics := [];
    var kept: seq<Edge> := [];
    for i := 0 to |edges|
      invariant diagnostics == [] ==> kept == edges[..i]
      invariant diagnostics == [] <==> EdgesOk(nodeIds, data, edges[..i])
    {
      var found := CheckEdge(nodeIds, data, kept, edges[i]);
      EdgesOkSnoc(nodeIds, data, edges, i);
      diagnostics := diagnostics + found;
      if !IsBlank(edges[i].id) && edges[i].source in nodeIds && edges[i].target in nodeIds {
        kept := kept + [edges[i]];
      }
    }
    assert edges[..|edges|] == edges;
  }

  lemma EdgesOkSnoc(ids: set<Id>, data: bool, edges: seq<Edge>, n: nat)
    requires n < |edges|
    ensures EdgesOk(ids, data, edges[..n + 1]) <==>
            EdgesOk(ids, data, edges[..n]) && EdgeOk(ids, data, edges[n]) &&
            forall k :: 0 <= k < |edges[..n]| ==> edges[..n][k].id != edges[n].id && !SameRoute(edges[..n][k], edges[n])
  {
    var s, t := edges[..n], edges[..n + 1];
    assert t == s + [edges[n]];
    assert forall k :: 0 <= k < n ==> t[k] == s[k];
    if EdgesOk(ids, data, t) {
      assert EdgeOk(ids, data, t[n]);
      forall i | 0 <= i < |s|
        ensures EdgeOk(ids, data, s[i])
      {
        assert EdgeOk(ids, data, t[i]);
      }
    }
  }

  // ----- start and end nodes

  function StartNode(): Node -> bool {
    (n: Node) => n.kind.Start?
  }

  function EndNode(): Node -> bool {
    (n: Node) => n.kind.End?
  }

  function SinkNode(): Node -> bool {
    (n: Node) => n.kind.End? || n.kind.Output? || n.kind.Sink?
  }

  /** Data flows end at terminal nodes without outgoing edges, the others at their end nodes. */
  function TerminalNode(data: bool, edges: seq<Edge>): Node -> bool {
    (n: Node) => if data then SinkNode()(n) && EdgesFrom(edges, n.id) == [] else EndNode()(n)
  }

  function Terminals(d: Definition, data: bool): seq<Node> {
    Filter(d.nodes, TerminalNode(data, d.edges))
  }

  ghost predicate CardinalityOk(d: Definition, data: bool) {
    && |Filter(d.nodes, StartNode())| == 1
    && (if data then exists n :: n in d.nodes && SinkNode()(n) else |Filter(d.nodes, EndNode())| == 1)
    && Terminals(d, data) != []
  }

  ghost predicate StartOk(d: Definition, start: Id) {
    EdgesFrom(d.edges, start) != [] && forall e :: e in d.edges ==> e.target != start
  }

  ghost predicate EndsOk(d: Definition) {
    forall n :: n in d.nodes && EndNode()(n) ==> EdgesFrom(d.edges, n.id) == []
  }

  /** `n` lies on a walk from the start node to a terminal. */
  ghost predicate OnRoute(d: Definition, data: bool, g: Outgoing, n: Node) {
    && (exists s :: s in d.nodes && StartNode()(s) && Reach(g, s.id, n.id))
    && (exists t :: t in Terminals(d, data) && Reach(g, n.id, t.id))
  }

  ghost predicate ReachOk(d: Definition, data: bool, g: Outgoing) {
    forall n {:trigger OnRoute(d, data, g, n)} :: n in d.nodes ==> OnRoute(d, data, g, n)
  }

  method CheckCardinality(d: Definition, data: bool) returns (start: Result<Node, Diagnostic>)
    ensures start.Ok? <==> CardinalityOk(d, data)
    ensures start.Ok? ==> Filter(d.nodes, StartNode()) == [start.value]
  {
    var starts := Filter(d.nodes, StartNode());
    if |starts| != 1 || (if data then !exists i :: 0 <= i < |d.nodes| && SinkNode()(d.nodes[i])
                         else |Filter(d.nodes, EndNode())| != 1) {
      return Err(StartEndCardinality);
    }
    if Terminals(d, data) == [] {
      return Err(DataTerminalRequired);
    }
    start := Ok(starts[0]);
  }

  method CheckEnds(d: Definition, start: Node) returns (diagnostics: seq<Diagnostic>)
    ensures diagnostics == [] <==> StartOk(d, start.id) && EndsOk(d)
  {
    diagnostics := [];
    if exists i :: 0 <= i < |d.edges| && d.edges[i].target == start.id {
      diagnostics := [StartHasIncoming(start.id)];
    }
    ghost var incoming := diagnostics;
    for i := 0 to |d.nodes|
      invariant diagnostics == [] <==>
                incoming == [] && forall k :: 0 <= k < i && EndNode()(d.nodes[k]) ==> EdgesFrom(d.edges, d.nodes[k].id) == []
    {
      if EndNode()(d.nodes[i]) && EdgesFrom(d.edges, d.nodes[i].id) != [] {
        diagnostics := diagnostics + [EndHasOutgoing(d.nodes[i].id)];
      }
    }
    if EdgesFrom(d.edges, start.id) == [] {
      diagnostics := diagnostics + [StartNoOutgoing(start.id)];
    }
  }

  /** Every listed node that is missing from `found` is reported. */
  method Missing(nodes: seq<Node>, found: set<Id>, report: Node -> Diagnostic) returns (diagnostics: seq<Diagnostic>)
    ensures diagnostics == Reports(nodes, NotIn(found), report)
  {
    diagnostics := [];
    for i := 0 to |nodes|
      invariant diagnostics == Reports(nodes[..i], NotIn(found), report)
    {
      ReportsNext(nodes, i, NotIn(found), report);
      if nodes[i].id !in found {
        diagnostics := diagnostics + [report(nodes[i])];
      }
    }
    assert nodes[..|nodes|] == nodes;
  }

  function NotIn(found: set<Id>): Node -> bool {
    (n: Node) => n.id !in found
  }

  function ReportUnreachable(): Node -> Diagnostic {
    (n: Node) => NodeUnreachable(n.id)
  }

  function ReportStuck(): Node -> Diagnostic {
    (n: Node) => NodeCannotReachEnd(n.id)
  }

  ghost function Unreachable(g: Outgoing, start: Id): Node -> bool {
    (n: Node) => !Reach(g, start, n.id)
  }

  ghost function Stuck(g: Outgoing, terminals: seq<Node>): Node -> bool {
    (n: Node) => !exists t :: t in terminals && Reach(g, n.id, t.id)
  }

  lemma ReachesIsReach(g: Outgoing, s: Id, x: Id)
    ensures Reaches(g, [s], {}, x) <==> Reach(g, s, x)
  {
    if w :| WalkFromTo(g, s, x, w) {
      assert IsWalk(g, w) && w[0] in [s] && w[|w| - 1] == x && Elements(w) !! {};
    }
    if Reaches(g, [s], {}, x) {
      var w :| IsWalk(g, w) && w[0] in [s] && w[|w| - 1] == x && Elements(w) !! {};
      assert WalkFromTo(g, s, x, w);
    }
  }

  function Backwards(w: seq<Id>): (r: seq<Id>)
    ensures |r| == |w| && forall i :: 0 <= i < |w| ==> r[i] == w[|w| - 1 - i]
  {
    seq(|w|, i requires 0 <= i < |w| => w[|w| - 1 - i])
  }

  lemma WalkBackwards(ids: set<Id>, edges: seq<Edge>, w: seq<Id>)
    requires Connects(ids, edges) && IsWalk(OutgoingOf(ids, edges), w)
    ensures IsWalk(OutgoingOf(ids, Reversed(edges)), Backwards(w))
  {
    var v := Backwards(w);
    forall i | 0 <= i < |v| - 1
      ensures HasEdge(OutgoingOf(ids, Reversed(edges)), v[i], v[i + 1])
    {
      var k := |w| - 2 - i;
      assert HasEdge(OutgoingOf(ids, edges), w[k], w[k + 1]);
      ReversedEdge(ids, edges, w[k + 1], w[k]);
    }
  }

  lemma DoubleReverse(edges: seq<Edge>)
    ensures Reversed(Reversed(edges)) == edges
  {
  }

  /** Searching the reversed edges from the terminals finds the nodes that reach a terminal. */
  lemma BackwardSearch(ids: set<Id>, edges: seq<Edge>, terminals: seq<Id>, x: Id)
    requires Connects(ids, edges)
    ensures Reaches(OutgoingOf(ids, Reversed(edges)), terminals, {}, x) <==>
            exists t :: t in terminals && Reach(OutgoingOf(ids, edges), x, t)
  {
    var g, r := OutgoingOf(ids, edges), OutgoingOf(ids, Reversed(edges));
    ReversedEdge(ids, edges, x, x);
    if Reaches(r, terminals, {}, x) {
      var w :| IsWalk(r, w) && w[0] in terminals && w[|w| - 1] == x && Elements(w) !! {};
      WalkBackwards(ids, Reversed(edges), w);
      DoubleReverse(edges);
      assert WalkFromTo(g, x, w[0], Backwards(w));
    }
    if t :| t in terminals && Reach(g, x, t) {
      var w :| WalkFromTo(g, x, t, w);
      WalkBackwards(ids, edges, w);
      var v := Backwards(w);
      assert IsWalk(r, v) && v[0] in terminals && v[|v| - 1] == x && Elements(v) !! {};
    }
  }

  lemma TerminalMembers(d: Definition, data: bool)
    ensures forall n :: n in Terminals(d, data) <==> n in d.nodes && TerminalNode(data, d.edges)(n)
  {
    FilterMembers(d.nodes, TerminalNode(data, d.edges));
  }

  lemma OnlyStart(d: Definition, start: Node)
    requires Filter(d.nodes, StartNode()) == [start]
    ensures forall s :: s in d.nodes && StartNode()(s) <==> s == start
  {
    FilterMembers(d.nodes, StartNode());
    assert start in [start];
  }

  /** Every node lies on a walk from the start to a terminal. */
  method CheckReach(d: Definition, data: bool, start: Node, outgoing: Outgoing) returns (diagnostics: seq<Diagnostic>)
    requires Connects(IdSet(d.nodes), d.edges) && outgoing == OutgoingOf(IdSet(d.nodes), d.edges)
    requires Filter(d.nodes, StartNode()) == [start]
    ensures diagnostics == [] <==> ReachOk(d, data, outgoing)
    ensures diagnostics == Reports(d.nodes, Unreachable(outgoing, start.id), ReportUnreachable()) +
                           Reports(d.nodes, Stuck(outgoing, Terminals(d, data)), ReportStuck())
  {
    ghost var ids := IdSet(d.nodes);
    StartAndTerminalsAreNodes(d, data, start);
    OutgoingWellFormed(ids, d.edges);
    ReversedEdge(ids, d.edges, start.id, start.id);
    OutgoingWellFormed(ids, Reversed(d.edges));
    var terminals := Ids(Terminals(d, data));
    assert forall x :: x in [start.id] ==> x in outgoing;
    hide *;
    var reachable := Search(outgoing, [start.id], {});
    var incoming := BuildOutgoing(Ids(d.nodes), Reversed(d.edges));
    var canReachEnd := Search(incoming, terminals, {});
    var forward := Missing(d.nodes, reachable, ReportUnreachable());
    var backward := Missing(d.nodes, canReachEnd, ReportStuck());
    diagnostics := forward + backward;
    ReachDecided(d, data, start, reachable, canReachEnd);
  }

  lemma StartAndTerminalsAreNodes(d: Definition, data: bool, start: Node)
    requires Filter(d.nodes, StartNode()) == [start]
    ensures start.id in IdSet(d.nodes)
    ensures forall x :: x in Ids(Terminals(d, data)) ==> x in OutgoingOf(IdSet(d.nodes), Reversed(d.edges))
  {
    OnlyStart(d, start);
    NodesHaveIds(d.nodes);
    TerminalMembers(d, data);
    var terminals := Terminals(d, data);
    forall x | x in Ids(terminals)
      ensures x in IdSet(d.nodes)
    {
      var i :| 0 <= i < |terminals| && Ids(terminals)[i] == x;
      assert terminals[i] in terminals;
    }
  }

  /** The two searches together decide `ReachOk`, and which nodes are reported. */
  lemma ReachDecided(d: Definition, data: bool, start: Node, reachable: set<Id>, canReachEnd: set<Id>)
    requires Connects(IdSet(d.nodes), d.edges) && Filter(d.nodes, StartNode()) == [start]
    requires forall x :: x in reachable <==> Reaches(GraphOf(d), [start.id], {}, x)
    requires forall x :: x in canReachEnd <==>
                         Reaches(OutgoingOf(IdSet(d.nodes), Reversed(d.edges)), Ids(Terminals(d, data)), {}, x)
    ensures ReachOk(d, data, GraphOf(d)) <==>
            Reports(d.nodes, NotIn(reachable), ReportUnreachable()) + Reports(d.nodes, NotIn(canReachEnd), ReportStuck()) == []
    ensures Reports(d.nodes, NotIn(reachable), ReportUnreachable()) ==
            Reports(d.nodes, Unreachable(GraphOf(d), start.id), ReportUnreachable())
    ensures Reports(d.nodes, NotIn(canReachEnd), ReportStuck()) ==
            Reports(d.nodes, Stuck(GraphOf(d), Terminals(d, data)), ReportStuck())
  {
    var g := GraphOf(d);
    OnlyStart(d, start);
    forall n | n in d.nodes
      ensures n.id in reachable <==> Reach(g, start.id, n.id)
      ensures NotIn(canReachEnd)(n) == Stuck(g, Terminals(d, data))(n)
    {
      ReachesIsReach(g, start.id, n.id);
      BackwardSearch(IdSet(d.nodes), d.edges, Ids(Terminals(d, data)), n.id);
      TerminalIds(g, Terminals(d, data), n.id);
    }
    hide Reach, Reaches, Filter, GraphOf, OutgoingOf, Ids, IdSet, Connects;
    ReportsAgree(d.nodes, NotIn(reachable), Unreachable(g, start.id), ReportUnreachable());
    ReportsAgree(d.nodes, NotIn(canReachEnd), Stuck(g, Terminals(d, data)), ReportStuck());
    NoReports(d.nodes, Unreachable(g, start.id), ReportUnreachable());
    NoReports(d.nodes, Stuck(g, Terminals(d, data)), ReportStuck());
    ReachOkByNode(d, data, g, start);
  }

  lemma ReachOkByNode(d: Definition, data: bool, g: Outgoing, start: Node)
    requires forall s :: s in d.nodes && StartNode()(s) <==> s == start
    ensures ReachOk(d, data, g) <==>
            (forall n :: n in d.nodes ==> !Unreachable(g, start.id)(n)) && (forall n :: n in d.nodes ==> !Stuck(g, Terminals(d, data))(n))
  {
    hide Reach, Filter;
    forall n | n in d.nodes
      ensures OnRoute(d, data, g, n) <==> !Unreachable(g, start.id)(n) && !Stuck(g, Terminals(d, data))(n)
    {
    }
  }

  lemma TerminalIds(g: Outgoing, terminals: seq<Node>, x: Id)
    ensures (exists t :: t in Ids(terminals) && Reach(g, x, t)) <==> (exists n :: n in terminals && Reach(g, x, n.id))
  {
    if t :| t in Ids(terminals) && Reach(g, x, t) {
      var i :| 0 <= i < |terminals| && Ids(terminals)[i] == t;
      assert terminals[i] in terminals;
    }
    if n :| n in terminals && Reach(g, x, n.id) {
      var i :| 0 <= i < |terminals| && terminals[i] == n;
      assert Ids(terminals)[i] in Ids(terminals);
    }
  }

  lemma NodesHaveIds(nodes: seq<Node>)
    ensures forall n :: n in nodes ==> n.id in IdSet(nodes)
    ensures forall x :: x in IdSet(nodes) ==> exists n :: n in nodes && n.id == x
  {
    forall n | n in nodes
      ensures n.id in Elements(Ids(nodes))
    {
      var i :| 0 <= i < |nodes| && nodes[i] == n;
      assert Ids(nodes)[i] in Ids(nodes);
    }
    forall x | x in Elements(Ids(nodes))
      ensures exists n :: n in nodes && n.id == x
    {
      var i :| 0 <= i < |nodes| && Ids(nodes)[i] == x;
      assert nodes[i] in nodes;
    }
  }

  // ----- parallel forks

  predicate IsFork(n: Node) {
    n.kind.Router? && n.broadcast
  }

  function EntersNode(a: Id): Edge -> bool {
    (e: Edge) => e.target == a
  }

  ghost predicate InRegion(g: Outgoing, fork: Id, join: Id, x: Id)
    requires fork in g
  {
    Reaches(g, Targets(g[fork]), {fork, join}, x)
  }

  /** A loop edge may not cross the border of the region between a fork and its join, except
      from the region to the join or from the fork into the region. */
  ghost predicate CrossesRegion(g: Outgoing, fork: Id, join: Id, e: Edge)
    requires fork in g
  {
    || (InRegion(g, fork, join, e.source) && !InRegion(g, fork, join, e.target) && e.target != join)
    || (!InRegion(g, fork, join, e.source) && InRegion(g, fork, join, e.target) && e.source != fork)
  }

  /** A fork has two branches or more, is bound to its join in both directions, and every plain
      path of every branch reaches that join. */
  ghost predicate ForkOk(d: Definition, g: Outgoing, fork: Node)
    requires fork.id in g
  {
    && |g[fork.id]| >= 2
    && (exists j :: j in d.nodes && j.id == fork.joinNodeId && j.routerNodeId == fork.id)
    && |Filter(d.edges, EntersNode(fork.joinNodeId))| >= 2
    && (forall e :: e in g[fork.id] ==> AlwaysReaches(g, e.target, fork.joinNodeId, fork.id))
    && (forall e :: e in d.edges && IsLoop(e) ==> !CrossesRegion(g, fork.id, fork.joinNodeId, e))
  }

  ghost predicate ForksOk(d: Definition, g: Outgoing) {
    forall n :: n in d.nodes && IsFork(n) ==> n.id in g && ForkOk(d, g, n)
  }

  /** `nodesById.get(id)` */
  method FindNode(nodes: seq<Node>, id: Id) returns (found: Option<Node>)
    requires DistinctKeys(nodes, NodeId())
    ensures found.Some? ==> found.value in nodes && found.value.id == id
    ensures forall n :: n in nodes && n.id == id ==> found == Some(n)
  {
    found := None;
    for i := 0 to |nodes|
      invariant found.Some? ==> found.value in nodes && found.value.id == id
      invariant forall k :: 0 <= k < i && nodes[k].id == id ==> found == Some(nodes[k])
    {
      if nodes[i].id == id {
        found := Some(nodes[i]);
      }
    }
  }

  method CheckBranches(nodeIds: seq<Id>, g: Outgoing, fork: Id, join: Id) returns (diagnostics: seq<Diagnostic>)
    requires WellFormed(g) && Elements(nodeIds) == g.Keys && fork in g && join in g
    ensures diagnostics == Reports(g[fork], Misses(g, join, fork), ReportBranch())
    ensures diagnostics == [] <==> forall e :: e in g[fork] ==> AlwaysReaches(g, e.target, join, fork)
  {
    diagnostics := [];
    NoReports(g[fork], Misses(g, join, fork), ReportBranch());
    for i := 0 to |g[fork]|
      invariant diagnostics == Reports(g[fork][..i], Misses(g, join, fork), ReportBranch())
    {
      ReportsNext(g[fork], i, Misses(g, join, fork), ReportBranch());
      var reaches := AllPathsReachTarget(g[fork][i].target, join, g, nodeIds, fork);
      if !reaches {
        diagnostics := diagnostics + [ParallelBranchMissesJoin(g[fork][i].id)];
      }
    }
    assert g[fork][..|g[fork]|] == g[fork];
  }

  function ReportBranch(): Edge -> Diagnostic {
    (e: Edge) => ParallelBranchMissesJoin(e.id)
  }

  ghost function Misses(g: Outgoing, join: Id, fork: Id): Edge -> bool {
    (e: Edge) => !AlwaysReaches(g, e.target, join, fork)
  }

  method CheckRegion(edges: seq<Edge>, g: Outgoing, fork: Id, join: Id) returns (diagnostics: seq<Diagnostic>)
    requires WellFormed(g) && fork in g
    ensures diagnostics == Reports(edges, Crossing(g, fork, join), ReportCrossing())
    ensures diagnostics == [] <==> forall e :: e in edges && IsLoop(e) ==> !CrossesRegion(g, fork, join, e)
  {
    NoReports(edges, Crossing(g, fork, join), ReportCrossing());
    assert forall s :: s in Targets(g[fork]) ==> s in g;
    var members := Search(g, Targets(g[fork]), {fork, join});
    diagnostics := [];
    for i := 0 to |edges|
      invariant diagnostics == Reports(edges[..i], Crossing(g, fork, join), ReportCrossing())
    {
      ReportsNext(edges, i, Crossing(g, fork, join), ReportCrossing());
      if IsLoop(edges[i]) {
        var sourceInside, targetInside := edges[i].source in members, edges[i].target in members;
        if (sourceInside && !targetInside && edges[i].target != join) ||
           (!sourceInside && targetInside && edges[i].source != fork) {
          diagnostics := diagnostics + [LoopParallelScopeMismatch(edges[i].id)];
        }
      }
    }
    assert edges[..|edges|] == edges;
  }

  function ReportCrossing(): Edge -> Diagnostic {
    (e: Edge) => LoopParallelScopeMismatch(e.id)
  }

  ghost function Crossing(g: Outgoing, fork: Id, join: Id): Edge -> bool {
    (e: Edge) => fork in g && IsLoop(e) && CrossesRegion(g, fork, join, e)
  }

  method CheckFork(d: Definition, g: Outgoing, fork: Node) returns (diagnostics: seq<Diagnostic>)
    requires DistinctKeys(d.nodes, NodeId()) && Connects(IdSet(d.nodes), d.edges)
    requires g == OutgoingOf(IdSet(d.nodes), d.edges) && fork.id in g
    ensures diagnostics == [] <==> ForkOk(d, g, fork)
  {
    diagnostics := [];
    if |g[fork.id]| < 2 {
      diagnostics := [ParallelBranchesRequired(fork.id)];
    }
    var join := FindNode(d.nodes, fork.joinNodeId);
    if join.None? {
      diagnostics := diagnostics + [ParallelJoinRequired(fork.id)];
      return;
    }
    if join.value.routerNodeId != fork.id {
      diagnostics := diagnostics + [ParallelJoinMismatch(join.value.id)];
    }
    if |Filter(d.edges, EntersNode(fork.joinNodeId))| < 2 {
      diagnostics := diagnostics + [ParallelJoinInputsRequired(join.value.id)];
    }
    NodesHaveIds(d.nodes);
    OutgoingWellFormed(IdSet(d.nodes), d.edges);
    var missing := CheckBranches(Ids(d.nodes), g, fork.id, fork.joinNodeId);
    var crossing := CheckRegion(d.edges, g, fork.id, fork.joinNodeId);
    diagnostics := diagnostics + missing + crossing;
  }

  method CheckForks(d: Definition, g: Outgoing) returns (diagnostics: seq<Diagnostic>)
    requires DistinctKeys(d.nodes, NodeId()) && Connects(IdSet(d.nodes), d.edges)
    requires g == OutgoingOf(IdSet(d.nodes), d.edges)
    ensures diagnostics == [] <==> ForksOk(d, g)
  {
    NodesHaveIds(d.nodes);
    diagnostics := [];
    hide ForkOk;
    for i := 0 to |d.nodes|
      invariant forall k :: 0 <= k < |d.nodes| ==> d.nodes[k].id in g
      invariant diagnostics == [] <==> forall k :: 0 <= k < i && IsFork(d.nodes[k]) ==> ForkOk(d, g, d.nodes[k])
    {
      if IsFork(d.nodes[i]) {
        var found := CheckFork(d, g, d.nodes[i]);
        diagnostics := diagnostics + found;
      }
    }
    assert forall n :: n in d.nodes ==> exists k :: 0 <= k < |d.nodes| && d.nodes[k] == n;
  }

  // ----- acceptance

  /** What an accepted definition is, in terms of its graph alone. */
  ghost predicate Accepted(d: Definition, data: bool) {
    && NodesOk(d.nodes)
    && EdgesOk(IdSet(d.nodes), data, d.edges)
    && CardinalityOk(d, data)
    && (forall n :: n in d.nodes && StartNode()(n) ==> StartOk(d, n.id))
    && EndsOk(d)
    && ReachOk(d, data, GraphOf(d))
    && ForksOk(d, GraphOf(d))
    && PlainAcyclic(GraphOf(d))
    && LoopChecks.LoopEdgesAreCyclic(GraphOf(d), d.edges)
  }

  lemma AcceptedConnects(d: Definition, data: bool)
    requires EdgesOk(IdSet(d.nodes), data, d.edges)
    ensures Connects(IdSet(d.nodes), d.edges)
    ensures forall a :: !HasEdge(PlainGraph(GraphOf(d)), a, a)
  {
    forall e | e in d.edges
      ensures EdgeOk(IdSet(d.nodes), data, e)
    {
      var i :| 0 <= i < |d.edges| && d.edges[i] == e;
      assert EdgeOk(IdSet(d.nodes), data, d.edges[i]);
    }
    forall a
      ensures !HasEdge(PlainGraph(GraphOf(d)), a, a)
    {
      PlainOutgoingEdge(IdSet(d.nodes), d.edges, a, a);
    }
  }

  /** The checks of an executable definition.  Once node or edge diagnostics exist the result is
      already a rejection, so the graph checks are only run on clean lists. */
  method Analyze(d: Definition, data: bool) returns (diagnostics: seq<Diagnostic>)
    ensures diagnostics == [] <==> Accepted(d, data)
  {
    diagnostics := CheckNodes(d.nodes);
    var nodeIds := Ids(d.nodes);
    var edgeFindings := CheckEdges(Elements(nodeIds), data, d.edges);
    diagnostics := diagnostics + edgeFindings;
    if diagnostics != [] {
      return;
    }
    AcceptedConnects(d, data);
    var start := CheckCardinality(d, data);
    if start.Err? {
      return [start.error];
    }
    OnlyStart(d, start.value);
    hide *;
    var outgoing := BuildOutgoing(nodeIds, d.edges);
    var ends := CheckEnds(d, start.value);
    var reach := CheckReach(d, data, start.value, outgoing);
    var forks := CheckForks(d, outgoing);
    var loops := LoopChecks.CheckLoops(nodeIds, d.edges, outgoing);
    diagnostics := ends + reach + forks + Wrap(loops);
    LoopRules(d);
  }

  function Wrap(rules: seq<LoopChecks.Diagnostic>): (r: seq<Diagnostic>)
    ensures |r| == |rules|
  {
    seq(|rules|, i requires 0 <= i < |rules| => LoopRule(rules[i]))
  }

  lemma LoopRules(d: Definition)
    requires forall a :: !HasEdge(PlainGraph(GraphOf(d)), a, a)
    ensures LoopChecks.PlainCyclesAreSelfLoops(GraphOf(d)) <==> PlainAcyclic(GraphOf(d))
  {
  }

  // ----- the plan

  datatype Group = Group(fork: Id, join: Id, branches: seq<Id>)

  datatype Plan = Plan(
    nodes: seq<Node>, edges: seq<Edge>, entry: Id, terminals: seq<Id>,
    outgoing: Outgoing, incoming: Outgoing, order: Option<seq<Id>>,
    groups: seq<Group>, loops: seq<Edge>)

  /** `normalizedDefinition`: both lists in id order. */
  function Normalize(d: Definition): Definition {
    Definition(Sort(d.nodes, NodeId()), Sort(d.edges, EdgeId()))
  }

  function EdgeIds(edges: seq<Edge>): seq<Id> {
    seq(|edges|, i requires 0 <= i < |edges| => edges[i].id)
  }

  function ForkNode(): Node -> bool {
    (n: Node) => IsFork(n)
  }

  function DeclaredLoop(): Edge -> bool {
    (e: Edge) => IsLoop(e)
  }

  /** The map whose lists hold, per node, the edges into it. */
  function IncomingOf(ids: set<Id>, edges: seq<Edge>): Outgoing {
    map a | a in ids :: Filter(edges, EntersNode(a))
  }

  function GroupOf(edges: seq<Edge>, n: Node): Group {
    Group(n.id, n.joinNodeId, Sort(EdgeIds(EdgesFrom(edges, n.id)), Identity()))
  }

  function Groups(edges: seq<Edge>, forks: seq<Node>): seq<Group> {
    seq(|forks|, i requires 0 <= i < |forks| => GroupOf(edges, forks[i]))
  }

  /** Everything but the order is read off the normalised definition. */
  function PlanOf(d: Definition, data: bool, order: Option<seq<Id>>): Plan
    requires Filter(d.nodes, StartNode()) != []
  {
    Plan(
      d.nodes, d.edges, Filter(d.nodes, StartNode())[0].id,
      Sort(Ids(Terminals(d, data)), Identity()),
      OutgoingOf(Elements(Ids(d.nodes)), d.edges),
      IncomingOf(Elements(Ids(d.nodes)), d.edges),
      order, Groups(d.edges, Filter(d.nodes, ForkNode())), Filter(d.edges, DeclaredLoop()))
  }

  /** `plan` is what compiling `d` returns. */
  ghost predicate IsPlan(d: Definition, data: bool, plan: Plan) {
    var n := Normalize(d);
    && Filter(n.nodes, StartNode()) != []
    && plan == PlanOf(n, data, plan.order)
    && plan.order.Some? && Greedy(GraphOf(n), plan.order.value)
  }

  ghost predicate Permuted(d: Definition, d': Definition) {
    multiset(d.nodes) == multiset(d'.nodes) && multiset(d.edges) == multiset(d'.edges)
  }

  lemma NormalizePermutes(d: Definition)
    ensures Permuted(d, Normalize(d))
  {
    SortCorrect(d.nodes, NodeId());
    SortCorrect(d.edges, EdgeId());
  }

  // ----- what a plan says about its definition

  /** Strictly ascending, so each entry stands once and in its place. */
  ghost predicate Ascending<T>(s: seq<T>, key: T -> int) {
    forall i, j :: 0 <= i < j < |s| ==> key(s[i]) < key(s[j])
  }

  /** The node lists, in id order, and what is read off the nodes. */
  ghost predicate NodesDescribed(d: Definition, data: bool, plan: Plan) {
    && multiset(plan.nodes) == multiset(d.nodes) && Ascending(plan.nodes, NodeId())
    && (exists n :: n in d.nodes && n.kind.Start? && plan.entry == n.id)
    && Ascending(plan.terminals, Identity())
    && (forall x :: x in plan.terminals <==>
                      exists n :: n in d.nodes && n.id == x && Terminal(d, data, n))
  }

  /** In a data flow every sink without a way out, elsewhere the end nodes. */
  ghost predicate Terminal(d: Definition, data: bool, n: Node) {
    if data then (n.kind.End? || n.kind.Output? || n.kind.Sink?) && forall e :: e in d.edges ==> e.source != n.id
    else n.kind.End?
  }

  /** The edge lists, in id order: per source, per target, and the declared loops. */
  ghost predicate EdgesDescribed(d: Definition, plan: Plan) {
    && multiset(plan.edges) == multiset(d.edges) && Ascending(plan.edges, EdgeId())
    && (forall a :: a in plan.outgoing <==> exists n :: n in d.nodes && n.id == a)
    && (forall a :: a in plan.incoming <==> exists n :: n in d.nodes && n.id == a)
    && (forall a :: a in plan.outgoing ==> Ascending(plan.outgoing[a], EdgeId()))
    && (forall a, e :: a in plan.outgoing ==> (e in plan.outgoing[a] <==> e in d.edges && e.source == a))
    && (forall a :: a in plan.incoming ==> Ascending(plan.incoming[a], EdgeId()))
    && (forall a, e :: a in plan.incoming ==> (e in plan.incoming[a] <==> e in d.edges && e.target == a))
    && Ascending(plan.loops, EdgeId())
    && (forall e :: e in plan.loops <==> e in d.edges && e.loop.Some?)
  }

  /** The group of one broadcasting router: its join and the ids of its branch edges, ascending. */
  ghost predicate GroupDescribed(d: Definition, n: Node, g: Group) {
    && n.kind.Router? && n.broadcast && g.fork == n.id && g.join == n.joinNodeId
    && Ascending(g.branches, Identity())
    && forall x :: x in g.branches <==> exists e :: e in d.edges && e.source == n.id && e.id == x
  }

  function ForkOf(): Group -> int {
    (g: Group) => g.fork
  }

  /** One group per broadcasting router, in id order. */
  ghost predicate GroupsDescribed(d: Definition, plan: Plan) {
    && Ascending(plan.groups, ForkOf())
    && (forall g :: g in plan.groups ==> exists n :: n in d.nodes && GroupDescribed(d, n, g))
    && (forall n :: n in d.nodes && n.kind.Router? && n.broadcast ==> exists g :: g in plan.groups && g.fork == n.id)
  }

  ghost predicate Described(d: Definition, data: bool, plan: Plan) {
    NodesDescribed(d, data, plan) && EdgesDescribed(d, plan) && GroupsDescribed(d, plan)
  }

  lemma SortAscending<T>(s: seq<T>, key: T -> int)
    requires DistinctKeys(s, key)
    ensures Ascending(Sort(s, key), key) && multiset(Sort(s, key)) == multiset(s)
    ensures forall x :: x in Sort(s, key) <==> x in s
  {
    SortCorrect(s, key);
    DistinctKeysPermutation(s, Sort(s, key), key);
    SameMultisetSameMembers(s, Sort(s, key));
  }

  lemma {:induction false} FilterMember<T>(s: seq<T>, p: T -> bool, k: nat)
    requires k < |Filter(s, p)|
    ensures Filter(s, p)[k] in s && p(Filter(s, p)[k])
  {
    var here := if p(s[0]) then 1 else 0;
    if k < here {
      assert s[0] in s;
    } else {
      FilterMember(s[1..], p, k - here);
      assert forall x :: x in s[1..] ==> x in s;
    }
  }

  lemma {:induction false} FilterAscending<T>(s: seq<T>, p: T -> bool, key: T -> int)
    requires Ascending(s, key)
    ensures Ascending(Filter(s, p), key)
    ensures forall x :: x in Filter(s, p) <==> x in s && p(x)
  {
    FilterMembers(s, p);
    if s != [] {
      FilterAscending(s[1..], p, key);
      var rest := Filter(s[1..], p);
      assert Filter(s, p) == (if p(s[0]) then [s[0]] else []) + rest;
      hide Filter;
      forall k | 0 <= k < |rest|
        ensures key(s[0]) < key(rest[k])
      {
        FilterMember(s[1..], p, k);
        var i :| 0 <= i < |s[1..]| && s[1..][i] == rest[k];
        assert key(s[0]) < key(s[i + 1]);
      }
    }
  }

  /** The sorted ids of an ascending list of nodes. */
  lemma NodeIdsAscending(nodes: seq<Node>)
    requires Ascending(nodes, NodeId())
    ensures Ascending(Sort(Ids(nodes), Identity()), Identity())
    ensures forall x :: x in Sort(Ids(nodes), Identity()) <==> exists n :: n in nodes && n.id == x
  {
    forall i, j | 0 <= i < j < |nodes|
      ensures Identity()(Ids(nodes)[i]) != Identity()(Ids(nodes)[j])
    {
      assert NodeId()(nodes[i]) < NodeId()(nodes[j]);
    }
    SortAscending(Ids(nodes), Identity());
    forall x
      ensures x in Ids(nodes) <==> exists n :: n in nodes && n.id == x
    {
      if x in Ids(nodes) {
        var i :| 0 <= i < |nodes| && Ids(nodes)[i] == x;
        assert nodes[i] in nodes;
      }
      if n :| n in nodes && n.id == x {
        var i :| 0 <= i < |nodes| && nodes[i] == n;
        assert Ids(nodes)[i] == x;
      }
    }
  }

  lemma EdgeIdsAscending(edges: seq<Edge>)
    requires Ascending(edges, EdgeId())
    ensures Ascending(Sort(EdgeIds(edges), Identity()), Identity())
    ensures forall x :: x in Sort(EdgeIds(edges), Identity()) <==> exists e :: e in edges && e.id == x
  {
    forall i, j | 0 <= i < j < |edges|
      ensures Identity()(EdgeIds(edges)[i]) != Identity()(EdgeIds(edges)[j])
    {
      assert EdgeId()(edges[i]) < EdgeId()(edges[j]);
    }
    SortAscending(EdgeIds(edges), Identity());
    forall x
      ensures x in EdgeIds(edges) <==> exists e :: e in edges && e.id == x
    {
      if x in EdgeIds(edges) {
        var i :| 0 <= i < |edges| && EdgeIds(edges)[i] == x;
        assert edges[i] in edges;
      }
      if e :| e in edges && e.id == x {
        var i :| 0 <= i < |edges| && edges[i] == e;
        assert EdgeIds(edges)[i] == x;
      }
    }
  }

  /** The normalised lists of an accepted definition. */
  lemma NormalLists(d: Definition, data: bool)
    requires Accepted(d, data)
    ensures var n := Normalize(d);
            && Ascending(n.nodes, NodeId()) && multiset(n.nodes) == multiset(d.nodes) && (forall x :: x in n.nodes <==> x in d.nodes)
            && Ascending(n.edges, EdgeId()) && multiset(n.edges) == multiset(d.edges) && (forall e :: e in n.edges <==> e in d.edges)
            && (forall x :: x in Elements(Ids(n.nodes)) <==> exists m :: m in d.nodes && m.id == x)
  {
    SortAscending(d.nodes, NodeId());
    SortAscending(d.edges, EdgeId());
    NodesHaveIds(Normalize(d).nodes);
  }

  /** The fields of a plan, one by one. */
  lemma PlanFields(d: Definition, data: bool, plan: Plan)
    requires IsPlan(d, data, plan)
    ensures var n := Normalize(d);
            && plan.nodes == n.nodes && plan.edges == n.edges
            && Filter(n.nodes, StartNode()) != [] && plan.entry == Filter(n.nodes, StartNode())[0].id
            && plan.terminals == Sort(Ids(Terminals(n, data)), Identity())
            && plan.outgoing == OutgoingOf(Elements(Ids(n.nodes)), n.edges)
            && plan.incoming == IncomingOf(Elements(Ids(n.nodes)), n.edges)
            && plan.groups == Groups(n.edges, Filter(n.nodes, ForkNode())) && plan.loops == Filter(n.edges, DeclaredLoop())
  {
  }

  lemma NodesAreDescribed(d: Definition, data: bool, plan: Plan)
    requires Accepted(d, data) && IsPlan(d, data, plan)
    ensures NodesDescribed(d, data, plan)
  {
    hide *;
    var n := Normalize(d);
    PlanFields(d, data, plan);
    NormalLists(d, data);
    StartIsNode(n.nodes);
    TerminalsAre(d, n, data);
    NodesDescribedBy(d, data, plan);
  }

  /** `NodesDescribed` from its parts. */
  lemma NodesDescribedBy(d: Definition, data: bool, plan: Plan)
    requires multiset(plan.nodes) == multiset(d.nodes) && Ascending(plan.nodes, NodeId())
    requires exists n :: n in d.nodes && n.kind.Start? && plan.entry == n.id
    requires Ascending(plan.terminals, Identity())
    requires forall x :: x in plan.terminals <==> exists n :: n in d.nodes && n.id == x && Terminal(d, data, n)
    ensures NodesDescribed(d, data, plan)
  {
  }

  lemma StartIsNode(nodes: seq<Node>)
    requires Filter(nodes, StartNode()) != []
    ensures var s := Filter(nodes, StartNode())[0]; s in nodes && s.kind.Start?
  {
    FilterMembers(nodes, StartNode());
    assert Filter(nodes, StartNode())[0] in Filter(nodes, StartNode());
  }

  lemma TerminalsAre(d: Definition, n: Definition, data: bool)
    requires Ascending(n.nodes, NodeId())
    requires (forall x :: x in n.nodes <==> x in d.nodes) && (forall e :: e in n.edges <==> e in d.edges)
    ensures var ids := Sort(Ids(Terminals(n, data)), Identity());
            Ascending(ids, Identity()) &&
            forall x :: x in ids <==> exists m :: m in d.nodes && m.id == x && Terminal(d, data, m)
  {
    var terminals := Terminals(n, data);
    FilterAscending(n.nodes, TerminalNode(data, n.edges), NodeId());
    NodeIdsAscending(terminals);
    forall m | m in d.nodes
      ensures m in terminals <==> Terminal(d, data, m)
    {
      NoWayOut(d.edges, n.edges, m.id);
      assert m in terminals <==> TerminalNode(data, n.edges)(m);
      assert Terminal(d, data, m) <==> TerminalNode(data, n.edges)(m) by {
        assert data ==> (TerminalNode(data, n.edges)(m) <==> SinkNode()(m) && EdgesFrom(n.edges, m.id) == []);
        assert !data ==> (TerminalNode(data, n.edges)(m) <==> EndNode()(m));
      }
    }
    hide Sort, Ascending, Terminals, Filter, Terminal;
  }

  lemma NoWayOut(edges: seq<Edge>, sorted: seq<Edge>, a: Id)
    requires forall e :: e in sorted <==> e in edges
    ensures EdgesFrom(sorted, a) == [] <==> forall e :: e in edges ==> e.source != a
  {
    EmptyFilter(sorted, LeavesNode(a));
    assert forall e :: LeavesNode(a)(e) <==> e.source == a;
    hide EdgesFrom, Filter;
  }

  lemma EmptyFilter<T>(s: seq<T>, p: T -> bool)
    ensures Filter(s, p) == [] <==> forall x :: x in s ==> !p(x)
  {
    FilterMembers(s, p);
    if Filter(s, p) != [] { assert Filter(s, p)[0] in Filter(s, p); }
  }

  lemma EdgesAreDescribed(d: Definition, data: bool, plan: Plan)
    requires Accepted(d, data) && IsPlan(d, data, plan)
    ensures EdgesDescribed(d, plan)
  {
    hide *;
    PlanFields(d, data, plan);
    NormalLists(d, data);
    EdgesAre(d, Normalize(d), plan);
  }

  lemma EdgesAre(d: Definition, n: Definition, plan: Plan)
    requires multiset(n.edges) == multiset(d.edges) && Ascending(n.edges, EdgeId()) && plan.edges == n.edges
    requires forall e :: e in n.edges <==> e in d.edges
    requires forall x :: x in Elements(Ids(n.nodes)) <==> exists m :: m in d.nodes && m.id == x
    requires plan.outgoing == OutgoingOf(Elements(Ids(n.nodes)), n.edges)
    requires plan.incoming == IncomingOf(Elements(Ids(n.nodes)), n.edges)
    requires plan.loops == Filter(n.edges, DeclaredLoop())
    ensures EdgesDescribed(d, plan)
  {
    hide Filter, Ascending;
    forall a
      ensures Ascending(EdgesFrom(n.edges, a), EdgeId())
      ensures forall e :: e in EdgesFrom(n.edges, a) <==> e in d.edges && e.source == a
      ensures Ascending(Filter(n.edges, EntersNode(a)), EdgeId())
      ensures forall e :: e in Filter(n.edges, EntersNode(a)) <==> e in d.edges && e.target == a
    {
      FilterAscending(n.edges, LeavesNode(a), EdgeId());
      FilterAscending(n.edges, EntersNode(a), EdgeId());
    }
    FilterAscending(n.edges, DeclaredLoop(), EdgeId());
    hide EdgesFrom;
  }

  lemma GroupsAreDescribed(d: Definition, data: bool, plan: Plan)
    requires Accepted(d, data) && IsPlan(d, data, plan)
    ensures GroupsDescribed(d, plan)
  {
    hide *;
    PlanFields(d, data, plan);
    NormalLists(d, data);
    GroupsAre(d, Normalize(d), plan);
  }

  lemma GroupsAre(d: Definition, n: Definition, plan: Plan)
    requires Ascending(n.nodes, NodeId()) && Ascending(n.edges, EdgeId())
    requires (forall x :: x in n.nodes <==> x in d.nodes) && (forall e :: e in n.edges <==> e in d.edges)
    requires plan.groups == Groups(n.edges, Filter(n.nodes, ForkNode()))
    ensures GroupsDescribed(d, plan)
  {
    var forks := Filter(n.nodes, ForkNode());
    FilterAscending(n.nodes, ForkNode(), NodeId());
    hide Filter, GroupDescribed, GroupsDescribed, Ascending;
    forall i | 0 <= i < |forks|
      ensures plan.groups[i].fork == forks[i].id && GroupDescribed(d, forks[i], plan.groups[i])
    {
      assert forks[i] in forks;
      GroupIs(d, n.edges, forks[i]);
    }
    GroupsFrom(d, forks, plan);
  }

  /** `GroupsDescribed` from one group per broadcasting router. */
  lemma GroupsFrom(d: Definition, forks: seq<Node>, plan: Plan)
    requires |plan.groups| == |forks| && Ascending(forks, NodeId())
    requires forall m :: m in forks <==> m in d.nodes && m.kind.Router? && m.broadcast
    requires forall i :: 0 <= i < |forks| ==> plan.groups[i].fork == forks[i].id && GroupDescribed(d, forks[i], plan.groups[i])
    ensures GroupsDescribed(d, plan)
  {
    hide GroupDescribed;
    forall i, j | 0 <= i < j < |plan.groups|
      ensures ForkOf()(plan.groups[i]) < ForkOf()(plan.groups[j])
    {
      assert NodeId()(forks[i]) < NodeId()(forks[j]);
    }
    forall m | m in d.nodes && m.kind.Router? && m.broadcast
      ensures exists g :: g in plan.groups && g.fork == m.id
    {
      assert m in forks;
      var i :| 0 <= i < |forks| && forks[i] == m;
      assert plan.groups[i] in plan.groups;
    }
    forall g | g in plan.groups
      ensures exists m :: m in d.nodes && GroupDescribed(d, m, g)
    {
      var i :| 0 <= i < |plan.groups| && plan.groups[i] == g;
      assert forks[i] in forks;
    }
  }

  lemma GroupIs(d: Definition, edges: seq<Edge>, n: Node)
    requires Ascending(edges, EdgeId()) && (forall e :: e in edges <==> e in d.edges) && IsFork(n)
    ensures GroupDescribed(d, n, GroupOf(edges, n)) && GroupOf(edges, n).fork == n.id
  {
    FilterAscending(edges, LeavesNode(n.id), EdgeId());
    EdgeIdsAscending(EdgesFrom(edges, n.id));
    hide Filter, Sort, Ascending;
  }

  /** Every part of a compiled plan, read against the definition it was compiled from. */
  lemma PlanDescribed(d: Definition, data: bool, plan: Plan)
    requires Accepted(d, data) && IsPlan(d, data, plan)
    ensures Described(d, data, plan)
  {
    NodesAreDescribed(d, data, plan);
    EdgesAreDescribed(d, data, plan);
    GroupsAreDescribed(d, data, plan);
  }

  /** Compiling succeeds exactly on accepted definitions. */
  method Compile(d: Definition, data: bool) returns (result: Result<Plan, seq<Diagnostic>>)
    ensures result.Ok? <==> Accepted(d, data)
    ensures result.Ok? ==> IsPlan(d, data, result.value) && Described(d, data, result.value)
  {
    var diagnostics := Analyze(d, data);
    if diagnostics != [] {
      return Err(diagnostics);
    }
    var n := Normalize(d);
    NormalizePermutes(d);
    AcceptedPermutation(d, n, data);
    AcceptedConnects(n, data);
    var starts := Filter(n.nodes, StartNode());
    DistinctIdsAreDistinct(n.nodes);
    var order := TopologicalOrder(Ids(n.nodes), n.edges);
    result := Ok(PlanOf(n, data, order));
    PlanDescribed(d, data, result.value);
  }

  lemma DistinctIdsAreDistinct(nodes: seq<Node>)
    requires DistinctKeys(nodes, NodeId())
    ensures Distinct(Ids(nodes))
  {
    forall i, j | 0 <= i < j < |nodes|
      ensures Ids(nodes)[i] != Ids(nodes)[j]
    {
      assert NodeId()(nodes[i]) != NodeId()(nodes[j]);
    }
  }

  /** The emitted order of an accepted definition lists every node once, sends every plain edge
      forward, and no other such order is lexicographically smaller. */
  lemma PlanOrder(d: Definition, data: bool, plan: Plan)
    requires Accepted(d, data) && IsPlan(d, data, plan)
    ensures plan.order.Some? && IsTopological(GraphOf(d), plan.order.value)
    ensures forall p :: IsTopological(GraphOf(d), p) ==> plan.order.value == p || LexLess(plan.order.value, p)
  {
    var n := Normalize(d);
    NormalizePermutes(d);
    AcceptedPermutation(d, n, data);
    AcceptedConnects(n, data);
    SameMultisetGraph(d, n);
    OutgoingWellFormed(IdSet(n.nodes), n.edges);
    AcyclicOrderComplete(GraphOf(n), plan.order.value);
    GreedyIsTopological(GraphOf(n), plan.order.value);
    SameShapeTopological(GraphOf(n), GraphOf(d), plan.order.value);
    forall p | IsTopological(GraphOf(d), p)
      ensures plan.order.value == p || LexLess(plan.order.value, p)
    {
      SameShapeTopological(GraphOf(d), GraphOf(n), p);
      GreedyIsLeast(GraphOf(n), plan.order.value, p);
    }
  }

  /** Permuting the node and edge arrays changes neither acceptance nor anything in the plan. */
  lemma PlanIgnoresInputOrder(d: Definition, d': Definition, data: bool, plan: Plan, plan': Plan)
    requires Permuted(d, d') && Accepted(d, data)
    requires IsPlan(d, data, plan) && IsPlan(d', data, plan')
    ensures Accepted(d', data) && plan == plan'
  {
    AcceptedPermutation(d, d', data);
    SortPermutation(d.nodes, d'.nodes, NodeId());
    SortPermutation(d.edges, d'.edges, EdgeId());
    GreedyUnique(GraphOf(Normalize(d)), plan.order.value, plan'.order.value, 0);
  }

  // ----- acceptance depends on the node and edge multisets only

  /** Same nodes, same edges, same plain edges; only the order of the lists may differ. */
  ghost predicate SameShape(g: Outgoing, h: Outgoing) {
    && g.Keys == h.Keys
    && (forall a, b :: HasEdge(g, a, b) <==> HasEdge(h, a, b))
    && (forall a, b :: HasEdge(PlainGraph(g), a, b) <==> HasEdge(PlainGraph(h), a, b))
  }

  lemma SameShapeTopological(g: Outgoing, h: Outgoing, p: seq<Id>)
    requires SameShape(g, h) && IsTopological(g, p)
    ensures IsTopological(h, p)
  {
  }

  lemma SameEdgesSameReach(g: Outgoing, h: Outgoing, a: Id, b: Id)
    requires forall x, y :: HasEdge(g, x, y) ==> HasEdge(h, x, y)
    requires Reach(g, a, b)
    ensures Reach(h, a, b)
  {
    var w :| WalkFromTo(g, a, b, w);
    assert WalkFromTo(h, a, b, w);
  }

  lemma SameShapeAcyclic(g: Outgoing, h: Outgoing)
    requires SameShape(g, h) && PlainAcyclic(g)
    ensures PlainAcyclic(h)
  {
    forall a, b | HasEdge(PlainGraph(h), a, b)
      ensures !Reach(PlainGraph(h), b, a)
    {
      if Reach(PlainGraph(h), b, a) {
        SameEdgesSameReach(PlainGraph(h), PlainGraph(g), b, a);
      }
    }
  }

  lemma SameShapeEscapes(g: Outgoing, h: Outgoing, target: Id, blocked: Id, w: seq<Id>)
    requires SameShape(g, h) && Escapes(g, target, blocked, w)
    ensures Escapes(h, target, blocked, w)
  {
  }

  lemma SameShapeAlwaysReaches(g: Outgoing, h: Outgoing, start: Id, target: Id, blocked: Id)
    requires SameShape(g, h) && AlwaysReaches(g, start, target, blocked)
    ensures AlwaysReaches(h, start, target, blocked)
  {
    forall w | |w| > 0 && w[0] == start
      ensures !Escapes(h, target, blocked, w)
    {
      if Escapes(h, target, blocked, w) {
        SameShapeEscapes(h, g, target, blocked, w);
      }
    }
  }

  lemma SameShapeReaches(g: Outgoing, h: Outgoing, fork: Id, join: Id, x: Id)
    requires SameShape(g, h) && fork in g && InRegion(g, fork, join, x)
    ensures InRegion(h, fork, join, x)
  {
    var w :| IsWalk(g, w) && w[0] in Targets(g[fork]) && w[|w| - 1] == x && Elements(w) !! {fork, join};
    assert IsWalk(h, w);
    var i :| 0 <= i < |g[fork]| && Targets(g[fork])[i] == w[0];
    assert HasEdge(g, fork, w[0]);
    var j :| 0 <= j < |h[fork]| && h[fork][j].target == w[0];
    assert Targets(h[fork])[j] == w[0];
  }

  lemma SameMultisetGraph(d: Definition, d': Definition)
    requires Permuted(d, d')
    ensures IdSet(d.nodes) == IdSet(d'.nodes)
    ensures SameShape(GraphOf(d), GraphOf(d'))
  {
    SameMultisetSameMembers(d.nodes, d'.nodes);
    SameMultisetSameMembers(d.edges, d'.edges);
    NodesHaveIds(d.nodes);
    NodesHaveIds(d'.nodes);
    forall x
      ensures x in IdSet(d.nodes) <==> x in IdSet(d'.nodes)
    {
    }
    forall a, b
      ensures HasEdge(GraphOf(d), a, b) <==> HasEdge(GraphOf(d'), a, b)
      ensures HasEdge(PlainGraph(GraphOf(d)), a, b) <==> HasEdge(PlainGraph(GraphOf(d')), a, b)
    {
      OutgoingEdge(IdSet(d.nodes), d.edges, a, b);
      OutgoingEdge(IdSet(d.nodes), d'.edges, a, b);
      PlainOutgoingEdge(IdSet(d.nodes), d.edges, a, b);
      PlainOutgoingEdge(IdSet(d.nodes), d'.edges, a, b);
    }
  }

  lemma FilterAround<T>(before: seq<T>, x: T, after: seq<T>, p: T -> bool)
    ensures Filter(before + [x] + after, p) == Filter(before, p) + (if p(x) then [x] else []) + Filter(after, p)
  {
    hide Filter;
    FilterConcat(before + [x], after, p);
    FilterSnoc(before, x, p);
  }

  lemma FilterSplit<T>(t: seq<T>, k: nat, p: T -> bool)
    requires k < |t|
    ensures multiset(Filter(t, p)) ==
            multiset(Filter(t[..k] + t[k + 1..], p)) + if p(t[k]) then multiset{t[k]} else multiset{}
  {
    hide Filter;
    var before, after := t[..k], t[k + 1..];
    assert t == before + [t[k]] + after;
    FilterAround(before, t[k], after, p);
    FilterConcat(before, after, p);
  }

  lemma MultisetSplit<T>(t: seq<T>, k: nat)
    requires k < |t|
    ensures multiset(t) == multiset(t[..k] + t[k + 1..]) + multiset{t[k]}
  {
    assert t == t[..k] + [t[k]] + t[k + 1..];
  }

  lemma SameTail<T>(s: seq<T>, t: seq<T>, k: nat)
    requires multiset(s) == multiset(t) && s != [] && k < |t| && t[k] == s[0]
    ensures multiset(s[1..]) == multiset(t[..k] + t[k + 1..])
  {
    TailMultiset(s);
    MultisetSplit(t, k);
  }

  lemma FilterStep<T>(s: seq<T>, t: seq<T>, k: nat, p: T -> bool)
    requires s != [] && k < |t| && t[k] == s[0]
    requires multiset(Filter(s[1..], p)) == multiset(Filter(t[..k] + t[k + 1..], p))
    ensures multiset(Filter(s, p)) == multiset(Filter(t, p))
  {
    FilterSplit(t, k, p);
    var x := if p(s[0]) then [s[0]] else [];
    assert Filter(s, p) == x + Filter(s[1..], p);
    hide Filter;
  }

  lemma SameSizes<T>(s: seq<T>, t: seq<T>)
    requires multiset(s) == multiset(t)
    ensures |s| == |t|
  {
    assert |s| == |multiset(s)| && |t| == |multiset(t)|;
  }

  lemma {:induction false} FilterPermutation<T>(s: seq<T>, t: seq<T>, p: T -> bool)
    requires multiset(s) == multiset(t)
    ensures multiset(Filter(s, p)) == multiset(Filter(t, p)) && |Filter(s, p)| == |Filter(t, p)|
    decreases |s|
  {
    SameSizes(s, t);
    if s != [] {
      hide Filter;
      assert s[0] in multiset(s);
      var k :| 0 <= k < |t| && t[k] == s[0];
      SameTail(s, t, k);
      FilterPermutation(s[1..], t[..k] + t[k + 1..], p);
      FilterStep(s, t, k, p);
      SameSizes(Filter(s, p), Filter(t, p));
    }
  }

  lemma EdgesOkPermutation(ids: set<Id>, data: bool, s: seq<Edge>, t: seq<Edge>)
    requires multiset(s) == multiset(t) && EdgesOk(ids, data, s)
    ensures EdgesOk(ids, data, t)
  {
    SameMultisetSameMembers(s, t);
    DistinctKeysPermutation(s, t, EdgeId());
    forall i | 0 <= i < |t|
      ensures EdgeOk(ids, data, t[i])
    {
      assert t[i] in t;
      var k :| 0 <= k < |s| && s[k] == t[i];
    }
    forall i, j | 0 <= i < j < |t|
      ensures !SameRoute(t[i], t[j])
    {
      assert t[i] in t && t[j] in t;
      var k :| 0 <= k < |s| && s[k] == t[i];
      var m :| 0 <= m < |s| && s[m] == t[j];
      assert EdgeId()(t[i]) != EdgeId()(t[j]);
    }
  }

  lemma EdgesFromPermutation(d: Definition, d': Definition, a: Id)
    requires Permuted(d, d')
    ensures |EdgesFrom(d.edges, a)| == |EdgesFrom(d'.edges, a)|
    ensures forall e :: e in EdgesFrom(d.edges, a) <==> e in EdgesFrom(d'.edges, a)
  {
    FilterPermutation(d.edges, d'.edges, LeavesNode(a));
    SameMultisetSameMembers(EdgesFrom(d.edges, a), EdgesFrom(d'.edges, a));
  }

  lemma TerminalsPermutation(d: Definition, d': Definition, data: bool)
    requires Permuted(d, d')
    ensures |Terminals(d, data)| == |Terminals(d', data)|
    ensures forall n :: n in Terminals(d, data) <==> n in Terminals(d', data)
  {
    SameMultisetSameMembers(d.nodes, d'.nodes);
    TerminalMembers(d, data);
    TerminalMembers(d', data);
    forall n
      ensures TerminalNode(data, d.edges)(n) == TerminalNode(data, d'.edges)(n)
    {
      EdgesFromPermutation(d, d', n.id);
    }
    FilterPermutation(d.nodes, d'.nodes, TerminalNode(data, d.edges));
    FilterAgree(d'.nodes, TerminalNode(data, d.edges), TerminalNode(data, d'.edges));
  }

  lemma {:induction false} FilterAgree<T>(s: seq<T>, p: T -> bool, q: T -> bool)
    requires forall x :: x in s ==> p(x) == q(x)
    ensures Filter(s, p) == Filter(s, q)
  {
    if s != [] {
      FilterAgree(s[1..], p, q);
    }
  }

  lemma ForkPermutation(d: Definition, d': Definition, fork: Node)
    requires Permuted(d, d') && fork.id in GraphOf(d) && fork.id in GraphOf(d')
    requires SameShape(GraphOf(d), GraphOf(d')) && ForkOk(d, GraphOf(d), fork)
    ensures ForkOk(d', GraphOf(d'), fork)
  {
    var g, h := GraphOf(d), GraphOf(d');
    SameMultisetSameMembers(d.nodes, d'.nodes);
    SameMultisetSameMembers(d.edges, d'.edges);
    EdgesFromPermutation(d, d', fork.id);
    FilterPermutation(d.edges, d'.edges, EntersNode(fork.joinNodeId));
    forall e: Edge | e in h[fork.id]
      ensures AlwaysReaches(h, e.target, fork.joinNodeId, fork.id)
    {
      assert e in g[fork.id];
      SameShapeAlwaysReaches(g, h, e.target, fork.joinNodeId, fork.id);
    }
    forall e | e in d'.edges && IsLoop(e)
      ensures !CrossesRegion(h, fork.id, fork.joinNodeId, e)
    {
      assert e in d.edges;
      RegionPermutation(g, h, fork.id, fork.joinNodeId, e.source);
      RegionPermutation(g, h, fork.id, fork.joinNodeId, e.target);
    }
  }

  lemma RegionPermutation(g: Outgoing, h: Outgoing, fork: Id, join: Id, x: Id)
    requires SameShape(g, h) && fork in g && fork in h
    ensures InRegion(g, fork, join, x) <==> InRegion(h, fork, join, x)
  {
    if InRegion(g, fork, join, x) {
      SameShapeReaches(g, h, fork, join, x);
    }
    if InRegion(h, fork, join, x) {
      SameShapeReaches(h, g, fork, join, x);
    }
  }

  lemma CardinalityPermutation(d: Definition, d': Definition, data: bool)
    requires Permuted(d, d') && CardinalityOk(d, data)
    ensures CardinalityOk(d', data)
  {
    SameMultisetSameMembers(d.nodes, d'.nodes);
    FilterPermutation(d.nodes, d'.nodes, StartNode());
    FilterPermutation(d.nodes, d'.nodes, EndNode());
    TerminalsPermutation(d, d', data);
  }

  lemma StartEndPermutation(d: Definition, d': Definition)
    requires Permuted(d, d')
    ensures EndsOk(d) ==> EndsOk(d')
    ensures forall x :: StartOk(d, x) ==> StartOk(d', x)
  {
    SameMultisetSameMembers(d.nodes, d'.nodes);
    SameMultisetSameMembers(d.edges, d'.edges);
    forall x
      ensures EdgesFrom(d.edges, x) == [] <==> EdgesFrom(d'.edges, x) == []
    {
      EdgesFromPermutation(d, d', x);
    }
  }

  lemma ReachPermutation(d: Definition, d': Definition, data: bool)
    requires Permuted(d, d') && SameShape(GraphOf(d), GraphOf(d')) && ReachOk(d, data, GraphOf(d))
    ensures ReachOk(d', data, GraphOf(d'))
  {
    SameMultisetSameMembers(d.nodes, d'.nodes);
    TerminalsPermutation(d, d', data);
    hide Reach, GraphOf, Terminals, Permuted, StartNode;
    var g, h := GraphOf(d), GraphOf(d');
    forall a, b | Reach(g, a, b)
      ensures Reach(h, a, b)
    {
      SameEdgesSameReach(g, h, a, b);
    }
    hide SameShape, HasEdge;
    forall n | n in d'.nodes
      ensures OnRoute(d', data, h, n)
    {
      assert n in d.nodes && OnRoute(d, data, g, n);
    }
  }

  lemma ForksPermutation(d: Definition, d': Definition)
    requires Permuted(d, d') && IdSet(d.nodes) == IdSet(d'.nodes)
    requires SameShape(GraphOf(d), GraphOf(d')) && ForksOk(d, GraphOf(d))
    ensures ForksOk(d', GraphOf(d'))
  {
    SameMultisetSameMembers(d.nodes, d'.nodes);
    forall n | n in d'.nodes && IsFork(n)
      ensures n.id in GraphOf(d') && ForkOk(d', GraphOf(d'), n)
    {
      assert n in d.nodes;
      ForkPermutation(d, d', n);
    }
  }

  lemma LoopEdgesPermutation(d: Definition, d': Definition)
    requires Permuted(d, d') && SameShape(GraphOf(d), GraphOf(d'))
    requires LoopChecks.LoopEdgesAreCyclic(GraphOf(d), d.edges)
    ensures LoopChecks.LoopEdgesAreCyclic(GraphOf(d'), d'.edges)
  {
    SameMultisetSameMembers(d.edges, d'.edges);
    forall e | e in d'.edges && IsLoop(e)
      ensures Reach(GraphOf(d'), e.target, e.source)
    {
      assert e in d.edges;
      SameEdgesSameReach(GraphOf(d), GraphOf(d'), e.target, e.source);
    }
  }

  lemma AcceptedPermutation(d: Definition, d': Definition, data: bool)
    requires Permuted(d, d') && Accepted(d, data)
    ensures Accepted(d', data)
  {
    SameMultisetGraph(d, d');
    SameMultisetSameMembers(d.nodes, d'.nodes);
    hide EdgesOk, CardinalityOk, StartOk, EndsOk, ReachOk, ForksOk, PlainAcyclic, SameShape, GraphOf;
    hide LoopChecks.LoopEdgesAreCyclic;
    DistinctKeysPermutation(d.nodes, d'.nodes, NodeId());
    EdgesOkPermutation(IdSet(d.nodes), data, d.edges, d'.edges);
    CardinalityPermutation(d, d', data);
    StartEndPermutation(d, d');
    ReachPermutation(d, d', data);
    ForksPermutation(d, d');
    SameShapeAcyclic(GraphOf(d), GraphOf(d'));
    LoopEdgesPermutation(d, d');
  }
}
