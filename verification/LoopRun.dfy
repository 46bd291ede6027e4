/** Runs of an accepted definition: successor cursors, the bound on visits, and visit identity. */
module LoopRun {
  import opened Workflow
  import opened Graphs
  import opened PathChecks
  import opened Sorting
  import opened Topology
  import opened LoopCursor
  import opened Compiler

  // ----- successors

  /** `handle` is the explicit outcome when one was chosen. */
  function Selected(source: Id, target: Id, handle: Option<string>): Edge -> bool {
    (e: Edge) => e.source == source && e.target == target && (handle.None? || e.handle == handle.value)
  }

  ghost predicate CrossesLoop(selected: seq<Edge>, edge: Id) {
    exists i :: 0 <= i < |selected| && IsLoop(selected[i]) && selected[i].id == edge
  }

  /** The successor counts one more traversal for each selected loop edge and nothing else. */
  ghost predicate SuccessorCursor(c: Cursor, selected: seq<Edge>, s: Cursor) {
    Canonical(s) && forall e :: CountOf(s, e) == CountOf(c, e) + One(CrossesLoop(selected, e))
  }

  ghost predicate CanFollow(c: Cursor, selected: seq<Edge>) {
    && selected != []
    && forall i :: 0 <= i < |selected| && IsLoop(selected[i]) ==>
                     PolicyOk(selected[i]) && CountOf(c, selected[i].id) < selected[i].loop.value
  }

  /** Advance along every selected edge, then merge. */
  method FollowSelected(c: Cursor, selected: seq<Edge>) returns (r: Result<Cursor, Error>)
    requires Canonical(c)
    ensures r.Ok? <==> CanFollow(c, selected)
    ensures r.Ok? ==> SuccessorCursor(c, selected, r.value)
  {
    if selected == [] {
      return Err(MissingSuccessor);
    }
    var advanced: seq<Raw> := [];
    for i := 0 to |selected|
      invariant |advanced| == i
      invariant forall k :: 0 <= k < i ==> ValidRaw(advanced[k]) && Advanced(c, selected[k], advanced[k].traversals)
      invariant forall k :: 0 <= k < i && IsLoop(selected[k]) ==>
                              PolicyOk(selected[k]) && CountOf(c, selected[k].id) < selected[k].loop.value
    {
      var step := Advance(Stored(1, c), selected[i]);
      if step.Err? {
        return step;
      }
      advanced := advanced + [Stored(1, step.value)];
    }
    r := Merge(advanced);
    MergedAdvances(c, selected, Unwrap(advanced), r.value);
  }

  lemma MergedAdvances(c: Cursor, selected: seq<Edge>, advanced: seq<Cursor>, m: Cursor)
    requires Canonical(c) && |advanced| == |selected| > 0 && IsMerge(advanced, m)
    requires forall k :: 0 <= k < |selected| ==> Advanced(c, selected[k], advanced[k])
    ensures SuccessorCursor(c, selected, m)
  {
    forall e
      ensures CountOf(m, e) == CountOf(c, e) + One(CrossesLoop(selected, e))
    {
      MaxCountBounds(advanced, e);
      CountRange(c, e);
      assert Advanced(c, selected[0], advanced[0]);
      if CrossesLoop(selected, e) {
        var i :| 0 <= i < |selected| && IsLoop(selected[i]) && selected[i].id == e;
        assert Advanced(c, selected[i], advanced[i]);
      }
    }
  }

  /** `workflowLoopSuccessorCursors`: one cursor per successor node. */
  method SuccessorCursors(value: Raw, edges: seq<Edge>, source: Id, next: seq<Id>, handle: Option<string>)
    returns (r: Result<seq<Cursor>, Error>)
    ensures r.Ok? <==>
            ValidRaw(value) && PoliciesOk(edges) && WithinLimits(value.traversals, edges) &&
            forall i :: 0 <= i < |next| ==> CanFollow(value.traversals, Filter(edges, Selected(source, next[i], handle)))
    ensures r.Ok? ==> |r.value| == |next| && forall i :: 0 <= i < |next| ==>
                        SuccessorCursor(value.traversals, Filter(edges, Selected(source, next[i], handle)), r.value[i])
  {
    var cursor := Validate(value, edges);
    if cursor.Err? {
      return Err(cursor.error);
    }
    var cursors: seq<Cursor> := [];
    for i := 0 to |next|
      invariant |cursors| == i
      invariant forall k :: 0 <= k < i ==>
                  CanFollow(value.traversals, Filter(edges, Selected(source, next[k], handle))) &&
                  SuccessorCursor(value.traversals, Filter(edges, Selected(source, next[k], handle)), cursors[k])
    {
      var step := FollowSelected(cursor.value, Filter(edges, Selected(source, next[i], handle)));
      if step.Err? {
        return Err(step.error);
      }
      cursors := cursors + [step.value];
    }
    r := Ok(cursors);
  }

  /** Which edges those are, and what they add: those from the source to the successor with the
      chosen outcome, each declared loop among them below its limit and counted once more. */
  lemma FollowedEdges(edges: seq<Edge>, source: Id, target: Id, handle: Option<string>, c: Cursor, s: Cursor)
    ensures CanFollow(c, Filter(edges, Selected(source, target, handle))) <==>
            && (exists e :: e in edges && e.source == source && e.target == target && (handle.None? || handle == Some(e.handle)))
            && (forall e :: e in edges && e.source == source && e.target == target && (handle.None? || handle == Some(e.handle)) &&
                            IsLoop(e) ==>
                              !IsBlank(e.id) && 1 <= e.loop.value <= 1000 && CountOf(c, e.id) < e.loop.value)
    ensures SuccessorCursor(c, Filter(edges, Selected(source, target, handle)), s) <==>
            && Canonical(s)
            && (forall id :: CountOf(s, id) ==
                             CountOf(c, id) + if Counts(edges, source, target, handle, id) then 1 else 0)
  {
    var selected := Filter(edges, Selected(source, target, handle));
    FilterMembers(edges, Selected(source, target, handle));
    hide Filter, CountOf, Canonical;
    if e :| e in edges && e.source == source && e.target == target && (handle.None? || handle == Some(e.handle)) {
      assert e in selected;
    }
    if selected != [] { assert selected[0] in selected; }
    assert forall i :: 0 <= i < |selected| ==> selected[i] in selected;
    forall id ensures CrossesLoop(selected, id) <==> Counts(edges, source, target, handle, id) {
      if Counts(edges, source, target, handle, id) {
        var e :| e in edges && e.source == source && e.target == target && (handle.None? || handle == Some(e.handle)) &&
                 IsLoop(e) && e.id == id;
        assert e in selected;
      }
    }
  }

  /** A declared loop edge with this id leads from the source to the target on the chosen outcome. */
  ghost predicate Counts(edges: seq<Edge>, source: Id, target: Id, handle: Option<string>, id: Id) {
    exists e :: e in edges && e.source == source && e.target == target && (handle.None? || handle == Some(e.handle)) &&
                IsLoop(e) && e.id == id
  }

  // ----- runs

  datatype Visit = Visit(node: Id, cursor: Cursor)

  /** A branch moves to a successor node, with the cursor computed for it. */
  ghost predicate Follow(edges: seq<Edge>, u: Visit, v: Visit) {
    && Canonical(u.cursor) && WithinLimits(u.cursor, edges)
    && exists handle ::
         var selected := Filter(edges, Selected(u.node, v.node, handle));
         CanFollow(u.cursor, selected) && SuccessorCursor(u.cursor, selected, v.cursor)
  }

  /** A task that is executed automatically queues its successor with the cursor it runs with itself,
      which no traversal has been added to.  `copied` holds the ids of the edges it does so along. */
  ghost predicate Copy(edges: seq<Edge>, copied: set<Id>, u: Visit, v: Visit) {
    && v.cursor == u.cursor
    && exists e :: e in edges && e.id in copied && e.source == u.node && e.target == v.node
  }

  /** A cursor that a join may leave where a branch arrived with `c`: whatever the other branches
      bring along, the merge lies above `c` and within the limits. */
  ghost predicate RaisedTo(edges: seq<Edge>, c: Cursor, raised: Cursor) {
    Canonical(raised) && WithinLimits(raised, edges) && Leq(c, raised)
  }

  /** One move of an execution from visit to visit: along edges and, at a join, on with the merge. */
  ghost predicate Step(edges: seq<Edge>, u: Visit, v: Visit) {
    exists mid :: Follow(edges, u, Visit(v.node, mid)) && RaisedTo(edges, mid, v.cursor)
  }

  /** Away from joins the computed cursor is kept. */
  lemma FollowIsStep(edges: seq<Edge>, u: Visit, v: Visit)
    requires DistinctKeys(edges, EdgeId()) && Follow(edges, u, v)
    ensures Step(edges, u, v)
  {
    FollowKeepsLimits(edges, u, v);
    assert Follow(edges, u, Visit(v.node, v.cursor));
  }

  /** The merge of cursors within the limits lies above each of them. */
  lemma MergeRaises(edges: seq<Edge>, values: seq<Cursor>, i: nat, merged: Cursor)
    requires i < |values| && IsMerge(values, merged)
    requires forall k :: 0 <= k < |values| ==> WithinLimits(values[k], edges)
    ensures RaisedTo(edges, values[i], merged)
  {
    MergeIsLeastUpperBound(values, merged);
    MergeWithinLimits(values, merged, edges);
  }

  /** At a join the continuing visit carries the merge of all branches' cursors, one of which is the
      arriving branch's own. */
  lemma MergeIsStep(edges: seq<Edge>, u: Visit, v: Visit, values: seq<Cursor>, i: nat)
    requires i < |values| && Follow(edges, u, Visit(v.node, values[i])) && IsMerge(values, v.cursor)
    requires forall k :: 0 <= k < |values| ==> WithinLimits(values[k], edges)
    ensures Step(edges, u, v)
  {
    MergeRaises(edges, values, i, v.cursor);
  }

  /** A walk from the start node with the empty cursor. */
  ghost predicate IsRun(d: Definition, run: seq<Visit>) {
    && run != []
    && (exists s :: s in d.nodes && StartNode()(s) && run[0] == Visit(s.id, []))
    && (forall i :: 0 <= i < |run| - 1 ==> Step(d.edges, run[i], run[i + 1]))
  }

  /** All traversals counted for the declared loops. */
  function TotalOver(edges: seq<Edge>, c: Cursor): int {
    if edges == [] then 0
    else (if IsLoop(edges[0]) then CountOf(c, edges[0].id) else 0) + TotalOver(edges[1..], c)
  }

  /** The sum of all `maxIterations`. */
  function TotalLimit(edges: seq<Edge>): int {
    if edges == [] then 0 else (if IsLoop(edges[0]) then edges[0].loop.value else 0) + TotalLimit(edges[1..])
  }

  lemma {:induction false} TotalBounded(edges: seq<Edge>, c: Cursor)
    requires forall i :: 0 <= i < |edges| && IsLoop(edges[i]) ==> 0 <= CountOf(c, edges[i].id) <= edges[i].loop.value
    ensures 0 <= TotalOver(edges, c) <= TotalLimit(edges)
  {
    if edges != [] {
      TotalBounded(edges[1..], c);
    }
  }

  lemma {:induction false} TotalMonotone(edges: seq<Edge>, c: Cursor, d: Cursor, raised: Option<Id>)
    requires Leq(c, d)
    requires raised.Some? ==> CountOf(c, raised.value) < CountOf(d, raised.value)
    ensures TotalOver(edges, c) <= TotalOver(edges, d)
    ensures raised.Some? && (exists i :: 0 <= i < |edges| && IsLoop(edges[i]) && edges[i].id == raised.value) ==>
              TotalOver(edges, c) < TotalOver(edges, d)
  {
    if edges != [] {
      TotalMonotone(edges[1..], c, d, raised);
      if i :| 0 < i < |edges| && IsLoop(edges[i]) && raised.Some? && edges[i].id == raised.value {
        assert edges[1..][i - 1] == edges[i];
      }
    }
  }

  lemma LimitsBoundCounts(c: Cursor, edges: seq<Edge>, i: nat)
    requires Canonical(c) && WithinLimits(c, edges) && DistinctKeys(edges, EdgeId())
    requires i < |edges| && IsLoop(edges[i]) && 1 <= edges[i].loop.value
    ensures 0 <= CountOf(c, edges[i].id) <= edges[i].loop.value
  {
    CountRange(c, edges[i].id);
    if CountOf(c, edges[i].id) != 0 {
      var p := CountOfPresent(c, edges[i].id);
      assert Limited(c[p], edges);
      var k :| 0 <= k < |edges| && IsLoop(edges[k]) && edges[k].id == c[p].edge && c[p].count <= edges[k].loop.value;
      assert EdgeId()(edges[i]) == EdgeId()(edges[k]);
    }
  }

  function Position(order: seq<Id>, x: Id): (p: nat)
    requires x in order
    ensures p < |order| && order[p] == x
  {
    if order[0] == x then 0 else 1 + Position(order[1..], x)
  }

  /** The measure that every step raises: spent loop budget first, topological rank second. */
  function Progress(edges: seq<Edge>, order: seq<Id>, v: Visit): int
    requires v.node in order
  {
    TotalOver(edges, v.cursor) * |order| + Position(order, v.node)
  }

  lemma LexicographicRise(t: int, t': int, n: nat, p: nat, p': nat)
    requires p < n && p' < n && t <= t' && (t == t' ==> p < p')
    ensures t * n + p < t' * n + p'
  {
    if t < t' {
      var k := t' - t - 1;
      assert t' * n == t * n + k * n + n;
      assert k * n >= 0;
    }
  }

  lemma SelectedEdges(edges: seq<Edge>, source: Id, target: Id, handle: Option<string>)
    ensures forall e :: e in Filter(edges, Selected(source, target, handle)) ==>
                          e in edges && e.source == source && e.target == target
  {
    FilterMembers(edges, Selected(source, target, handle));
  }

  lemma FollowRaisesProgress(d: Definition, order: seq<Id>, u: Visit, v: Visit)
    requires Connects(IdSet(d.nodes), d.edges) && IsTopological(GraphOf(d), order)
    requires Follow(d.edges, u, v) && u.node in order && v.node in order
    ensures Progress(d.edges, order, u) < Progress(d.edges, order, v)
  {
    hide IsTopological, Connects, IdSet, GraphOf, TotalOver;
    var handle :| var selected := Filter(d.edges, Selected(u.node, v.node, handle));
                  CanFollow(u.cursor, selected) && SuccessorCursor(u.cursor, selected, v.cursor);
    var selected := Filter(d.edges, Selected(u.node, v.node, handle));
    SelectedEdges(d.edges, u.node, v.node, handle);
    var p, p' := Position(order, u.node), Position(order, v.node);
    var t, t' := TotalOver(d.edges, u.cursor), TotalOver(d.edges, v.cursor);
    if i :| 0 <= i < |selected| && IsLoop(selected[i]) {
      assert selected[i] in selected;
      var k :| 0 <= k < |d.edges| && d.edges[k] == selected[i];
      assert CrossesLoop(selected, selected[i].id);
      TotalMonotone(d.edges, u.cursor, v.cursor, Some(selected[i].id));
    } else {
      TotalMonotone(d.edges, u.cursor, v.cursor, None);
      assert selected[0] in selected;
      PlainEdgeForward(d, order, u.node, v.node, selected[0]);
    }
    LexicographicRise(t, t', |order|, p, p');
  }

  /** Copied edges point forward in the order, declared loops or not. */
  ghost predicate CopiesForward(edges: seq<Edge>, copied: set<Id>, order: seq<Id>) {
    forall e :: e in edges && e.id in copied ==>
                  e.source in order && e.target in order && Position(order, e.source) < Position(order, e.target)
  }

  lemma CopyRaisesProgress(edges: seq<Edge>, copied: set<Id>, order: seq<Id>, u: Visit, v: Visit)
    requires CopiesForward(edges, copied, order) && Copy(edges, copied, u, v)
    ensures u.node in order && v.node in order && Progress(edges, order, u) < Progress(edges, order, v)
  {
  }

  /** Raising the cursor on the spot never lowers progress. */
  lemma RaiseKeepsProgress(edges: seq<Edge>, order: seq<Id>, node: Id, c: Cursor, raised: Cursor)
    requires node in order && Leq(c, raised)
    ensures Progress(edges, order, Visit(node, c)) <= Progress(edges, order, Visit(node, raised))
  {
    hide TotalOver;
    TotalMonotone(edges, c, raised, None);
    var t, t' := TotalOver(edges, c), TotalOver(edges, raised);
    assert (t' - t) * |order| >= 0;
    assert t' * |order| == t * |order| + (t' - t) * |order|;
  }

  lemma StepRaisesProgress(d: Definition, order: seq<Id>, u: Visit, v: Visit)
    requires Connects(IdSet(d.nodes), d.edges) && IsTopological(GraphOf(d), order)
    requires Step(d.edges, u, v) && u.node in order && v.node in order
    ensures Progress(d.edges, order, u) < Progress(d.edges, order, v)
  {
    var mid :| Follow(d.edges, u, Visit(v.node, mid)) && RaisedTo(d.edges, mid, v.cursor);
    hide IsTopological, Connects, IdSet, GraphOf, Progress, Follow;
    FollowRaisesProgress(d, order, u, Visit(v.node, mid));
    RaiseKeepsProgress(d.edges, order, v.node, mid, v.cursor);
  }

  lemma PlainEdgeForward(d: Definition, order: seq<Id>, a: Id, b: Id, e: Edge)
    requires Connects(IdSet(d.nodes), d.edges) && IsTopological(GraphOf(d), order)
    requires a in order && b in order && e in d.edges && e.source == a && e.target == b && !IsLoop(e)
    ensures Position(order, a) < Position(order, b)
  {
    PlainOutgoingEdge(IdSet(d.nodes), d.edges, a, b);
    assert HasEdge(PlainGraph(GraphOf(d)), order[Position(order, a)], order[Position(order, b)]);
  }

  lemma {:induction false} RunStaysInside(d: Definition, order: seq<Id>, run: seq<Visit>, i: nat)
    requires Connects(IdSet(d.nodes), d.edges) && IsTopological(GraphOf(d), order)
    requires IsRun(d, run) && i < |run|
    ensures run[i].node in order
  {
    NodesHaveIds(d.nodes);
    assert forall x :: x in Elements(order) ==> x in order;
    if i > 0 {
      assert Step(d.edges, run[i - 1], run[i]);
      var mid :| Follow(d.edges, run[i - 1], Visit(run[i].node, mid));
      FollowStaysInside(d, order, run[i - 1], Visit(run[i].node, mid));
    }
  }

  lemma FollowStaysInside(d: Definition, order: seq<Id>, u: Visit, v: Visit)
    requires Connects(IdSet(d.nodes), d.edges) && Elements(order) == GraphOf(d).Keys && Follow(d.edges, u, v)
    ensures v.node in order
  {
    var handle :| CanFollow(u.cursor, Filter(d.edges, Selected(u.node, v.node, handle)));
    SelectedEdges(d.edges, u.node, v.node, handle);
    assert Filter(d.edges, Selected(u.node, v.node, handle))[0] in d.edges;
    assert forall x :: x in Elements(order) ==> x in order;
  }

  /** Progress grows by at least one per visit. */
  lemma {:induction false} ProgressGrows(d: Definition, order: seq<Id>, run: seq<Visit>, i: nat, j: nat)
    requires Connects(IdSet(d.nodes), d.edges) && IsTopological(GraphOf(d), order)
    requires IsRun(d, run) && i <= j < |run| && run[i].node in order && run[j].node in order
    ensures Progress(d.edges, order, run[i]) + (j - i) <= Progress(d.edges, order, run[j])
    decreases j - i
  {
    if i < j {
      RunStaysInside(d, order, run, i + 1);
      assert Step(d.edges, run[i], run[i + 1]);
      StepRaisesProgress(d, order, run[i], run[i + 1]);
      ProgressGrows(d, order, run, i + 1, j);
    }
  }

  ghost predicate DistinctVisits(run: seq<Visit>) {
    forall i, j :: 0 <= i < j < |run| ==> run[i] != run[j]
  }

  /** Along any run of an accepted definition no (node, cursor) pair repeats. */
  lemma VisitsNeverRepeat(d: Definition, data: bool, plan: Plan, run: seq<Visit>)
    requires Accepted(d, data) && IsPlan(d, data, plan) && IsRun(d, run)
    ensures DistinctVisits(run)
  {
    PlanOrder(d, data, plan);
    AcceptedConnects(d, data);
    var order := plan.order.value;
    forall i, j | 0 <= i < j < |run|
      ensures run[i] != run[j]
    {
      RunStaysInside(d, order, run, i);
      RunStaysInside(d, order, run, j);
      ProgressGrows(d, order, run, i, j);
    }
  }

  lemma ProgressBounded(d: Definition, data: bool, order: seq<Id>, v: Visit)
    requires EdgesOk(IdSet(d.nodes), data, d.edges)
    requires v.node in order && Canonical(v.cursor) && WithinLimits(v.cursor, d.edges)
    ensures 0 <= Progress(d.edges, order, v) < (1 + TotalLimit(d.edges)) * |order|
  {
    forall i | 0 <= i < |d.edges| && IsLoop(d.edges[i])
      ensures 0 <= CountOf(v.cursor, d.edges[i].id) <= d.edges[i].loop.value
    {
      assert EdgeOk(IdSet(d.nodes), data, d.edges[i]);
      LimitsBoundCounts(v.cursor, d.edges, i);
    }
    TotalBounded(d.edges, v.cursor);
    ProductBound(TotalOver(d.edges, v.cursor), TotalLimit(d.edges), |order|);
  }

  lemma ProductBound(t: int, limit: int, n: nat)
    requires 0 <= t <= limit
    ensures 0 <= t * n && t * n + n <= (1 + limit) * n
  {
    assert (limit - t) * n >= 0;
  }

  lemma {:induction false} OrderSize(order: seq<Id>, nodes: seq<Node>)
    requires Distinct(order) && Elements(order) == IdSet(nodes) && DistinctKeys(nodes, NodeId())
    ensures |order| == |nodes|
  {
    DistinctIdsAreDistinct(nodes);
    DistinctSize(order);
    DistinctSize(Ids(nodes));
  }

  /** A cursor reached by a step keeps every count within its edge's limit. */
  lemma FollowKeepsLimits(edges: seq<Edge>, u: Visit, v: Visit)
    requires DistinctKeys(edges, EdgeId()) && Follow(edges, u, v)
    ensures Canonical(v.cursor) && WithinLimits(v.cursor, edges)
  {
    var handle :| var selected := Filter(edges, Selected(u.node, v.node, handle));
                  CanFollow(u.cursor, selected) && SuccessorCursor(u.cursor, selected, v.cursor);
    var selected := Filter(edges, Selected(u.node, v.node, handle));
    SelectedEdges(edges, u.node, v.node, handle);
    forall i | 0 <= i < |v.cursor|
      ensures Limited(v.cursor[i], edges)
    {
      var e := v.cursor[i].edge;
      assert EntryOk(v.cursor[i]);
      CountOfEntry(v.cursor, i);
      if CrossesLoop(selected, e) {
        var k :| 0 <= k < |selected| && IsLoop(selected[k]) && selected[k].id == e;
        assert selected[k] in selected;
        var m :| 0 <= m < |edges| && edges[m] == selected[k];
      } else {
        var p := CountOfPresent(u.cursor, e);
        assert Limited(u.cursor[p], edges);
      }
    }
  }

  /** A run of an accepted definition visits at most (1 + sum of maxIterations) * |nodes| nodes. */
  lemma RunsAreBounded(d: Definition, data: bool, plan: Plan, run: seq<Visit>)
    requires Accepted(d, data) && IsPlan(d, data, plan) && IsRun(d, run)
    ensures |run| <= (1 + TotalLimit(d.edges)) * |d.nodes|
  {
    PlanOrder(d, data, plan);
    AcceptedConnects(d, data);
    var order := plan.order.value;
    var last := |run| - 1;
    OrderSize(order, d.nodes);
    RunStaysInside(d, order, run, 0);
    RunStaysInside(d, order, run, last);
    ProgressGrows(d, order, run, 0, last);
    if last > 0 {
      assert Step(d.edges, run[last - 1], run[last]);
    }
    EmptyCursor(d.edges);
    ProgressBounded(d, data, order, run[0]);
    ProgressBounded(d, data, order, run[last]);
  }

  lemma EmptyCursor(edges: seq<Edge>)
    ensures Canonical([]) && WithinLimits([], edges)
  {
  }

  // ----- durable identity of a visit

  /** The hashed payloads, with the hash taken as injective. */
  datatype ExecutionKey =
    | Legacy
    | Root
    | Branch(path: seq<Token>)
    | LoopVisit(path: seq<Token>, traversals: Cursor)

  ghost predicate TokensOk(tokens: seq<Token>) {
    && (forall i :: 0 <= i < |tokens| ==> !IsBlank(tokens[i].frame) && !IsBlank(tokens[i].branch))
    && (forall i, j :: 0 <= i < j < |tokens| ==> tokens[i].frame != tokens[j].frame)
  }

  /** `durableExecutionKey`: which key a version yields, and when it throws. */
  ghost function DurableKey(version: int, tokens: seq<Token>, cursor: Raw): Result<ExecutionKey, Error> {
    if version == 0 then Ok(Legacy)
    else if version != 1 && version != 2 then Err(InvalidPolicy)
    else if !TokensOk(tokens) then Err(InvalidCursor)
    else if version == 1 then Ok(if tokens == [] then Root else Branch(tokens))
    else if !ValidRaw(cursor) then Err(InvalidCursor)
    else Ok(LoopVisit(tokens, Sort(cursor.traversals, TraversedEdge())))
  }

  datatype VisitIdentity = VisitIdentity(scope: seq<Id>, node: Id, key: ExecutionKey)

  lemma CanonicalIsSorted(c: Cursor)
    requires Canonical(c)
    ensures Sort(c, TraversedEdge()) == c
  {
    SortCorrect(c, TraversedEdge());
    SortedUnique(c, Sort(c, TraversedEdge()), TraversedEdge());
  }

  ghost predicate CursorsCanonical(run: seq<Visit>) {
    forall i :: 0 <= i < |run| ==> Canonical(run[i].cursor)
  }

  lemma RunCursorsCanonical(d: Definition, run: seq<Visit>)
    requires IsRun(d, run)
    ensures CursorsCanonical(run)
  {
    forall i | 0 <= i < |run|
      ensures Canonical(run[i].cursor)
    {
      if i > 0 {
        assert Step(d.edges, run[i - 1], run[i]);
      }
    }
  }

  /** Whatever token paths the visits carry, the pairs of node and version 2 key that the unique
      indexes hold never collide along a run of an accepted definition. */
  lemma VisitKeysNeverCollide(
    d: Definition, data: bool, plan: Plan, run: seq<Visit>, i: nat, j: nat, p: seq<Token>, q: seq<Token>)
    requires Accepted(d, data) && IsPlan(d, data, plan) && IsRun(d, run)
    requires i < j < |run| && TokensOk(p) && TokensOk(q)
    ensures var k, l := DurableKey(2, p, Stored(1, run[i].cursor)), DurableKey(2, q, Stored(1, run[j].cursor));
            k.Ok? && l.Ok? && (run[i].node, k.value) != (run[j].node, l.value)
  {
    VisitsNeverRepeat(d, data, plan, run);
    RunCursorsCanonical(d, run);
    CanonicalIsSorted(run[i].cursor);
    CanonicalIsSorted(run[j].cursor);
  }

  /** Version 1 keys carry no cursor: two visits collide exactly when node and path agree. */
  lemma BranchKeysCollideIff(u: Visit, v: Visit, p: seq<Token>, q: seq<Token>, c: Raw, d: Raw)
    requires TokensOk(p) && TokensOk(q)
    ensures var k, l := DurableKey(1, p, c), DurableKey(1, q, d);
            k.Ok? && l.Ok? && ((u.node, k.value) == (v.node, l.value) <==> u.node == v.node && p == q)
  {
  }

  predicate HasLoops(edges: seq<Edge>) {
    exists i :: 0 <= i < |edges| && IsLoop(edges[i])
  }

  /** The key version a new run is given: 2 with a loop edge in its definition or in that of a
      resolved subflow, else 1. */
  function KeyVersion(edges: seq<Edge>, loopsInSubflows: bool): int {
    if HasLoops(edges) || loopsInSubflows then 2 else 1
  }

  /** Without loop edges there is nothing to count. */
  lemma LoopFreeCursors(d: Definition, run: seq<Visit>, i: nat)
    requires IsRun(d, run) && !HasLoops(d.edges) && i < |run|
    ensures run[i].cursor == []
  {
    if i > 0 {
      assert Step(d.edges, run[i - 1], run[i]);
      assert WithinLimits(run[i].cursor, d.edges);
      assert forall t {:trigger Limited(t, d.edges)} :: !Limited(t, d.edges);
    }
  }

  /** The keys a run really uses, version 1 or 2, never collide along it. */
  lemma DurableKeysNeverCollide(
    d: Definition, data: bool, plan: Plan, loopsInSubflows: bool, run: seq<Visit>, i: nat, j: nat, p: seq<Token>, q: seq<Token>)
    requires Accepted(d, data) && IsPlan(d, data, plan) && IsRun(d, run)
    requires i < j < |run| && TokensOk(p) && TokensOk(q)
    ensures var version := KeyVersion(d.edges, loopsInSubflows);
            var k, l := DurableKey(version, p, Stored(1, run[i].cursor)), DurableKey(version, q, Stored(1, run[j].cursor));
            k.Ok? && l.Ok? && (run[i].node, k.value) != (run[j].node, l.value)
  {
    VisitKeysNeverCollide(d, data, plan, run, i, j, p, q);
    if KeyVersion(d.edges, loopsInSubflows) == 1 {
      hide Accepted, IsPlan;
      LoopFreeCursors(d, run, i);
      LoopFreeCursors(d, run, j);
      BranchKeysCollideIff(run[i], run[j], p, q, Stored(1, []), Stored(1, []));
      CanonicalIsSorted([]);
    }
  }

  // ----- charging a visit once

  const MAX_DURABLE_STEPS := 10000

  /** The two runtime fields; `stepsCharged` is `executionStepCount`. */
  datatype Charge = Charge(stepsCharged: int, lastVisit: Option<VisitIdentity>)

  function ChargeVisit(state: Charge, visit: VisitIdentity): Result<Charge, Error> {
    if state.stepsCharged < 0 || state.stepsCharged > MAX_DURABLE_STEPS then Err(InvalidCursor)
    else if state.lastVisit == Some(visit) then Ok(state)
    else if state.stepsCharged >= MAX_DURABLE_STEPS then Err(LimitReached(visit.node))
    else Ok(Charge(state.stepsCharged + 1, Some(visit)))
  }

  /** The runtime record a run carries; charging writes its fields. */
  class LoopRuntime {
    var stepsCharged: int
    var lastVisit: Option<VisitIdentity>

    ghost function State(): Charge
      reads this
    {
      Charge(stepsCharged, lastVisit)
    }

    method ChargeVisitOnce(visit: VisitIdentity) returns (error: Option<Error>)
      modifies this
      ensures match ChargeVisit(old(State()), visit)
              case Ok(state) => error == None && State() == state
              case Err(e) => error == Some(e) && State() == old(State())
      ensures error.None? <==>
              0 <= old(stepsCharged) <= 10000 && (old(lastVisit) == Some(visit) || old(stepsCharged) < 10000)
      ensures error.None? ==>
              lastVisit == Some(visit) && stepsCharged == old(stepsCharged) + if old(lastVisit) == Some(visit) then 0 else 1
      ensures error == Some(LimitReached(visit.node)) <==> old(stepsCharged) == 10000 && old(lastVisit) != Some(visit)
      ensures error.Some? ==> stepsCharged == old(stepsCharged) && lastVisit == old(lastVisit)
    {
      if stepsCharged < 0 || stepsCharged > MAX_DURABLE_STEPS {
        return Some(InvalidCursor);
      }
      if lastVisit == Some(visit) {
        return None;
      }
      if stepsCharged >= MAX_DURABLE_STEPS {
        return Some(LimitReached(visit.node));
      }
      stepsCharged := stepsCharged + 1;
      lastVisit := Some(visit);
      error := None;
    }
  }

  /** Charging a list of visits in order. */
  function ChargeAll(state: Charge, visits: seq<VisitIdentity>): Result<Charge, Error>
    decreases |visits|
  {
    if visits == [] then Ok(state)
    else
      match ChargeVisit(state, visits[0])
      case Ok(next) => ChargeAll(next, visits[1..])
      case Err(e) => Err(e)
  }

  /** `visits` with each entry attempted one time or more. */
  function Attempts(visits: seq<VisitIdentity>, retries: seq<nat>): seq<VisitIdentity>
    requires |retries| == |visits|
  {
    if visits == [] then [] else Repeat(visits[0], retries[0]) + [visits[0]] + Attempts(visits[1..], retries[1..])
  }

  function Repeat(visit: VisitIdentity, times: nat): seq<VisitIdentity> {
    if times == 0 then [] else [visit] + Repeat(visit, times - 1)
  }

  lemma {:induction false} ChargeAllConcat(state: Charge, s: seq<VisitIdentity>, t: seq<VisitIdentity>)
    ensures ChargeAll(state, s + t) ==
            match ChargeAll(state, s)
            case Ok(next) => ChargeAll(next, t)
            case Err(e) => Err(e)
    decreases |s|
  {
    if s == [] {
      assert s + t == t;
    } else {
      assert (s + t)[0] == s[0] && (s + t)[1..] == s[1..] + t;
      match ChargeVisit(state, s[0])
      case Ok(next) => ChargeAllConcat(next, s[1..], t);
      case Err(e) =>
    }
  }

  lemma {:induction false} RetriesAreFree(state: Charge, visit: VisitIdentity, times: nat)
    requires 0 <= state.stepsCharged < MAX_DURABLE_STEPS && state.lastVisit != Some(visit)
    ensures ChargeAll(state, Repeat(visit, times) + [visit]) == Ok(Charge(state.stepsCharged + 1, Some(visit)))
  {
    var charged := Charge(state.stepsCharged + 1, Some(visit));
    if times == 0 {
      assert Repeat(visit, times) + [visit] == [visit];
      assert ChargeAll(charged, [visit][1..]) == Ok(charged);
    } else {
      RetriesAreFree(state, visit, times - 1);
      var before := Repeat(visit, times - 1);
      assert Repeat(visit, times) + [visit] == (before + [visit]) + [visit] by {
        RepeatSnoc(visit, times - 1);
      }
      ChargeAllConcat(state, before + [visit], [visit]);
      assert ChargeAll(charged, [visit][1..]) == Ok(charged);
    }
  }

  lemma {:induction false} RepeatSnoc(visit: VisitIdentity, times: nat)
    ensures Repeat(visit, times + 1) == Repeat(visit, times) + [visit]
  {
    if times > 0 {
      RepeatSnoc(visit, times - 1);
    }
  }

  /** However often interrupted attempts are repeated, a run is charged one step per visit. */
  lemma {:induction false} ChargedOncePerVisit(state: Charge, visits: seq<VisitIdentity>, retries: seq<nat>)
    requires |retries| == |visits| && visits != []
    requires forall i :: 0 <= i < |visits| - 1 ==> visits[i] != visits[i + 1]
    requires state.lastVisit != Some(visits[0])
    requires 0 <= state.stepsCharged && state.stepsCharged + |visits| <= MAX_DURABLE_STEPS
    ensures ChargeAll(state, Attempts(visits, retries)) ==
            Ok(Charge(state.stepsCharged + |visits|, Some(visits[|visits| - 1])))
    decreases |visits|
  {
    var first := Repeat(visits[0], retries[0]) + [visits[0]];
    var rest := Attempts(visits[1..], retries[1..]);
    var next := Charge(state.stepsCharged + 1, Some(visits[0]));
    RetriesAreFree(state, visits[0], retries[0]);
    ChargeAllConcat(state, first, rest);
    if |visits| > 1 {
      assert visits[0] != visits[0 + 1];
      ChargedOncePerVisit(next, visits[1..], retries[1..]);
    } else {
      assert rest == [];
    }
  }
}
