/** Cycles that cost no traversal: wherever a definition has one, there are executions that go round
    it as often as they are resumed, each time with the same node, path and cursor. */
module RepeatedVisits {
  import opened Workflow
  import opened Graphs
  import opened PathChecks
  import opened Sorting
  import opened Topology
  import opened Compiler
  import opened CountedCycles
  import opened ParallelCheckpoint
  import opened Executions
  import C = LoopCursor
  import L = ParallelLineage
  import R = LoopRun

  /** An execution with one entry and no branches. */
  function Sole(node: Id, cursor: C.Cursor, taken: seq<Taken>): Execution {
    Execution(L.System(Checkpoint(map[], [SoleEntry(node, cursor)], None), [], map[], true), taken)
  }

  function SoleEntry(node: Id, cursor: C.Cursor): Entry {
    Entry(node, [], None, None, Some(C.Stored(1, cursor)))
  }

  /** A loop execution comes to `x` without any fork. */
  ghost predicate Reached(d: Definition, copied: set<Id>, x: Execution) {
    exists run :: IsExecution(d, copied, true, run) && NeverForks(run) && run[|run| - 1] == x
  }

  ghost predicate NeverForks(run: seq<Execution>) {
    forall i :: 0 <= i < |run| ==> run[i].system.checkpoint.frames == map[]
  }

  lemma StartReached(d: Definition, copied: set<Id>, s: Node)
    requires s in d.nodes && StartNode()(s)
    ensures Reached(d, copied, Sole(s.id, [], []))
  {
    var x := Sole(s.id, [], []);
    assert VisitOf(x.system.checkpoint.queue[0]) == R.Visit(s.id, []);
    var run := [x];
    assert IsExecution(d, copied, true, run) && NeverForks(run);
    assert run[|run| - 1] == x;
  }

  lemma MoveReached(d: Definition, copied: set<Id>, a: Id, c: C.Cursor, b: Id, c': C.Cursor, taken: seq<Taken>)
    requires Reached(d, copied, Sole(a, c, taken)) && C.Canonical(c')
    requires R.Follow(d.edges, R.Visit(a, c), R.Visit(b, c')) || R.Copy(d.edges, copied, R.Visit(a, c), R.Visit(b, c'))
    ensures Reached(d, copied, Sole(b, c', taken + [Taken(a, [], c)]))
  {
    var x, y := Sole(a, c, taken), Sole(b, c', taken + [Taken(a, [], c)]);
    var run :| IsExecution(d, copied, true, run) && NeverForks(run) && run[|run| - 1] == x;
    SoleAdvances(d, copied, a, c, b, c', taken);
    hide Advance, R.Follow, R.Copy, Sole;
    assert Next(d, copied, true, x, y);
    var longer := run + [y];
    forall i | 0 <= i < |longer| - 1
      ensures Next(d, copied, true, longer[i], longer[i + 1])
    {
      assert i < |run| - 1 ==> Next(d, copied, true, run[i], run[i + 1]);
    }
    assert IsExecution(d, copied, true, longer);
    assert NeverForks(longer) by { assert y.system.checkpoint.frames == map[] by { SoleFrames(b, c', taken + [Taken(a, [], c)]); } }
    assert longer[|longer| - 1] == y;
  }

  lemma SoleFrames(node: Id, cursor: C.Cursor, taken: seq<Taken>)
    ensures Sole(node, cursor, taken).system.checkpoint.frames == map[]
  {
  }

  lemma SoleAdvances(d: Definition, copied: set<Id>, a: Id, c: C.Cursor, b: Id, c': C.Cursor, taken: seq<Taken>)
    requires C.Canonical(c')
    requires R.Follow(d.edges, R.Visit(a, c), R.Visit(b, c')) || R.Copy(d.edges, copied, R.Visit(a, c), R.Visit(b, c'))
    ensures Advance(d, copied, true, Sole(a, c, taken), Sole(b, c', taken + [Taken(a, [], c)]), SoleEntry(b, c'))
  {
    hide R.Follow, R.Copy;
    var x, y := Sole(a, c, taken), Sole(b, c', taken + [Taken(a, [], c)]);
    assert x.system.checkpoint.queue[1..] + [SoleEntry(b, c')] == y.system.checkpoint.queue;
    assert VisitOf(SoleEntry(a, c)) == R.Visit(a, c) && VisitOf(SoleEntry(b, c')) == R.Visit(b, c');
    assert QueuedOk(map[], SoleEntry(b, c')) && Shaped(true, SoleEntry(b, c').cursor);
    assert L.Advance(x.system, y.system, SoleEntry(b, c'));
    assert R.Follow(d.edges, R.Visit(a, c), R.Visit(b, c')) ==> Follows(d, true, SoleEntry(a, c), SoleEntry(b, c'));
    assert R.Copy(d.edges, copied, R.Visit(a, c), R.Visit(b, c')) ==> Copies(d, copied, SoleEntry(a, c), SoleEntry(b, c')) by {
      CopyKeeps(d, copied, a, c, b, c');
    }
  }

  lemma CopyKeeps(d: Definition, copied: set<Id>, a: Id, c: C.Cursor, b: Id, c': C.Cursor)
    ensures R.Copy(d.edges, copied, R.Visit(a, c), R.Visit(b, c')) ==> c' == c
  {
  }

  // ----- along one edge

  /** Following an edge by its own outcome counts it alone. */
  lemma FollowEdge(d: Definition, data: bool, e: Edge, c: C.Cursor, c': C.Cursor)
    requires EdgesOk(IdSet(d.nodes), data, d.edges) && e in d.edges
    requires C.Canonical(c) && C.WithinLimits(c, d.edges) && C.Canonical(c')
    requires forall x :: C.CountOf(c', x) == if IsLoop(e) && x == e.id then C.CountOf(c, x) + 1 else C.CountOf(c, x)
    requires IsLoop(e) ==> C.CountOf(c, e.id) < e.loop.value
    ensures R.Follow(d.edges, R.Visit(e.source, c), R.Visit(e.target, c'))
  {
    var handle := Some(e.handle);
    var selected := Filter(d.edges, R.Selected(e.source, e.target, handle));
    OnlyEdge(d, data, e);
    assert e in selected;
    var i :| 0 <= i < |selected| && selected[i] == e;
    assert forall k :: 0 <= k < |selected| ==> selected[k] in selected;
    assert R.CanFollow(c, selected);
    forall x
      ensures R.CrossesLoop(selected, x) <==> IsLoop(e) && x == e.id
    {
      if IsLoop(e) && x == e.id {
        assert IsLoop(selected[i]) && selected[i].id == x;
      }
    }
    assert R.SuccessorCursor(c, selected, c');
  }

  lemma OnlyEdge(d: Definition, data: bool, e: Edge)
    requires EdgesOk(IdSet(d.nodes), data, d.edges) && e in d.edges
    ensures forall x :: x in Filter(d.edges, R.Selected(e.source, e.target, Some(e.handle))) <==> x == e
    ensures IsLoop(e) ==> C.PolicyOk(e)
  {
    FilterMembers(d.edges, R.Selected(e.source, e.target, Some(e.handle)));
    var i :| 0 <= i < |d.edges| && d.edges[i] == e;
    assert EdgeOk(IdSet(d.nodes), data, d.edges[i]);
    forall x | x in d.edges && SameRoute(x, e)
      ensures x == e
    {
      var j :| 0 <= j < |d.edges| && d.edges[j] == x;
      OneRoute(IdSet(d.nodes), data, d.edges, i, j);
    }
  }

  lemma OneRoute(ids: set<Id>, data: bool, edges: seq<Edge>, i: nat, j: nat)
    requires EdgesOk(ids, data, edges) && i < |edges| && j < |edges| && SameRoute(edges[i], edges[j])
    ensures i == j
  {
  }

  /** A first traversal of a loop edge. */
  lemma FirstTraversal(c: C.Cursor, edge: Id) returns (c': C.Cursor)
    requires C.Canonical(c) && !IsBlank(edge) && C.CountOf(c, edge) == 0
    ensures C.Canonical(c') && forall x :: C.CountOf(c', x) == if x == edge then C.CountOf(c, x) + 1 else C.CountOf(c, x)
  {
    var entry := C.Traversal(edge, 1);
    forall k | 0 <= k < |c|
      ensures c[k].edge != edge
    {
      C.CountOfEntry(c, k);
      assert C.EntryOk(c[k]);
    }
    C.BumpedEntry(c, |c|, entry);
    C.SortedIsCanonical(c + [entry]);
    c' := Sort(c + [entry], C.TraversedEdge());
  }

  // ----- from the start to the cycle

  /** Loop edges have been counted only where the walk has come through their sources. */
  ghost predicate CountedBehind(edges: seq<Edge>, c: C.Cursor, sources: seq<Id>) {
    forall e :: e in edges && C.CountOf(c, e.id) != 0 ==> e.source in sources
  }

  lemma {:induction false} WalkReached(d: Definition, data: bool, copied: set<Id>, w: seq<Id>, k: nat)
    returns (c: C.Cursor, taken: seq<Taken>)
    requires EdgesOk(IdSet(d.nodes), data, d.edges) && IsWalk(GraphOf(d), w) && Distinct(w) && k < |w|
    requires exists s :: s in d.nodes && StartNode()(s) && s.id == w[0]
    ensures Reached(d, copied, Sole(w[k], c, taken))
    ensures C.Canonical(c) && C.WithinLimits(c, d.edges) && CountedBehind(d.edges, c, w[..k])
  {
    if k == 0 {
      var s :| s in d.nodes && StartNode()(s) && s.id == w[0];
      c, taken := [], [];
      StartReached(d, copied, s);
    } else {
      hide Reached, Sole, EdgesOk, C.Canonical, C.WithinLimits, CountedBehind, GraphOf;
      var before, earlier := WalkReached(d, data, copied, w, k - 1);
      assert HasEdge(GraphOf(d), w[k - 1], w[k - 1 + 1]);
      c := EdgeReached(d, data, copied, w[k - 1], w[k], before, earlier, w[..k - 1]);
      taken := earlier + [Taken(w[k - 1], [], before)];
      assert w[..k] == w[..k - 1] + [w[k - 1]];
    }
  }

  lemma EdgeReached(d: Definition, data: bool, copied: set<Id>, a: Id, b: Id, c: C.Cursor, taken: seq<Taken>, sources: seq<Id>)
    returns (c': C.Cursor)
    requires EdgesOk(IdSet(d.nodes), data, d.edges) && HasEdge(GraphOf(d), a, b) && a !in sources
    requires Reached(d, copied, Sole(a, c, taken))
    requires C.Canonical(c) && C.WithinLimits(c, d.edges) && CountedBehind(d.edges, c, sources)
    ensures Reached(d, copied, Sole(b, c', taken + [Taken(a, [], c)]))
    ensures C.Canonical(c') && C.WithinLimits(c', d.edges) && CountedBehind(d.edges, c', sources + [a])
  {
    OutgoingEdge(IdSet(d.nodes), d.edges, a, b);
    var e :| e in d.edges && e.source == a && e.target == b;
    hide *;
    c' := EdgeCursor(d, data, e, c, sources);
    MoveReached(d, copied, a, c, b, c', taken);
  }

  /** The cursor after an edge out of a node that the walk comes to for the first time. */
  lemma EdgeCursor(d: Definition, data: bool, e: Edge, c: C.Cursor, sources: seq<Id>) returns (c': C.Cursor)
    requires EdgesOk(IdSet(d.nodes), data, d.edges) && e in d.edges && e.source !in sources
    requires C.Canonical(c) && C.WithinLimits(c, d.edges) && CountedBehind(d.edges, c, sources)
    ensures R.Follow(d.edges, R.Visit(e.source, c), R.Visit(e.target, c'))
    ensures C.Canonical(c') && C.WithinLimits(c', d.edges) && CountedBehind(d.edges, c', sources + [e.source])
  {
    OnlyEdge(d, data, e);
    c' := c;
    if IsLoop(e) {
      c' := FirstTraversal(c, e.id);
    }
    FollowEdge(d, data, e, c, c');
    R.FollowKeepsLimits(d.edges, R.Visit(e.source, c), R.Visit(e.target, c'));
    forall x | x in d.edges && C.CountOf(c', x.id) != 0
      ensures x.source in sources + [e.source]
    {
      if x.id == e.id {
        SameIdSameEdge(d.edges, x, e);
      }
    }
  }

  lemma SameIdSameEdge(edges: seq<Edge>, x: Edge, e: Edge)
    requires DistinctKeys(edges, EdgeId()) && x in edges && e in edges && x.id == e.id
    ensures x == e
  {
    var i :| 0 <= i < |edges| && edges[i] == x;
    var j :| 0 <= j < |edges| && edges[j] == e;
    assert EdgeId()(edges[i]) == EdgeId()(edges[j]);
  }

  // ----- round the cycle

  /** Along edges that count nothing the cursor stays. */
  lemma {:induction false} RoundReached(
    d: Definition, data: bool, copied: set<Id>, w: seq<Id>, k: nat, c: C.Cursor, taken: seq<Taken>)
    returns (more: seq<Taken>)
    requires EdgesOk(IdSet(d.nodes), data, d.edges) && k < |w|
    requires IsWalk(PlainGraph(GraphOf(Uncounted(d, copied))), w)
    requires Reached(d, copied, Sole(w[0], c, taken)) && C.Canonical(c) && C.WithinLimits(c, d.edges)
    ensures Reached(d, copied, Sole(w[k], c, taken + more)) && |more| == k
    ensures k > 0 ==> more[0] == Taken(w[0], [], c)
  {
    hide Reached, Sole, EdgesOk, C.Canonical, C.WithinLimits, PlainGraph, GraphOf, Uncounted, HasEdge;
    if k == 0 {
      more := [];
      assert taken + more == taken;
    } else {
      var before := RoundReached(d, data, copied, w, k - 1, c, taken);
      assert HasEdge(PlainGraph(GraphOf(Uncounted(d, copied))), w[k - 1], w[k - 1 + 1]);
      FreeEdgeReached(d, data, copied, w[k - 1], w[k], c, taken + before);
      more := before + [Taken(w[k - 1], [], c)];
      assert taken + before + [Taken(w[k - 1], [], c)] == taken + more;
    }
  }

  lemma FreeEdgeReached(d: Definition, data: bool, copied: set<Id>, a: Id, b: Id, c: C.Cursor, taken: seq<Taken>)
    requires EdgesOk(IdSet(d.nodes), data, d.edges) && HasEdge(PlainGraph(GraphOf(Uncounted(d, copied))), a, b)
    requires Reached(d, copied, Sole(a, c, taken)) && C.Canonical(c) && C.WithinLimits(c, d.edges)
    ensures Reached(d, copied, Sole(b, c, taken + [Taken(a, [], c)]))
  {
    hide Reached, Sole, EdgesOk, C.Canonical, C.WithinLimits, PlainGraph, GraphOf, Uncounted, R.Follow;
    UncountedEdge(d, copied, a, b);
    var e :| e in d.edges && (!IsLoop(e) || e.id in copied) && e.source == a && e.target == b;
    if !IsLoop(e) {
      FollowEdge(d, data, e, c, c);
    } else {
      assert R.Copy(d.edges, copied, R.Visit(a, c), R.Visit(b, c));
    }
    hide R.Copy;
    MoveReached(d, copied, a, c, b, c, taken);
  }

  /** ... so any number of rounds can be made. */
  lemma {:induction false} RoundsReached(
    d: Definition, data: bool, copied: set<Id>, w: seq<Id>, c: C.Cursor, taken: seq<Taken>, n: nat)
    returns (more: seq<Taken>)
    requires EdgesOk(IdSet(d.nodes), data, d.edges) && |w| > 1 && w[0] == w[|w| - 1]
    requires IsWalk(PlainGraph(GraphOf(Uncounted(d, copied))), w)
    requires Reached(d, copied, Sole(w[0], c, taken)) && C.Canonical(c) && C.WithinLimits(c, d.edges)
    ensures Reached(d, copied, Sole(w[0], c, taken + more)) && |more| >= n
    ensures n > 0 ==> Taken(w[0], [], c) in more
  {
    hide *;
    if n == 0 {
      more := [];
      assert taken + more == taken;
    } else {
      var before := RoundsReached(d, data, copied, w, c, taken, n - 1);
      var round := RoundReached(d, data, copied, w, |w| - 1, c, taken + before);
      more := before + round;
      assert taken + before + round == taken + more;
      assert round[0] in more;
    }
  }

  /** The loop's check for entries already executed does not fire on the next one. */
  ghost predicate HeadNew(x: Execution) {
    x.system.checkpoint.queue != [] ==> TakenAs(x.system.checkpoint.queue[0]) !in x.taken
  }

  /** Where a cycle crosses no counted loop edge, an execution without any fork takes up more than
      `n` entries and comes to one that it has taken up before. */
  lemma UncountedRepeats(d: Definition, data: bool, copied: set<Id>, n: nat) returns (run: seq<Execution>)
    requires Accepted(d, data) && !CyclesCounted(d, copied)
    ensures run != [] && IsExecution(d, copied, true, run) && NeverForks(run)
    ensures |run[|run| - 1].taken| > n && !HeadNew(run[|run| - 1])
  {
    hide Accepted, CyclesCounted, IsExecution, IsWalk, EdgesOk, GraphOf, PlainGraph, Uncounted, Reached, Sole, C.Canonical, C.WithinLimits;
    var round := UncountedRound(d, copied);
    var a := round[0];
    var w := WalkFromStart(d, data, a);
    var c, taken := WalkReached(d, data, copied, w, |w| - 1);
    var more := RoundsReached(d, data, copied, round, c, taken, n + 1);
    run := RunTo(d, copied, a, c, taken + more);
  }

  lemma RunTo(d: Definition, copied: set<Id>, a: Id, c: C.Cursor, taken: seq<Taken>) returns (run: seq<Execution>)
    requires Reached(d, copied, Sole(a, c, taken)) && Taken(a, [], c) in taken
    ensures run != [] && IsExecution(d, copied, true, run) && NeverForks(run)
    ensures run[|run| - 1].taken == taken && !HeadNew(run[|run| - 1])
  {
    run :| IsExecution(d, copied, true, run) && NeverForks(run) && run[|run| - 1] == Sole(a, c, taken);
    hide IsExecution;
    assert TakenAs(SoleEntry(a, c)) == Taken(a, [], c);
  }

  /** A closed walk along edges that count nothing. */
  lemma UncountedRound(d: Definition, copied: set<Id>) returns (round: seq<Id>)
    requires !CyclesCounted(d, copied)
    ensures IsWalk(PlainGraph(GraphOf(Uncounted(d, copied))), round)
    ensures |round| > 1 && round[0] == round[|round| - 1] && round[0] in IdSet(d.nodes)
  {
    var g := PlainGraph(GraphOf(Uncounted(d, copied)));
    var a, b :| HasEdge(g, a, b) && Reach(g, b, a);
    var back :| WalkFromTo(g, b, a, back);
    assert WalkFromTo(g, a, b, [a, b]);
    WalkConcat(g, a, b, a, [a, b], back);
    round := [a, b] + back[1..];
    UncountedEdge(d, copied, a, b);
  }

  lemma WalkFromStart(d: Definition, data: bool, a: Id) returns (w: seq<Id>)
    requires Accepted(d, data) && a in IdSet(d.nodes)
    ensures EdgesOk(IdSet(d.nodes), data, d.edges)
    ensures IsWalk(GraphOf(d), w) && Distinct(w) && w[|w| - 1] == a
    ensures exists s :: s in d.nodes && StartNode()(s) && s.id == w[0]
  {
    NodesHaveIds(d.nodes);
    var n :| n in d.nodes && n.id == a;
    assert OnRoute(d, data, GraphOf(d), n);
    var s :| s in d.nodes && StartNode()(s) && Reach(GraphOf(d), s.id, n.id);
    var v :| WalkFromTo(GraphOf(d), s.id, a, v);
    w := SimpleWalk(GraphOf(d), s.id, a, v);
  }

  // ----- the exact condition

  ghost predicate NothingSkipped(d: Definition, copied: set<Id>, loops: bool) {
    forall run: seq<Execution>, i: int :: IsExecution(d, copied, loops, run) && 0 <= i < |run| ==> HeadNew(run[i])
  }

  /** The check for entries already executed never fires, in any execution, exactly when every cycle
      of the definition crosses a loop edge that is counted. */
  lemma NothingIsSkippedIff(d: Definition, data: bool, copied: set<Id>, loops: bool)
    requires Accepted(d, data) && (R.HasLoops(d.edges) ==> loops)
    ensures NothingSkipped(d, copied, loops) <==> CyclesCounted(d, copied)
  {
    if CyclesCounted(d, copied) {
      var order := CountedLayout(d, data, copied);
      hide Accepted, CyclesCounted, Layout, R.CopiesForward;
      forall run: seq<Execution>, i: int | IsExecution(d, copied, loops, run) && 0 <= i < |run|
        ensures HeadNew(run[i])
      {
        ExecutionOrdered(d, copied, order, loops, run, i);
        if run[i].system.checkpoint.queue != [] { HeadIsNew(d, order, loops, run[i]); }
      }
    } else {
      LoopsWhereUncounted(d, data, copied);
      var run := UncountedRepeats(d, data, copied, 0);
      assert !HeadNew(run[|run| - 1]);
    }
  }

  lemma LoopsWhereUncounted(d: Definition, data: bool, copied: set<Id>)
    requires Accepted(d, data) && !CyclesCounted(d, copied)
    ensures R.HasLoops(d.edges)
  {
    if !R.HasLoops(d.edges) {
      forall e | e in d.edges
        ensures !IsLoop(e)
      {
        var i :| 0 <= i < |d.edges| && d.edges[i] == e;
      }
      NoLoopCopied(d, data, copied);
    }
  }
}
