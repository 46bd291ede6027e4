/** What the frames remember of the loop cursors: for every branch that has arrived the cursor it
    arrived with, so that the last arrival always finds them all and merges exactly them. */
module JoinCursors {
  import opened Workflow
  import opened Sorting
  import opened Topology
  import opened Compiler
  import opened ParallelCheckpoint
  import opened Executions
  import B = ParallelBarrier
  import C = LoopCursor
  import L = ParallelLineage
  import R = LoopRun

  /** Recording the arriving branch's cursor touches neither another frame nor another branch. */
  lemma RecordKeepsOthers(frames: Frames, e: Entry)
    requires RecordCursor(frames, e).Ok?
    ensures var r := RecordCursor(frames, e).value;
            && (forall id :: id in frames && (e.tokens == [] || id != LastFrame(e)) ==> id in r && r[id] == frames[id])
            && (forall id, b :: id in frames && frames[id].cursors.Some? && b in frames[id].cursors.value &&
                                (e.tokens == [] || Token(id, b) != e.tokens[|e.tokens| - 1]) ==>
                  id in r && r[id].cursors.Some? && b in r[id].cursors.value && r[id].cursors.value[b] == frames[id].cursors.value[b])
            && (forall id, b :: id in r && r[id].cursors.Some? && b in r[id].cursors.value &&
                                (e.cursor.None? || e.tokens == [] || Token(id, b) != e.tokens[|e.tokens| - 1]) ==>
                  id in frames && frames[id].cursors.Some? && b in frames[id].cursors.value)
  {
  }

  // ----- what all executions keep, counted cycles or not

  /** Lineages are conserved, and entries and frames carry valid cursors within the limits. */
  ghost predicate Inside(d: Definition, loops: bool, x: Execution) {
    L.Good(x.system) && AllIn(d, Ids(d.nodes), loops, x.system)
  }

  ghost predicate Listed(d: Definition) {
    Connects(IdSet(d.nodes), d.edges) && DistinctKeys(d.edges, EdgeId())
  }

  lemma FollowsInside(d: Definition, loops: bool, a: Entry, b: Entry)
    requires Listed(d) && Follows(d, loops, a, b)
    ensures EntryIn(d, Ids(d.nodes), loops, b)
  {
    hide R.Follow, Connects;
    R.FollowStaysInside(d, Ids(d.nodes), VisitOf(a), VisitOf(b));
    R.FollowKeepsLimits(d.edges, VisitOf(a), VisitOf(b));
  }

  lemma CopiesInside(d: Definition, copied: set<Id>, loops: bool, a: Entry, b: Entry)
    requires Listed(d) && EntryIn(d, Ids(d.nodes), loops, a) && Copies(d, copied, a, b)
    ensures EntryIn(d, Ids(d.nodes), loops, b)
  {
    assert forall x :: x in IdSet(d.nodes) ==> x in Ids(d.nodes);
  }

  lemma BeginInside(d: Definition, loops: bool, x: Execution)
    requires Begin(d, loops, x)
    ensures Inside(d, loops, x)
  {
    var e := x.system.checkpoint.queue[0];
    L.StartConserved(x.system);
    hide L.Conserved;
    var n :| n in d.nodes && StartNode()(n) && VisitOf(e) == R.Visit(n.id, []);
    NodesHaveIds(d.nodes);
    R.EmptyCursor(d.edges);
    assert x.system.checkpoint.queue == [e];
  }

  lemma AdvanceInside(d: Definition, copied: set<Id>, loops: bool, x: Execution, y: Execution, e: Entry)
    requires Listed(d) && Inside(d, loops, x) && Advance(d, copied, loops, x, y, e) && L.Good(y.system)
    ensures Inside(d, loops, y)
  {
    hide L.Good, Listed, Follows, Copies, FramesCarried, QueuedOk;
    assert EntryIn(d, Ids(d.nodes), loops, x.system.checkpoint.queue[0]);
    if Follows(d, loops, x.system.checkpoint.queue[0], e) {
      FollowsInside(d, loops, x.system.checkpoint.queue[0], e);
    } else {
      CopiesInside(d, copied, loops, x.system.checkpoint.queue[0], e);
    }
    hide EntryIn;
  }

  lemma UnparkInside(d: Definition, loops: bool, x: Execution, y: Execution,
                     k: nat, next: Id, participants: Option<seq<int>>, cursor: Option<C.Raw>)
    requires Listed(d) && Inside(d, loops, x) && Unpark(d, loops, x, y, k, next, participants, cursor) && L.Good(y.system)
    ensures Inside(d, loops, y)
  {
    var parked := x.system.waiting[k];
    var e := Entry(next, parked.tokens, participants, None, cursor);
    assert EntryIn(d, Ids(d.nodes), loops, parked);
    FollowsInside(d, loops, parked, e);
    hide Listed, Follows, Carried, L.Conserved, FramesOk;
    UnparkQueue(d, Ids(d.nodes), loops, x.system, y.system, k, next, participants, cursor);
    L.ConservedFrames(x.system);
    NormalFramesCarried(d, loops, x.system.checkpoint.frames);
    hide FramesCarried, NormalFrames, L.EntriesOk;
    assert forall w :: w in y.system.waiting ==> w in x.system.waiting;
  }

  lemma SplitInside(d: Definition, loops: bool, x: Execution, y: Execution,
                    id: Id, router: Id, join: Id, branches: seq<Id>, entries: seq<Entry>)
    requires Listed(d) && Inside(d, loops, x) && Split(d, loops, x, y, id, router, join, branches, entries) && L.Good(y.system)
    ensures Inside(d, loops, y)
  {
    var frames, head := x.system.checkpoint.frames, x.system.checkpoint.queue[0];
    assert y.system.checkpoint.frames[id].cursors.None?;
    forall f | f in y.system.checkpoint.frames
      ensures FrameCarried(d, loops, y.system.checkpoint.frames[f])
    {
      assert f in frames ==> FrameCarried(d, loops, frames[f]);
    }
    hide Listed, Follows, L.Good, ForkState, FrameCarried, EntryIn;
    forall e | e in entries
      ensures EntryIn(d, Ids(d.nodes), loops, e)
    {
      var i :| 0 <= i < |entries| && entries[i] == e;
      FollowsInside(d, loops, head, entries[i]);
    }
  }

  lemma ArriveInside(d: Definition, loops: bool, x: Execution, y: Execution, ready: bool)
    requires Inside(d, loops, x) && Arrive(x, y, ready) && L.Good(y.system)
    ensures Inside(d, loops, y)
  {
    var s, s' := x.system.checkpoint, y.system.checkpoint;
    assert EntryIn(d, Ids(d.nodes), loops, s.queue[0]);
    L.ConservedFrames(x.system);
    ArriveFrames(d, loops, s, s', ready);
    hide L.Good, Prepared, FramesCarried, Carried;
  }

  lemma NextInside(d: Definition, copied: set<Id>, loops: bool, x: Execution, y: Execution)
    requires Listed(d) && Inside(d, loops, x) && Next(d, copied, loops, x, y)
    ensures Inside(d, loops, y)
  {
    NextSystem(d, copied, loops, x, y);
    L.NextKeepsGood(x.system, y.system);
    hide Listed, L.Good, L.Next, Advance, Unpark, Split, Arrive, EntryIn, FramesCarried;
    if e :| Advance(d, copied, loops, x, y, e) {
      AdvanceInside(d, copied, loops, x, y, e);
    } else if Park(x, y) {
    } else if k: nat, next, participants, cursor :| Unpark(d, loops, x, y, k, next, participants, cursor) {
      UnparkInside(d, loops, x, y, k, next, participants, cursor);
    } else if id, router, join, branches, entries :| Split(d, loops, x, y, id, router, join, branches, entries) {
      SplitInside(d, loops, x, y, id, router, join, branches, entries);
    } else if ready :| Arrive(x, y, ready) {
      ArriveInside(d, loops, x, y, ready);
    } else {
      assert Finish(x, y);
    }
  }

  /** A step of an execution is a step of the protocol. */
  lemma NextSystem(d: Definition, copied: set<Id>, loops: bool, x: Execution, y: Execution)
    requires Next(d, copied, loops, x, y)
    ensures L.Next(x.system, y.system)
  {
    hide L.Advance, L.Park, L.Unpark, L.ForkStep, L.JoinStep, L.Finish, Follows, Copies;
  }

  lemma {:induction false} ExecutionInside(d: Definition, copied: set<Id>, loops: bool, run: seq<Execution>, i: nat)
    requires Listed(d) && IsExecution(d, copied, loops, run) && i < |run|
    ensures Inside(d, loops, run[i])
  {
    if i == 0 {
      BeginInside(d, loops, run[0]);
    } else {
      ExecutionInside(d, copied, loops, run, i - 1);
      hide Listed, Inside, Next;
      NextInside(d, copied, loops, run[i - 1], run[i]);
    }
  }

  lemma AcceptedListed(d: Definition, data: bool)
    requires Accepted(d, data)
    ensures Listed(d)
  {
    AcceptedConnects(d, data);
  }

  // ----- one step, seen from a frame

  /** In the step from `x` to `y` branch `b` of frame `f` arrives. */
  ghost predicate ArrivesAt(x: Execution, y: Execution, f: Id, b: Id) {
    && (exists ready :: Arrive(x, y, ready))
    && var e := x.system.checkpoint.queue[0]; e.tokens != [] && e.tokens[|e.tokens| - 1] == Token(f, b)
  }

  function Recorded(f: Frame): map<Id, C.Raw> {
    if f.cursors.Some? then f.cursors.value else map[]
  }

  /** The frame is as it was, or new, or has gained one arrival with its cursor. */
  ghost predicate FrameMoves(x: Execution, y: Execution, f: Id)
    requires f in y.system.checkpoint.frames
  {
    var new' := y.system.checkpoint.frames[f];
    || (f in x.system.checkpoint.frames && SameRecord(x.system.checkpoint.frames[f], new'))
    || (new'.barrier.arrived == [] && Recorded(new') == map[])
    || (f in x.system.checkpoint.frames && exists b :: GainsAt(x, y, f, b))
  }

  ghost predicate GainsAt(x: Execution, y: Execution, f: Id, b: Id)
    requires f in x.system.checkpoint.frames && f in y.system.checkpoint.frames
  {
    ArrivesAt(x, y, f, b) && Gains(x.system.checkpoint.frames[f], y.system.checkpoint.frames[f], b, x.system.checkpoint.queue[0])
  }

  ghost predicate SameRecord(old': Frame, new': Frame) {
    new'.barrier.arrived == old'.barrier.arrived && Recorded(new') == Recorded(old')
  }

  ghost predicate Gains(old': Frame, new': Frame, b: Id, e: Entry) {
    && new'.barrier.arrived == old'.barrier.arrived + [b]
    && e.cursor.Some? && Recorded(new') == Recorded(old')[b := e.cursor.value]
  }

  lemma NormalKeepsRecord(d: Definition, f: Frame)
    requires FrameCarried(d, true, f) && (f.cursors.Some? ==> forall b :: b in f.cursors.value ==> C.ValidRaw(f.cursors.value[b]))
    ensures SameRecord(f, NormalFrame(f))
  {
    if f.cursors.Some? {
      forall b | b in f.cursors.value
        ensures Normal(f.cursors.value[b]) == f.cursors.value[b]
      {
        CarriedIsNormal(d, true, Some(f.cursors.value[b]));
      }
      assert NormalFrame(f).cursors.value == f.cursors.value;
    }
  }

  lemma ArriveMoves(d: Definition, x: Execution, y: Execution, ready: bool, f: Id)
    requires Inside(d, true, x) && Arrive(x, y, ready) && f in y.system.checkpoint.frames
    ensures FrameMoves(x, y, f)
  {
    var s, s', e := x.system.checkpoint, y.system.checkpoint, x.system.checkpoint.queue[0];
    L.ConservedFrames(x.system);
    assert EntryIn(d, Ids(d.nodes), true, e) && QueuedOk(s.frames, e);
    L.JoinConserves(x.system, y.system, ready);
    ArrivalGains(d, s, s', ready);
    if f == LastFrame(e) {
      assert GainsAt(x, y, f, e.tokens[|e.tokens| - 1].branch);
    }
  }

  /** The frame of the arriving branch gains it and its cursor; the others stay. */
  lemma ArrivalGains(d: Definition, s: Checkpoint, s': Checkpoint, ready: bool)
    requires s.queue != [] && s.queue[0].releasedJoin.None? && Prepared(s, s', ready)
    requires FramesOk(s.frames) && QueuedOk(s.frames, s.queue[0])
    requires Carried(d, true, s.queue[0].cursor) && s.queue[0].tokens != [] && L.BranchNotArrived(s.frames, s.queue[0])
    ensures var e := s.queue[0];
            && s'.frames.Keys == s.frames.Keys && LastFrame(e) in s.frames
            && Gains(s.frames[LastFrame(e)], s'.frames[LastFrame(e)], e.tokens[|e.tokens| - 1].branch, e)
            && forall id :: id in s.frames && id != LastFrame(e) ==> s'.frames[id] == s.frames[id]
  {
    var e := s.queue[0];
    CarriedIsNormal(d, true, e.cursor);
    var frames := RecordCursor(s.frames, e).value;
    RecordKeepsFrames(s.frames, e);
    ReachKeepsFrames(frames, e);
    ReachKeepsCursors(frames, e);
    hide FrameOk, Carried;
  }

  lemma StepMoves(d: Definition, copied: set<Id>, x: Execution, y: Execution, f: Id)
    requires Inside(d, true, x) && Next(d, copied, true, x, y) && f in y.system.checkpoint.frames
    ensures FrameMoves(x, y, f)
  {
    hide Inside, Follows, Copies, Prepared, ForkState;
    if e :| Advance(d, copied, true, x, y, e) {
    } else if Park(x, y) {
    } else if k: nat, next, participants, cursor :| Unpark(d, true, x, y, k, next, participants, cursor) {
      UnparkMoves(d, x, y, k, next, participants, cursor, f);
    } else if id, router, join, branches, entries :| Split(d, true, x, y, id, router, join, branches, entries) {
      SplitMoves(d, x, y, id, router, join, branches, entries, f);
    } else if ready :| Arrive(x, y, ready) {
      ArriveMoves(d, x, y, ready, f);
    } else {
      assert Finish(x, y);
    }
  }

  lemma UnparkMoves(d: Definition, x: Execution, y: Execution,
                    k: nat, next: Id, participants: Option<seq<int>>, cursor: Option<C.Raw>, f: Id)
    requires Inside(d, true, x) && Unpark(d, true, x, y, k, next, participants, cursor)
    requires f in y.system.checkpoint.frames
    ensures FrameMoves(x, y, f)
  {
    L.ConservedFrames(x.system);
    assert FrameOk(f, x.system.checkpoint.frames[f]) && FrameCarried(d, true, x.system.checkpoint.frames[f]);
    NormalKeepsRecord(d, x.system.checkpoint.frames[f]);
  }

  lemma SplitMoves(d: Definition, x: Execution, y: Execution,
                   id: Id, router: Id, join: Id, branches: seq<Id>, entries: seq<Entry>, f: Id)
    requires Split(d, true, x, y, id, router, join, branches, entries) && f in y.system.checkpoint.frames
    ensures FrameMoves(x, y, f)
  {
  }

  // ----- whole executions

  /** Branch `b` of frame `f` arrived at step `j` with `cursor`. */
  ghost predicate ArrivedWith(run: seq<Execution>, j: int, f: Id, b: Id, cursor: C.Raw) {
    && 0 <= j < |run| - 1 && ArrivesAt(run[j], run[j + 1], f, b)
    && run[j].system.checkpoint.queue[0].cursor == Some(cursor)
  }

  /** The frame has recorded exactly the branches that have arrived, each with the cursor that it
      arrived with at some step before `i`. */
  ghost predicate RecordsArrivals(run: seq<Execution>, i: nat, f: Id)
    requires i < |run| && f in run[i].system.checkpoint.frames
  {
    var frame := run[i].system.checkpoint.frames[f];
    && (forall b :: b in frame.barrier.arrived <==> b in Recorded(frame))
    && forall b :: b in Recorded(frame) ==> exists j :: j < i && ArrivedWith(run, j, f, b, Recorded(frame)[b])
  }

  /** In every state of every execution with loops each frame holds, for each branch that has
      arrived, exactly the cursor that it arrived with, and nothing for the others. */
  lemma {:induction false} ArrivalsAreRecorded(
    d: Definition, data: bool, copied: set<Id>, run: seq<Execution>, i: nat, f: Id)
    requires Accepted(d, data)
    requires IsExecution(d, copied, true, run) && i < |run| && f in run[i].system.checkpoint.frames
    ensures RecordsArrivals(run, i, f)
  {
    if i > 0 {
      AcceptedListed(d, data);
      ExecutionInside(d, copied, true, run, i - 1);
      StepMoves(d, copied, run[i - 1], run[i], f);
      if f in run[i - 1].system.checkpoint.frames {
        ArrivalsAreRecorded(d, data, copied, run, i - 1, f);
      }
      hide Accepted, Listed, Inside, IsExecution, ArrivesAt;
      RecordsNext(run, i, f);
    }
  }

  lemma RecordsNext(run: seq<Execution>, i: nat, f: Id)
    requires 0 < i < |run| && f in run[i].system.checkpoint.frames && FrameMoves(run[i - 1], run[i], f)
    requires f in run[i - 1].system.checkpoint.frames ==> RecordsArrivals(run, i - 1, f)
    ensures RecordsArrivals(run, i, f)
  {
    var frame := run[i].system.checkpoint.frames[f];
    forall b | b in Recorded(frame)
      ensures exists j :: j < i && ArrivedWith(run, j, f, b, Recorded(frame)[b])
    {
      if f in run[i - 1].system.checkpoint.frames && GainsAt(run[i - 1], run[i], f, b) {
        assert ArrivedWith(run, i - 1, f, b, Recorded(frame)[b]);
      } else {
        var before := Recorded(run[i - 1].system.checkpoint.frames[f]);
        assert b in before && before[b] == Recorded(frame)[b];
        var j :| j < i - 1 && ArrivedWith(run, j, f, b, before[b]);
      }
    }
  }

  // ----- the last arrival

  /** The head stands at the join of its innermost frame. */
  predicate AtItsJoin(c: Checkpoint) {
    && c.queue != [] && c.queue[0].tokens != []
    && LastFrame(c.queue[0]) in c.frames && c.frames[LastFrame(c.queue[0])].join == c.queue[0].node
  }

  /** In an execution with loops the join of the head can be prepared exactly when it stands at its
      own join or has been released before: no branch's cursor is ever missing or invalid. */
  lemma JoinableIff(d: Definition, data: bool, copied: set<Id>, run: seq<Execution>, i: nat)
    requires Accepted(d, data)
    requires IsExecution(d, copied, true, run) && i < |run| && run[i].system.checkpoint.queue != []
    ensures var c := run[i].system.checkpoint;
            Joinable(c) <==> c.queue[0].releasedJoin.Some? || AtItsJoin(c)
  {
    var c := run[i].system.checkpoint;
    var e := c.queue[0];
    AcceptedListed(d, data);
    ExecutionInside(d, copied, true, run, i);
    L.ConservedFrames(run[i].system);
    assert EntryIn(d, Ids(d.nodes), true, e) && QueuedOk(c.frames, e);
    if e.releasedJoin.None? && AtItsJoin(c) {
      ArrivalsAreRecorded(d, data, copied, run, i, LastFrame(e));
      hide Accepted, Listed, IsExecution, Inside;
      AllRecorded(d, c, run, i);
    } else {
      NotJoinable(c);
    }
  }

  lemma NotJoinable(c: Checkpoint)
    requires c.queue != []
    ensures c.queue[0].releasedJoin.Some? ==> Joinable(c)
    ensures c.queue[0].releasedJoin.None? && Joinable(c) ==> AtItsJoin(c)
  {
  }

  lemma AllRecorded(d: Definition, c: Checkpoint, run: seq<Execution>, i: nat)
    requires i < |run| && c == run[i].system.checkpoint && FramesOk(c.frames) && AtItsJoin(c)
    requires QueuedOk(c.frames, c.queue[0]) && Carried(d, true, c.queue[0].cursor)
    requires RecordsArrivals(run, i, LastFrame(c.queue[0]))
    ensures Joinable(c)
  {
    var e := c.queue[0];
    var id := LastFrame(e);
    var branch := e.tokens[|e.tokens| - 1].branch;
    assert TokenOk(c.frames, e.tokens[|e.tokens| - 1]) && FrameOk(id, c.frames[id]);
    var frames := RecordCursor(c.frames, e).value;
    RecordKeepsFrames(c.frames, e);
    assert FrameOk(id, frames[id]);
    assert forall b :: b in Recorded(c.frames[id]) ==> b in Recorded(frames[id]);
    assert branch in Recorded(frames[id]);
    B.ArriveOnValid(frames[id].barrier, branch);
    ReachKeepsCursors(frames, e);
    hide ArrivedWith, FrameOk, C.ValidRaw, B.Valid;
    var reached := ReachJoin(frames, e.node, e.tokens).value;
    assert reached.state[id].barrier.expected == frames[id].barrier.expected == c.frames[id].barrier.expected;
    if reached.disposition.Release? {
      forall b | b in frames[id].barrier.expected
        ensures b in Recorded(frames[id])
      {
        ReleasedCovers(frames[id].barrier, branch, b);
      }
    }
  }

  lemma ReleasedCovers(barrier: B.Barrier, branch: Id, b: Id)
    requires B.Arrive(barrier, branch).Ok? && B.Arrive(barrier, branch).value.disposition.Release? && b in barrier.expected
    ensures b == branch || b in barrier.arrived
  {
    var i :| 0 <= i < |barrier.expected| && barrier.expected[i] == b;
    assert barrier.expected[i] in barrier.arrived + [branch];
  }

  /** Two lists with the same members have the same merge. */
  lemma MergeOfSame(u: seq<C.Cursor>, v: seq<C.Cursor>, m: C.Cursor)
    requires C.IsMerge(u, m) && u != [] && v != []
    requires (forall i :: 0 <= i < |u| ==> u[i] in v) && (forall i :: 0 <= i < |v| ==> v[i] in u)
    ensures C.IsMerge(v, m)
  {
    forall e
      ensures C.MaxCount(u, e) == C.MaxCount(v, e)
    {
      C.MaxCountBounds(u, e);
      C.MaxCountBounds(v, e);
    }
  }

  /** `values` are the cursors with which the expected branches of frame `f` arrived, in their order. */
  ghost predicate ArrivingCursors(run: seq<Execution>, i: nat, f: Id, expected: seq<Id>, values: seq<C.Cursor>) {
    && |values| == |expected|
    && forall k :: 0 <= k < |expected| ==> ArrivedBefore(run, i, f, expected[k], values[k])
  }

  ghost predicate ArrivedBefore(run: seq<Execution>, i: nat, f: Id, b: Id, cursor: C.Cursor) {
    exists j :: j < i && ArrivedWith(run, j, f, b, C.Stored(1, cursor))
  }

  /** The last arrival releases an entry whose cursor is the merge of exactly the cursors with which
      all expected branches arrived, its own among them. */
  lemma ReleasedIsMergeOfArrivals(
    d: Definition, data: bool, copied: set<Id>, run: seq<Execution>, i: nat) returns (values: seq<C.Cursor>)
    requires Accepted(d, data)
    requires IsExecution(d, copied, true, run) && i + 1 < |run| && Arrive(run[i], run[i + 1], true)
    ensures run[i].system.checkpoint.queue != [] && run[i].system.checkpoint.queue[0].tokens != []
    ensures var f, c' := LastFrame(run[i].system.checkpoint.queue[0]), run[i + 1].system.checkpoint;
            && f in c'.frames && ArrivingCursors(run, i + 1, f, c'.frames[f].barrier.expected, values)
            && c'.queue != [] && c'.queue[0].cursor.Some? && C.IsMerge(values, c'.queue[0].cursor.value.traversals)
  {
    var c, c' := run[i].system.checkpoint, run[i + 1].system.checkpoint;
    AcceptedListed(d, data);
    ExecutionInside(d, copied, true, run, i);
    ExecutionInside(d, copied, true, run, i + 1);
    L.ConservedFrames(run[i + 1].system);
    L.ConservedFrames(run[i].system);
    assert EntryIn(d, Ids(d.nodes), true, c.queue[0]) && QueuedOk(c.frames, c.queue[0]);
    ArriveReleases(d, c, c');
    var f := LastFrame(c.queue[0]);
    ArrivalsAreRecorded(d, data, copied, run, i + 1, f);
    assert FrameOk(f, c'.frames[f]) && FrameCarried(d, true, c'.frames[f]);
    hide Accepted, Listed, IsExecution, Inside, Arrive;
    values := MergedArrivals(d, run, i + 1, f, c'.queue[0].cursor);
  }

  /** What the last arrival leaves behind. */
  lemma ArriveReleases(d: Definition, s: Checkpoint, s': Checkpoint)
    requires s.queue != [] && s.queue[0].releasedJoin.None? && Prepared(s, s', true)
    requires FramesOk(s.frames) && QueuedOk(s.frames, s.queue[0]) && Carried(d, true, s.queue[0].cursor)
    ensures s.queue[0].tokens != [] && s'.queue != []
    ensures var f := LastFrame(s.queue[0]);
            f in s'.frames && s'.frames[f].barrier.released && s'.frames[f].cursors.Some? &&
            MergedCursor(s'.frames[f].cursors.value, s'.queue[0].cursor)
  {
    var e := s.queue[0];
    var frames := RecordCursor(s.frames, e).value;
    RecordKeepsFrames(s.frames, e);
    ReachKeepsFrames(frames, e);
    ReachKeepsCursors(frames, e);
    hide FrameOk, Carried, C.WithinLimits;
  }

  /** A recorded cursor is one that the branch arrived with. */
  lemma ArrivalIs(d: Definition, run: seq<Execution>, i: nat, f: Id, b: Id)
    requires i < |run| && f in run[i].system.checkpoint.frames && RecordsArrivals(run, i, f)
    requires var frame := run[i].system.checkpoint.frames[f]; FrameCarried(d, true, frame) && b in Recorded(frame)
    ensures var cursor := Recorded(run[i].system.checkpoint.frames[f])[b];
            cursor.Stored? && ArrivedBefore(run, i, f, b, cursor.traversals)
  {
    var cursor := Recorded(run[i].system.checkpoint.frames[f])[b];
    hide ArrivedWith;
    assert Carried(d, true, Some(cursor));
    assert cursor == C.Stored(1, cursor.traversals);
  }

  lemma MergedArrivals(d: Definition, run: seq<Execution>, i: nat, f: Id, merged: Option<C.Raw>) returns (values: seq<C.Cursor>)
    requires i < |run| && f in run[i].system.checkpoint.frames && RecordsArrivals(run, i, f)
    requires var frame := run[i].system.checkpoint.frames[f];
             FrameOk(f, frame) && FrameCarried(d, true, frame) && frame.barrier.released &&
             frame.cursors.Some? && MergedCursor(frame.cursors.value, merged)
    ensures ArrivingCursors(run, i, f, run[i].system.checkpoint.frames[f].barrier.expected, values)
    ensures merged.Some? && C.IsMerge(values, merged.value.traversals)
  {
    var frame := run[i].system.checkpoint.frames[f];
    var cursors, expected := frame.cursors.value, frame.barrier.expected;
    B.CoversByCount(frame.barrier);
    assert forall b :: b in expected <==> b in cursors;
    hide FrameOk, FrameCarried, RecordsArrivals, ArrivedBefore, C.IsMerge;
    forall k | 0 <= k < |expected|
      ensures expected[k] in cursors && cursors[expected[k]].Stored?
      ensures ArrivedBefore(run, i, f, expected[k], cursors[expected[k]].traversals)
    {
      assert expected[k] in Recorded(frame);
      ArrivalIs(d, run, i, f, expected[k]);
    }
    assert Enumerates(expected, cursors);
    values := C.Unwrap(CursorList(expected, cursors));
    MergeAsListed(cursors, merged, expected);
  }

  /** The merge does not depend on the order in which the branches are enumerated. */
  lemma MergeAsListed(cursors: map<Id, C.Raw>, merged: Option<C.Raw>, branches: seq<Id>)
    requires MergedCursor(cursors, merged) && Enumerates(branches, cursors) && branches != []
    ensures C.IsMerge(C.Unwrap(CursorList(branches, cursors)), merged.value.traversals)
  {
    var others :| Enumerates(others, cursors) && C.IsMerge(C.Unwrap(CursorList(others, cursors)), merged.value.traversals);
    hide C.IsMerge, MergedCursor;
    SameMembers(others, branches, cursors);
    SameMembers(branches, others, cursors);
    EnumeratesAll(branches, others, cursors, 0);
    MergeOfSame(C.Unwrap(CursorList(others, cursors)), C.Unwrap(CursorList(branches, cursors)), merged.value.traversals);
  }

  lemma EnumeratesAll(a: seq<Id>, b: seq<Id>, cursors: map<Id, C.Raw>, i: nat)
    requires Enumerates(a, cursors) && Enumerates(b, cursors) && i < |a|
    ensures a[i] in b
  {
    var x: Id := a[i];
    assert x in cursors.Keys;
    assert x in b;
  }

  lemma SameMembers(a: seq<Id>, b: seq<Id>, cursors: map<Id, C.Raw>)
    requires Enumerates(a, cursors) && Enumerates(b, cursors)
    ensures var u, v := C.Unwrap(CursorList(a, cursors)), C.Unwrap(CursorList(b, cursors));
            forall i :: 0 <= i < |u| ==> u[i] in v
  {
    var u, v := C.Unwrap(CursorList(a, cursors)), C.Unwrap(CursorList(b, cursors));
    forall i | 0 <= i < |u|
      ensures u[i] in v
    {
      EnumeratesAll(a, b, cursors, i);
      var k :| 0 <= k < |b| && b[k] == a[i];
      assert v[k] == u[i];
    }
  }
}
