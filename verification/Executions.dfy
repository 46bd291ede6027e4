/** Whole executions of a definition (the main loop of server/workflow-engine.ts): the steps of the
    parallel protocol together with the loop cursors that the entries carry, advanced along the edges
    or, by tasks that are executed automatically, copied.  Where every cycle is counted, no visit is
    taken up twice and no durable key repeats.  Steps other than forks have one successor. */
module Executions {
  import opened Workflow
  import opened Graphs
  import opened Sorting
  import opened Topology
  import opened Compiler
  import opened CountedCycles
  import opened ParallelCheckpoint
  import B = ParallelBarrier
  import C = LoopCursor
  import L = ParallelLineage
  import R = LoopRun

  /** What identifies a queue entry that the main loop takes up. */
  datatype Taken = Taken(node: Id, path: L.Path, cursor: C.Cursor)

  /** `taken` lists the entries taken up so far: the visits, and the arrivals at joins. */
  datatype Execution = Execution(system: L.System, taken: seq<Taken>)

  /** Without loops entries carry no cursor, which counts as the empty one. */
  function CursorOf(e: Entry): C.Cursor {
    if e.cursor.Some? && e.cursor.value.Stored? then e.cursor.value.traversals else []
  }

  function VisitOf(e: Entry): R.Visit {
    R.Visit(e.node, CursorOf(e))
  }

  function TakenAs(e: Entry): Taken {
    Taken(e.node, e.tokens, CursorOf(e))
  }

  /** Loop executions give every entry a cursor, others none. */
  predicate Shaped(loops: bool, cursor: Option<C.Raw>) {
    if loops then cursor.Some? && cursor.value.Stored? && cursor.value.schemaVersion == 1 else cursor.None?
  }

  // ----- executions

  /** `b` is queued for a successor of `a`'s node. */
  ghost predicate Follows(d: Definition, loops: bool, a: Entry, b: Entry) {
    Shaped(loops, b.cursor) && R.Follow(d.edges, VisitOf(a), VisitOf(b))
  }

  /** `b` is queued for a successor of `a`'s node by an automatically executed task. */
  ghost predicate Copies(d: Definition, copied: set<Id>, a: Entry, b: Entry) {
    b.cursor == a.cursor && R.Copy(d.edges, copied, VisitOf(a), VisitOf(b))
  }

  ghost predicate Begin(d: Definition, loops: bool, x: Execution) {
    && L.Start(x.system) && x.taken == []
    && (exists s :: s in d.nodes && StartNode()(s) && VisitOf(x.system.checkpoint.queue[0]) == R.Visit(s.id, []))
    && Shaped(loops, x.system.checkpoint.queue[0].cursor)
  }

  ghost predicate HeadTaken(x: Execution, y: Execution) {
    x.system.checkpoint.queue != [] && y.taken == x.taken + [TakenAs(x.system.checkpoint.queue[0])]
  }

  ghost predicate Advance(d: Definition, copied: set<Id>, loops: bool, x: Execution, y: Execution, e: Entry) {
    && HeadTaken(x, y) && L.Advance(x.system, y.system, e)
    && (Follows(d, loops, x.system.checkpoint.queue[0], e) || Copies(d, copied, x.system.checkpoint.queue[0], e))
  }

  ghost predicate Park(x: Execution, y: Execution) {
    HeadTaken(x, y) && L.Park(x.system, y.system)
  }

  /** A parked visit completes: it was taken up before, only its successor is new. */
  ghost predicate Unpark(
    d: Definition, loops: bool, x: Execution, y: Execution, k: nat, next: Id, participants: Option<seq<int>>, cursor: Option<C.Raw>)
  {
    && y.taken == x.taken && L.Unpark(x.system, y.system, k, next, participants, cursor)
    && Follows(d, loops, x.system.waiting[k], Entry(next, x.system.waiting[k].tokens, participants, None, cursor))
  }

  /** A router sends out at most one branch along each edge. */
  ghost predicate Split(
    d: Definition, loops: bool, x: Execution, y: Execution, id: Id, router: Id, join: Id, branches: seq<Id>, entries: seq<Entry>)
  {
    && HeadTaken(x, y) && L.ForkStep(x.system, y.system, id, router, join, branches, entries)
    && |branches| <= |d.edges|
    && forall i :: 0 <= i < |entries| ==> Follows(d, loops, x.system.checkpoint.queue[0], entries[i])
  }

  /** A branch arrives at its join.  The released entry is a visit of its own and taken up later. */
  ghost predicate Arrive(x: Execution, y: Execution, ready: bool) {
    HeadTaken(x, y) && L.JoinStep(x.system, y.system, ready) && x.system.checkpoint.queue[0].releasedJoin.None?
  }

  ghost predicate Finish(x: Execution, y: Execution) {
    HeadTaken(x, y) && L.Finish(x.system, y.system)
  }

  ghost predicate Next(d: Definition, copied: set<Id>, loops: bool, x: Execution, y: Execution) {
    || (exists e :: Advance(d, copied, loops, x, y, e))
    || Park(x, y)
    || (exists k: nat, next, participants, cursor :: Unpark(d, loops, x, y, k, next, participants, cursor))
    || (exists id, router, join, branches, entries :: Split(d, loops, x, y, id, router, join, branches, entries))
    || (exists ready :: Arrive(x, y, ready))
    || Finish(x, y)
  }

  ghost predicate IsExecution(d: Definition, copied: set<Id>, loops: bool, run: seq<Execution>) {
    && run != [] && Begin(d, loops, run[0])
    && forall i :: 0 <= i < |run| - 1 ==> Next(d, copied, loops, run[i], run[i + 1])
  }

  // ----- the invariant

  ghost predicate Carried(d: Definition, loops: bool, cursor: Option<C.Raw>) {
    && Shaped(loops, cursor)
    && (loops ==> C.Canonical(cursor.value.traversals) && C.WithinLimits(cursor.value.traversals, d.edges))
  }

  ghost predicate EntryIn(d: Definition, order: seq<Id>, loops: bool, e: Entry) {
    e.node in order && Carried(d, loops, e.cursor)
  }

  ghost predicate FrameCarried(d: Definition, loops: bool, f: Frame) {
    if loops then f.cursors.Some? ==> forall b :: b in f.cursors.value ==> Carried(d, loops, Some(f.cursors.value[b]))
    else f.cursors.None?
  }

  ghost predicate FramesCarried(d: Definition, loops: bool, frames: Frames) {
    forall id :: id in frames ==> FrameCarried(d, loops, frames[id])
  }

  ghost predicate TakenIn(order: seq<Id>, loops: bool, frames: Frames, t: Taken) {
    t.node in order && PathOk(frames, t.path) && C.Canonical(t.cursor) && (!loops ==> t.cursor == [])
  }

  function Progress(d: Definition, order: seq<Id>, t: Taken): int
    requires t.node in order
  {
    R.Progress(d.edges, order, R.Visit(t.node, t.cursor))
  }

  /** What was taken up on the entry's path, or before the path was forked off, lies behind it. */
  ghost predicate Behind(d: Definition, order: seq<Id>, t: Taken, e: Entry) {
    t.node in order && e.node in order && t.path <= e.tokens ==> Progress(d, order, t) < Progress(d, order, TakenAs(e))
  }

  /** The same for a parked entry, which has itself been taken up. */
  ghost predicate NotAhead(d: Definition, order: seq<Id>, t: Taken, e: Entry) {
    t.node in order && e.node in order && t.path <= e.tokens ==> Progress(d, order, t) <= Progress(d, order, TakenAs(e))
  }

  ghost predicate Ranked(d: Definition, order: seq<Id>, taken: seq<Taken>, queue: seq<Entry>, waiting: seq<Entry>) {
    && (forall t, e :: t in taken && e in queue ==> Behind(d, order, t, e))
    && (forall t, e :: t in taken && e in waiting ==> NotAhead(d, order, t, e))
  }

  ghost predicate AllIn(d: Definition, order: seq<Id>, loops: bool, s: L.System) {
    && (forall e :: e in s.checkpoint.queue ==> EntryIn(d, order, loops, e))
    && (forall e :: e in s.waiting ==> EntryIn(d, order, loops, e))
    && FramesCarried(d, loops, s.checkpoint.frames)
  }

  ghost predicate Ordered(d: Definition, order: seq<Id>, loops: bool, x: Execution) {
    && L.Good(x.system)
    && AllIn(d, order, loops, x.system)
    && (forall t :: t in x.taken ==> TakenIn(order, loops, x.system.checkpoint.frames, t))
    && Ranked(d, order, x.taken, x.system.checkpoint.queue, x.system.waiting)
    && Distinct(x.taken)
  }

  // ----- taking up the head

  lemma HeadApart(s: L.System, y: Entry)
    requires L.Conserved(s) && s.checkpoint.queue != [] && (y in s.checkpoint.queue[1..] || y in s.waiting)
    ensures !(s.checkpoint.queue[0].tokens <= y.tokens)
  {
    hide L.Conserved;
    var q := s.checkpoint.queue;
    if y in q[1..] {
      var i :| 0 <= i < |q[1..]| && q[1..][i] == y;
      assert L.Entries(s)[i + 1] == y;
      L.LivePathsApart(s, 0, i + 1);
    } else {
      var i :| 0 <= i < |s.waiting| && s.waiting[i] == y;
      assert L.Entries(s)[|q| + i] == y;
      L.LivePathsApart(s, 0, |q| + i);
    }
  }

  /** The head is new among what was taken up, and nothing else that lives is on its path. */
  lemma TakeHead(d: Definition, order: seq<Id>, loops: bool, x: Execution, y: Execution)
    requires Ordered(d, order, loops, x) && HeadTaken(x, y)
    ensures TakenAs(x.system.checkpoint.queue[0]) !in x.taken && Distinct(y.taken)
    ensures Ranked(d, order, y.taken, x.system.checkpoint.queue[1..], x.system.waiting)
    ensures forall t :: t in y.taken ==> NotAhead(d, order, t, x.system.checkpoint.queue[0])
    ensures forall t :: t in y.taken ==> TakenIn(order, loops, x.system.checkpoint.frames, t)
  {
    hide Progress, PathOk, L.Conserved, Carried, FramesCarried;
    var q := x.system.checkpoint.queue;
    var h := TakenAs(q[0]);
    assert EntryIn(d, order, loops, q[0]);
    forall t | t in x.taken
      ensures Behind(d, order, t, q[0]) && t != h
    {
      assert TakenIn(order, loops, x.system.checkpoint.frames, t);
    }
    forall e | e in q[1..] || e in x.system.waiting
      ensures !(h.path <= e.tokens)
    {
      HeadApart(x.system, e);
    }
    HeadCarried(d, order, loops, x.system);
  }

  lemma HeadCarried(d: Definition, order: seq<Id>, loops: bool, s: L.System)
    requires L.EntriesOk(s) && AllIn(d, order, loops, s) && s.checkpoint.queue != []
    ensures TakenIn(order, loops, s.checkpoint.frames, TakenAs(s.checkpoint.queue[0]))
  {
    assert QueuedOk(s.checkpoint.frames, s.checkpoint.queue[0]);
    assert EntryIn(d, order, loops, s.checkpoint.queue[0]);
    R.EmptyCursor(d.edges);
  }

  // ----- each step keeps the invariant

  lemma CopiesAhead(d: Definition, copied: set<Id>, order: seq<Id>, loops: bool, a: Entry, b: Entry)
    requires R.CopiesForward(d.edges, copied, order) && EntryIn(d, order, loops, a) && Copies(d, copied, a, b)
    ensures EntryIn(d, order, loops, b) && Progress(d, order, TakenAs(a)) < Progress(d, order, TakenAs(b))
  {
    hide R.CopiesForward, R.Progress;
    R.CopyRaisesProgress(d.edges, copied, order, VisitOf(a), VisitOf(b));
  }

  lemma FollowsAhead(d: Definition, order: seq<Id>, loops: bool, a: Entry, b: Entry)
    requires Layout(d, order) && EntryIn(d, order, loops, a) && Follows(d, loops, a, b)
    ensures EntryIn(d, order, loops, b) && Progress(d, order, TakenAs(a)) < Progress(d, order, TakenAs(b))
  {
    hide R.Follow, Connects, R.Progress;
    R.FollowStaysInside(d, order, VisitOf(a), VisitOf(b));
    R.FollowKeepsLimits(d.edges, VisitOf(a), VisitOf(b));
    R.FollowRaisesProgress(d, order, VisitOf(a), VisitOf(b));
  }

  lemma AdvanceKeepsOrdered(
    d: Definition, copied: set<Id>, order: seq<Id>, loops: bool, x: Execution, y: Execution, e: Entry)
    requires Layout(d, order) && R.CopiesForward(d.edges, copied, order)
    requires Ordered(d, order, loops, x) && Advance(d, copied, loops, x, y, e)
    ensures Ordered(d, order, loops, y)
  {
    hide Layout, Follows, Copies, R.CopiesForward, Progress, Carried, FramesCarried, PathOk, L.Conserved, L.EntriesOk, QueuedOk;
    assert L.Next(x.system, y.system);
    L.NextKeepsGood(x.system, y.system);
    TakeHead(d, order, loops, x, y);
    if Follows(d, loops, x.system.checkpoint.queue[0], e) {
      FollowsAhead(d, order, loops, x.system.checkpoint.queue[0], e);
    } else {
      CopiesAhead(d, copied, order, loops, x.system.checkpoint.queue[0], e);
    }
    assert forall t :: t in y.taken ==> NotAhead(d, order, t, x.system.checkpoint.queue[0]);
  }

  lemma ParkKeepsOrdered(d: Definition, order: seq<Id>, loops: bool, x: Execution, y: Execution)
    requires Ordered(d, order, loops, x) && Park(x, y)
    ensures Ordered(d, order, loops, y)
  {
    hide Progress, Carried, FramesCarried, PathOk, L.Conserved, L.EntriesOk, QueuedOk, NotAhead, Behind;
    assert L.Next(x.system, y.system);
    L.NextKeepsGood(x.system, y.system);
    TakeHead(d, order, loops, x, y);
  }

  lemma FinishKeepsOrdered(d: Definition, order: seq<Id>, loops: bool, x: Execution, y: Execution)
    requires Ordered(d, order, loops, x) && Finish(x, y)
    ensures Ordered(d, order, loops, y)
  {
    hide Progress, Carried, FramesCarried, PathOk, L.Conserved, L.EntriesOk, QueuedOk, NotAhead, Behind;
    assert L.Next(x.system, y.system);
    L.NextKeepsGood(x.system, y.system);
    TakeHead(d, order, loops, x, y);
  }

  /** Cursors inside an execution are in normal form already. */
  lemma CarriedIsNormal(d: Definition, loops: bool, cursor: Option<C.Raw>)
    requires Carried(d, loops, cursor) && (cursor.Some? ==> C.ValidRaw(cursor.value))
    ensures cursor.Some? ==> Normal(cursor.value) == cursor.value
  {
    if loops {
      R.CanonicalIsSorted(cursor.value.traversals);
    }
  }

  lemma NormalFramesCarried(d: Definition, loops: bool, frames: Frames)
    requires FramesCarried(d, loops, frames) && FramesOk(frames)
    ensures FramesCarried(d, loops, NormalFrames(frames))
  {
    forall id | id in frames
      ensures FrameCarried(d, loops, NormalFrame(frames[id]))
    {
      assert FrameCarried(d, loops, frames[id]) && FrameOk(id, frames[id]);
      if loops && frames[id].cursors.Some? {
        var cursors := frames[id].cursors.value;
        forall b | b in cursors
          ensures Carried(d, loops, Some(Normal(cursors[b])))
        {
          CarriedIsNormal(d, loops, Some(cursors[b]));
        }
      }
    }
  }

  lemma UnparkQueue(d: Definition, order: seq<Id>, loops: bool, s: L.System, s': L.System,
                    k: nat, next: Id, participants: Option<seq<int>>, cursor: Option<C.Raw>)
    requires L.EntriesOk(s) && AllIn(d, order, loops, s) && Carried(d, loops, cursor)
    requires L.Unpark(s, s', k, next, participants, cursor)
    ensures s'.checkpoint.queue == s.checkpoint.queue + [Entry(next, s.waiting[k].tokens, participants, None, cursor)]
  {
    var e := Entry(next, s.waiting[k].tokens, participants, None, cursor);
    var longer := s.checkpoint.queue + [e];
    assert Successors([next], s.waiting[k].tokens, participants, cursor, None) == [e];
    forall i | 0 <= i < |longer|
      ensures NormalEntry(longer[i]) == longer[i]
    {
      assert QueuedOk(s.checkpoint.frames, longer[i]);
      assert i < |s.checkpoint.queue| ==> EntryIn(d, order, loops, s.checkpoint.queue[i]);
      CarriedIsNormal(d, loops, longer[i].cursor);
    }
    assert NormalQueue(longer) == longer;
  }

  lemma UnparkKeepsOrdered(d: Definition, order: seq<Id>, loops: bool, x: Execution, y: Execution,
                           k: nat, next: Id, participants: Option<seq<int>>, cursor: Option<C.Raw>)
    requires Layout(d, order) && Ordered(d, order, loops, x)
    requires Unpark(d, loops, x, y, k, next, participants, cursor)
    ensures Ordered(d, order, loops, y)
  {
    hide Layout, Progress, Carried, FramesCarried, PathOk, L.Conserved, QueuedOk, FramesOk, NormalFrames;
    var parked := x.system.waiting[k];
    var e := Entry(next, parked.tokens, participants, None, cursor);
    assert L.Next(x.system, y.system);
    L.NextKeepsGood(x.system, y.system);
    assert EntryIn(d, order, loops, parked);
    FollowsAhead(d, order, loops, parked, e);
    hide Follows;
    UnparkQueue(d, order, loops, x.system, y.system, k, next, participants, cursor);
    hide L.EntriesOk;
    L.ConservedFrames(x.system);
    NormalFramesCarried(d, loops, x.system.checkpoint.frames);
    NormalPaths(x.system.checkpoint.frames);
    assert forall t :: t in x.taken ==> NotAhead(d, order, t, parked);
    assert forall w :: w in y.system.waiting ==> w in x.system.waiting;
  }

  lemma NormalPaths(frames: Frames)
    ensures forall p :: PathOk(frames, p) ==> PathOk(NormalFrames(frames), p)
  {
  }

  /** What was taken up before a fork and lies on a new branch lies before the fork. */
  lemma BranchBehind(d: Definition, order: seq<Id>, loops: bool, frames: Frames, t: Taken, head: Entry, e: Entry, id: Id, branch: Id)
    requires id !in frames && TakenIn(order, loops, frames, t) && NotAhead(d, order, t, head)
    requires head.node in order && e.node in order && e.tokens == head.tokens + [Token(id, branch)]
    requires Progress(d, order, TakenAs(head)) < Progress(d, order, TakenAs(e))
    ensures Behind(d, order, t, e)
  {
    hide Progress;
    assert t.path != [] ==> TokenOk(frames, t.path[|t.path| - 1]);
    assert t.path <= e.tokens && |t.path| == |e.tokens| ==> t.path == e.tokens;
    assert t.path != e.tokens;
    assert t.path <= e.tokens ==> t.path <= head.tokens;
  }

  lemma ForkKeepsOrdered(d: Definition, order: seq<Id>, loops: bool, x: Execution, y: Execution,
                         id: Id, router: Id, join: Id, branches: seq<Id>, entries: seq<Entry>)
    requires Layout(d, order) && Ordered(d, order, loops, x)
    requires Split(d, loops, x, y, id, router, join, branches, entries)
    ensures Ordered(d, order, loops, y)
  {
    var frames, head := x.system.checkpoint.frames, x.system.checkpoint.queue[0];
    ForkPaths(frames, id, router, join, branches, head.tokens);
    assert id !in frames && y.system.checkpoint.frames[id].cursors.None?;
    assert forall f :: f in frames ==> y.system.checkpoint.frames[f] == frames[f];
    assert forall i :: 0 <= i < |entries| ==> entries[i].tokens == head.tokens + [Token(id, branches[i])];
    assert FramesCarried(d, loops, y.system.checkpoint.frames) by {
      forall f | f in y.system.checkpoint.frames
        ensures FrameCarried(d, loops, y.system.checkpoint.frames[f])
      {
        assert f in frames ==> FrameCarried(d, loops, frames[f]);
      }
    }
    hide Layout, Follows, Progress, Carried, FramesCarried, PathOk, L.Conserved, L.EntriesOk, QueuedOk, ForkState;
    assert L.Next(x.system, y.system);
    L.NextKeepsGood(x.system, y.system);
    hide L.Good, L.ForkStep;
    TakeHead(d, order, loops, x, y);
    forall e | e in entries
      ensures EntryIn(d, order, loops, e) && forall t :: t in y.taken ==> Behind(d, order, t, e)
    {
      var i :| 0 <= i < |entries| && entries[i] == e;
      FollowsAhead(d, order, loops, head, e);
      forall t | t in y.taken
        ensures Behind(d, order, t, e)
      {
        BranchBehind(d, order, loops, frames, t, head, e, id, branches[i]);
      }
    }
  }

  // ----- joins

  lemma RecordedCarried(d: Definition, loops: bool, frames: Frames, e: Entry)
    requires FramesOk(frames) && QueuedOk(frames, e) && FramesCarried(d, loops, frames) && Carried(d, loops, e.cursor)
    requires e.tokens != [] && RecordCursor(frames, e).Ok?
    ensures var r := RecordCursor(frames, e).value;
            FramesCarried(d, loops, r) && LastFrame(e) in r &&
            (loops ==> r[LastFrame(e)].cursors.Some? &&
                       var branch := e.tokens[|e.tokens| - 1].branch;
                       branch in r[LastFrame(e)].cursors.value && r[LastFrame(e)].cursors.value[branch] == e.cursor.value)
  {
    var r := RecordCursor(frames, e).value;
    CarriedIsNormal(d, loops, e.cursor);
    assert TokenOk(frames, e.tokens[|e.tokens| - 1]);
    assert FrameCarried(d, loops, frames[LastFrame(e)]);
    forall id | id in r
      ensures FrameCarried(d, loops, r[id])
    {
      assert id in frames && FrameCarried(d, loops, frames[id]);
    }
  }

  /** The join of the protocol raises the cursor as the steps of a run allow. */
  lemma ReleasedIsRaised(d: Definition, loops: bool, frames: Frames, e: Entry, released: Entry)
    requires e.tokens != [] && LastFrame(e) in frames && ReleasedEntry(frames, e, released)
    requires FrameCarried(d, loops, frames[LastFrame(e)]) && Carried(d, loops, e.cursor)
    requires var f := frames[LastFrame(e)];
             loops ==> f.cursors.Some? && var branch := e.tokens[|e.tokens| - 1].branch;
                       branch in f.cursors.value && f.cursors.value[branch] == e.cursor.value
    ensures Carried(d, loops, released.cursor) && R.RaisedTo(d.edges, CursorOf(e), CursorOf(released))
  {
    if loops {
      var f, branch := frames[LastFrame(e)], e.tokens[|e.tokens| - 1].branch;
      var branches :| Enumerates(branches, f.cursors.value) &&
                      C.IsMerge(C.Unwrap(CursorList(branches, f.cursors.value)), released.cursor.value.traversals);
      var list := CursorList(branches, f.cursors.value);
      var i :| 0 <= i < |branches| && branches[i] == branch;
      forall k | 0 <= k < |list|
        ensures C.WithinLimits(C.Unwrap(list)[k], d.edges)
      {
        var b := branches[k];
        assert b in f.cursors.value && Carried(d, loops, Some(f.cursors.value[b]));
      }
      R.MergeRaises(d.edges, C.Unwrap(list), i, CursorOf(released));
    } else {
      R.EmptyCursor(d.edges);
    }
  }

  /** The head leaves the queue or, at the last arrival, becomes the released entry. */
  ghost predicate Replaced(d: Definition, loops: bool, queue: seq<Entry>, queue': seq<Entry>, ready: bool) {
    queue != [] &&
    if !ready then queue' == queue[1..]
    else
      && queue' != [] && queue' == [queue'[0]] + queue[1..] && queue[0].tokens != []
      && queue'[0].releasedJoin.Some? && queue'[0].node == queue[0].node && queue'[0].tokens == queue[0].tokens[..|queue[0].tokens| - 1]
      && Carried(d, loops, queue'[0].cursor) && R.RaisedTo(d.edges, CursorOf(queue[0]), CursorOf(queue'[0]))
  }

  lemma ArriveFrames(d: Definition, loops: bool, s: Checkpoint, s': Checkpoint, ready: bool)
    requires s.queue != [] && s.queue[0].releasedJoin.None? && Prepared(s, s', ready)
    requires FramesOk(s.frames) && QueuedOk(s.frames, s.queue[0])
    requires FramesCarried(d, loops, s.frames) && Carried(d, loops, s.queue[0].cursor)
    ensures FramesCarried(d, loops, s'.frames) && (forall p :: PathOk(s.frames, p) ==> PathOk(s'.frames, p))
    ensures Replaced(d, loops, s.queue, s'.queue, ready)
  {
    var e := s.queue[0];
    var frames := RecordCursor(s.frames, e).value;
    RecordKeepsFrames(s.frames, e);
    RecordedCarried(d, loops, s.frames, e);
    ReachKeepsFrames(frames, e);
    ReachKeepsCursors(frames, e);
    hide Carried, FrameOk, R.RaisedTo, RecordCursor, FrameCarried;
    forall id | id in s'.frames
      ensures FrameCarried(d, loops, s'.frames[id])
    {
      assert FrameCarried(d, loops, frames[id]);
      SameCursors(d, loops, frames[id], s'.frames[id]);
    }
    if ready {
      assert TokenOk(s.frames, e.tokens[|e.tokens| - 1]);
      ReleasedIsRaised(d, loops, s'.frames, e, s'.queue[0]);
    }
  }

  lemma SameCursors(d: Definition, loops: bool, f: Frame, g: Frame)
    requires FrameCarried(d, loops, f) && g.cursors == f.cursors
    ensures FrameCarried(d, loops, g)
  {
  }

  lemma ReachKeepsCursors(frames: Frames, e: Entry)
    requires ReachJoin(frames, e.node, e.tokens).Ok?
    ensures var r := ReachJoin(frames, e.node, e.tokens).value;
            e.tokens != [] && forall id :: id in frames ==> id in r.state && r.state[id].cursors == frames[id].cursors
  {
  }

  /** The released entry goes on where the arriving branch was, or further. */
  lemma ReleasedBehind(d: Definition, order: seq<Id>, t: Taken, e: Entry, released: Entry)
    requires e.tokens != [] && released.node == e.node && released.tokens == e.tokens[..|e.tokens| - 1]
    requires e.node in order && R.RaisedTo(d.edges, CursorOf(e), CursorOf(released))
    requires Behind(d, order, t, e) || t == TakenAs(e)
    ensures Behind(d, order, t, released)
  {
    R.RaiseKeepsProgress(d.edges, order, e.node, CursorOf(e), CursorOf(released));
    hide R.RaisedTo, R.Progress;
  }

  lemma ArriveRanked(d: Definition, order: seq<Id>, loops: bool, x: Execution, y: Execution, ready: bool)
    requires Ordered(d, order, loops, x) && HeadTaken(x, y)
    requires Replaced(d, loops, x.system.checkpoint.queue, y.system.checkpoint.queue, ready)
    ensures Ranked(d, order, y.taken, y.system.checkpoint.queue, x.system.waiting) && Distinct(y.taken)
    ensures forall e :: e in y.system.checkpoint.queue ==> EntryIn(d, order, loops, e)
    ensures forall t :: t in y.taken ==> TakenIn(order, loops, x.system.checkpoint.frames, t)
  {
    hide Progress, Carried, L.Good, FramesCarried, TakenIn, Behind, NotAhead;
    TakeHead(d, order, loops, x, y);
    var q, q' := x.system.checkpoint.queue, y.system.checkpoint.queue;
    assert EntryIn(d, order, loops, q[0]);
    assert forall e :: e in q' ==> e in q[1..] || (ready && e == q'[0]);
    if ready {
      forall t | t in y.taken
        ensures Behind(d, order, t, q'[0])
      {
        ReleasedBehind(d, order, t, q[0], q'[0]);
      }
    }
  }

  lemma ArriveKeepsOrdered(d: Definition, order: seq<Id>, loops: bool, x: Execution, y: Execution, ready: bool)
    requires Ordered(d, order, loops, x) && Arrive(x, y, ready)
    ensures Ordered(d, order, loops, y)
  {
    var s, s' := x.system.checkpoint, y.system.checkpoint;
    assert EntryIn(d, order, loops, s.queue[0]);
    L.ConservedFrames(x.system);
    ArriveFrames(d, loops, s, s', ready);
    ArriveRanked(d, order, loops, x, y, ready);
    assert L.Next(x.system, y.system);
    L.NextKeepsGood(x.system, y.system);
    hide Carried, FramesCarried, PathOk, L.Good, L.Next, Prepared, Ranked, Replaced, EntryIn;
  }

  // ----- whole executions

  lemma NextKeepsOrdered(d: Definition, copied: set<Id>, order: seq<Id>, loops: bool, x: Execution, y: Execution)
    requires Layout(d, order) && R.CopiesForward(d.edges, copied, order)
    requires Ordered(d, order, loops, x) && Next(d, copied, loops, x, y)
    ensures Ordered(d, order, loops, y)
  {
    hide Layout, R.CopiesForward, Ordered, Advance, Park, Unpark, Split, Arrive, Finish;
    if e :| Advance(d, copied, loops, x, y, e) {
      AdvanceKeepsOrdered(d, copied, order, loops, x, y, e);
    } else if Park(x, y) {
      ParkKeepsOrdered(d, order, loops, x, y);
    } else if k: nat, next, participants, cursor :| Unpark(d, loops, x, y, k, next, participants, cursor) {
      UnparkKeepsOrdered(d, order, loops, x, y, k, next, participants, cursor);
    } else if id, router, join, branches, entries :| Split(d, loops, x, y, id, router, join, branches, entries) {
      ForkKeepsOrdered(d, order, loops, x, y, id, router, join, branches, entries);
    } else if ready :| Arrive(x, y, ready) {
      ArriveKeepsOrdered(d, order, loops, x, y, ready);
    } else {
      FinishKeepsOrdered(d, order, loops, x, y);
    }
  }

  lemma StartOrdered(d: Definition, order: seq<Id>, loops: bool, x: Execution)
    requires Elements(order) == IdSet(d.nodes) && Begin(d, loops, x)
    ensures Ordered(d, order, loops, x)
  {
    var s, e := x.system, x.system.checkpoint.queue[0];
    L.StartConserved(s);
    hide L.Conserved;
    var n :| n in d.nodes && StartNode()(n) && VisitOf(e) == R.Visit(n.id, []);
    NodesHaveIds(d.nodes);
    assert e.node in Elements(order);
    R.EmptyCursor(d.edges);
    assert s.checkpoint.queue == [e];
  }

  /** In every state of every execution the taken entries lie behind the live ones on their paths,
      and none has been taken up twice. */
  lemma {:induction false} ExecutionOrdered(
    d: Definition, copied: set<Id>, order: seq<Id>, loops: bool, run: seq<Execution>, i: nat)
    requires Layout(d, order) && R.CopiesForward(d.edges, copied, order)
    requires IsExecution(d, copied, loops, run) && i < |run|
    ensures Ordered(d, order, loops, run[i])
  {
    if i == 0 {
      StartOrdered(d, order, loops, run[0]);
    } else {
      ExecutionOrdered(d, copied, order, loops, run, i - 1);
      hide Layout, R.CopiesForward, Ordered, Next;
      NextKeepsOrdered(d, copied, order, loops, run[i - 1], run[i]);
    }
  }

  /** The loop's check for entries already executed does not fire: the next entry is new. */
  lemma HeadIsNew(d: Definition, order: seq<Id>, loops: bool, x: Execution)
    requires Ordered(d, order, loops, x) && x.system.checkpoint.queue != []
    ensures TakenAs(x.system.checkpoint.queue[0]) !in x.taken
  {
    var y := Execution(x.system, x.taken + [TakenAs(x.system.checkpoint.queue[0])]);
    TakeHead(d, order, loops, x, y);
  }

  lemma PathTokens(frames: Frames, path: L.Path)
    requires FramesOk(frames) && PathOk(frames, path)
    ensures R.TokensOk(path)
  {
    forall i | 0 <= i < |path|
      ensures !IsBlank(path[i].frame) && !IsBlank(path[i].branch)
    {
      assert TokenOk(frames, path[i]) && FrameOk(path[i].frame, frames[path[i].frame]);
    }
  }

  /** Different entries have different keys. */
  lemma TakenKeysDiffer(order: seq<Id>, loops: bool, frames: Frames, u: Taken, v: Taken)
    requires FramesOk(frames) && TakenIn(order, loops, frames, u) && TakenIn(order, loops, frames, v) && u != v
    ensures var version := if loops then 2 else 1;
            var k, l := R.DurableKey(version, u.path, C.Stored(1, u.cursor)), R.DurableKey(version, v.path, C.Stored(1, v.cursor));
            k.Ok? && l.Ok? && (u.node, k.value) != (v.node, l.value)
  {
    PathTokens(frames, u.path);
    PathTokens(frames, v.path);
    R.CanonicalIsSorted(u.cursor);
    R.CanonicalIsSorted(v.cursor);
  }

  /** Whatever branches they are in, two visits of one execution never share node and durable key:
      the unique indexes over them never refuse or merge anything. */
  lemma DurableKeysAreUnique(d: Definition, data: bool, copied: set<Id>, loopsInSubflows: bool,
                             run: seq<Execution>, n: nat, i: nat, j: nat)
    requires var version := R.KeyVersion(d.edges, loopsInSubflows);
             Accepted(d, data) && CyclesCounted(d, copied) && IsExecution(d, copied, version == 2, run) && n < |run|
    requires i < j < |run[n].taken|
    ensures var version, u, v := R.KeyVersion(d.edges, loopsInSubflows), run[n].taken[i], run[n].taken[j];
            var k, l := R.DurableKey(version, u.path, C.Stored(1, u.cursor)), R.DurableKey(version, v.path, C.Stored(1, v.cursor));
            k.Ok? && l.Ok? && (u.node, k.value) != (v.node, l.value)
  {
    var loops, u, v := R.KeyVersion(d.edges, loopsInSubflows) == 2, run[n].taken[i], run[n].taken[j];
    var order := CountedLayout(d, data, copied);
    ExecutionOrdered(d, copied, order, loops, run, n);
    L.ConservedFrames(run[n].system);
    hide Accepted, CyclesCounted, Layout, R.CopiesForward, IsExecution, AllIn, Ranked, L.Good, TakenIn, R.DurableKey, FramesOk;
    TakenKeysDiffer(order, loops, run[n].system.checkpoint.frames, u, v);
  }
}
