/** Runs of the parallel protocol: no branch is lost, doubled, or arrives twice. */
module ParallelLineage {
  import opened Workflow
  import opened LoopCursor
  import opened ParallelCheckpoint
  import B = ParallelBarrier

  type Path = seq<Token>

  /** `waiting` holds the entries parked outside the queue, for people, timers or messages.
      `parent` remembers on which path each frame was forked; the source keeps it only implicitly
      in the tokens.  `rootAlive` says that the unforked path has not finished. */
  datatype System = System(
    checkpoint: Checkpoint, waiting: seq<Entry>, parent: map<Id, Path>, rootAlive: bool)

  function PathsOf(entries: seq<Entry>): multiset<Path> {
    if entries == [] then multiset{} else multiset{entries[0].tokens} + PathsOf(entries[1..])
  }

  /** Every entry that still runs a branch, queued or parked. */
  function Live(s: System): multiset<Path> {
    PathsOf(s.checkpoint.queue) + PathsOf(s.waiting)
  }

  /** The frames forked on path `t` that have not been released. */
  function OpenFrames(frames: Frames, parent: map<Id, Path>, t: Path): set<Id> {
    set f | f in frames && f in parent && parent[f] == t && !frames[f].barrier.released
  }

  /** How many lineages carry the branch of path `t`: the branch itself, or a fork inside it. */
  function Holders(frames: Frames, parent: map<Id, Path>, live: multiset<Path>, t: Path): nat {
    live[t] + |OpenFrames(frames, parent, t)|
  }

  /** How many there have to be: one for an unarrived branch of an unreleased frame, else none. */
  function Due(frames: Frames, parent: map<Id, Path>, rootAlive: bool, t: Path): nat {
    if t == [] then (if rootAlive then 1 else 0)
    else
      var last := t[|t| - 1];
      if last.frame in frames && last.frame in parent && parent[last.frame] == t[..|t| - 1] &&
         last.branch in frames[last.frame].barrier.expected &&
         last.branch !in frames[last.frame].barrier.arrived && !frames[last.frame].barrier.released
      then 1 else 0
  }

  ghost predicate Balanced(frames: Frames, parent: map<Id, Path>, live: multiset<Path>, rootAlive: bool) {
    && parent.Keys == frames.Keys
    && FramesOk(frames)
    && forall t :: Holders(frames, parent, live, t) == Due(frames, parent, rootAlive, t)
  }

  /** The invariant of a run: every open branch has exactly one lineage, nothing else has any. */
  ghost predicate Conserved(s: System) {
    Balanced(s.checkpoint.frames, s.parent, Live(s), s.rootAlive)
  }

  ghost predicate Start(s: System) {
    && s.checkpoint.frames == map[] && s.parent == map[] && s.rootAlive
    && |s.checkpoint.queue| == 1 && s.checkpoint.queue[0].tokens == [] && s.waiting == []
    && QueuedOk(map[], s.checkpoint.queue[0]) && ScopesOk(map[], s.checkpoint.scopes)
  }

  lemma StartConserved(s: System)
    requires Start(s)
    ensures Conserved(s)
  {
    assert s.checkpoint.queue == [s.checkpoint.queue[0]];
    assert PathsOf(s.checkpoint.queue[1..]) == multiset{};
    assert Live(s) == multiset{[]};
    forall t: Path
      ensures OpenFrames(s.checkpoint.frames, s.parent, t) == {}
    {
    }
  }

  // ----- steps

  /** The head's node finishes and hands its branch to one successor. */
  ghost predicate Advance(s: System, s': System, e: Entry) {
    && s.checkpoint.queue != [] && e.tokens == s.checkpoint.queue[0].tokens
    && QueuedOk(s.checkpoint.frames, e)
    && s'.checkpoint.queue == s.checkpoint.queue[1..] + [e] && s'.waiting == s.waiting
    && s'.checkpoint.frames == s.checkpoint.frames && s'.checkpoint.scopes == s.checkpoint.scopes
    && s'.parent == s.parent && s'.rootAlive == s.rootAlive
  }

  /** The head is parked. */
  ghost predicate Park(s: System, s': System) {
    && s.checkpoint.queue != []
    && s'.checkpoint.queue == s.checkpoint.queue[1..] && s'.waiting == s.waiting + [s.checkpoint.queue[0]]
    && s'.checkpoint.frames == s.checkpoint.frames && s'.checkpoint.scopes == s.checkpoint.scopes
    && s'.parent == s.parent && s'.rootAlive == s.rootAlive
  }

  /** A parked entry completes; `resumeParallelCheckpoint` queues its one successor. */
  ghost predicate Unpark(s: System, s': System, k: nat, next: Id, participants: Option<seq<int>>, cursor: Option<Raw>) {
    && k < |s.waiting|
    && QueuedOk(s.checkpoint.frames, Entry(next, s.waiting[k].tokens, participants, None, cursor))
    && s'.waiting == s.waiting[..k] + s.waiting[k + 1..]
    && s'.checkpoint ==
       NormalCheckpoint(Extended(s.checkpoint, Successors([next], s.waiting[k].tokens, participants, cursor, None)))
    && s'.parent == s.parent && s'.rootAlive == s.rootAlive
  }

  /** The head is a parallel router: its branch is replaced by the branches of a new frame. */
  ghost predicate ForkStep(s: System, s': System, id: Id, router: Id, join: Id, branches: seq<Id>, entries: seq<Entry>) {
    s.checkpoint.queue != [] && !IsBlank(id) && !IsReserved(id) && !IsBlank(router) && !IsBlank(join) &&
    match ForkState(s.checkpoint.frames, id, router, join, branches, s.checkpoint.queue[0].tokens)
    case Err(_) => false
    case Ok(fork) =>
      && BranchEntries(entries, fork.tokens)
      && s'.checkpoint == Forked(s.checkpoint, id, branches, fork.state, entries) && s'.waiting == s.waiting
      && s'.parent == s.parent[id := s.checkpoint.queue[0].tokens] && s'.rootAlive == s.rootAlive
  }

  /** The head is a join. */
  ghost predicate JoinStep(s: System, s': System, ready: bool) {
    && Prepared(s.checkpoint, s'.checkpoint, ready)
    && s'.waiting == s.waiting && s'.parent == s.parent && s'.rootAlive == s.rootAlive
  }

  /** The head is the end node, reached outside every parallel branch. */
  ghost predicate Finish(s: System, s': System) {
    && s.checkpoint.queue != [] && s.checkpoint.queue[0].tokens == []
    && s'.checkpoint.queue == s.checkpoint.queue[1..] && s'.waiting == s.waiting
    && s'.checkpoint.frames == s.checkpoint.frames && s'.checkpoint.scopes == s.checkpoint.scopes
    && s'.parent == s.parent && !s'.rootAlive
  }

  ghost predicate Next(s: System, s': System) {
    || (exists e :: Advance(s, s', e))
    || Park(s, s')
    || (exists k: nat, next, participants, cursor :: Unpark(s, s', k, next, participants, cursor))
    || (exists id, router, join, branches, entries :: ForkStep(s, s', id, router, join, branches, entries))
    || (exists ready :: JoinStep(s, s', ready))
    || Finish(s, s')
  }

  ghost predicate IsRun(run: seq<System>) {
    run != [] && Start(run[0]) && forall i :: 0 <= i < |run| - 1 ==> Next(run[i], run[i + 1])
  }

  // ----- counting paths

  lemma {:induction false} PathsConcat(a: seq<Entry>, b: seq<Entry>)
    ensures PathsOf(a + b) == PathsOf(a) + PathsOf(b)
  {
    if a == [] {
      assert a + b == b;
    } else {
      assert (a + b)[0] == a[0] && (a + b)[1..] == a[1..] + b;
      PathsConcat(a[1..], b);
    }
  }

  lemma PathsHead(q: seq<Entry>)
    requires q != []
    ensures PathsOf(q) == multiset{q[0].tokens} + PathsOf(q[1..])
  {
  }

  lemma PathsSingle(e: Entry)
    ensures PathsOf([e]) == multiset{e.tokens}
  {
    assert PathsOf([e][1..]) == multiset{};
  }

  lemma PathsRemove(q: seq<Entry>, k: nat)
    requires k < |q|
    ensures PathsOf(q) == PathsOf(q[..k] + q[k + 1..]) + multiset{q[k].tokens}
  {
    hide PathsOf;
    assert q == q[..k] + ([q[k]] + q[k + 1..]);
    PathsConcat(q[..k], [q[k]] + q[k + 1..]);
    PathsConcat([q[k]], q[k + 1..]);
    PathsConcat(q[..k], q[k + 1..]);
    PathsSingle(q[k]);
  }

  lemma {:induction false} PathsNormal(q: seq<Entry>)
    ensures PathsOf(NormalQueue(q)) == PathsOf(q)
  {
    if q != [] {
      assert NormalQueue(q)[1..] == NormalQueue(q[1..]);
      PathsNormal(q[1..]);
    }
  }

  // ----- each step conserves the lineages

  /** Which frames are open on `t` after frame `id` alone was added, closed or left as it was. */
  lemma OpenFramesChange(f: Frames, f': Frames, parent: map<Id, Path>, parent': map<Id, Path>, id: Id, t: Path)
    requires parent.Keys == f.Keys && parent'.Keys == f'.Keys && f.Keys <= f'.Keys <= f.Keys + {id}
    requires forall x :: x in f && x != id ==> parent'[x] == parent[x] && f'[x].barrier.released == f[x].barrier.released
    ensures OpenFrames(f', parent', t) - {id} == OpenFrames(f, parent, t) - {id}
    ensures id in OpenFrames(f, parent, t) <==> id in f && parent[id] == t && !f[id].barrier.released
    ensures id in OpenFrames(f', parent', t) <==> id in f' && parent'[id] == t && !f'[id].barrier.released
  {
    forall x
      ensures x in OpenFrames(f', parent', t) - {id} <==> x in OpenFrames(f, parent, t) - {id}
    {
      if x != id {
        assert x in f' <==> x in f;
      }
    }
    assert OpenFrames(f', parent', t) - {id} <= OpenFrames(f, parent, t) - {id};
    assert OpenFrames(f, parent, t) - {id} <= OpenFrames(f', parent', t) - {id};
  }

  /** How the number of holders moves with the state of one frame. */
  lemma HoldersChange(f: Frames, f': Frames, parent: map<Id, Path>, parent': map<Id, Path>, id: Id, t: Path)
    requires parent.Keys == f.Keys && parent'.Keys == f'.Keys && f.Keys <= f'.Keys <= f.Keys + {id}
    requires forall x :: x in f && x != id ==> parent'[x] == parent[x] && f'[x].barrier.released == f[x].barrier.released
    ensures |OpenFrames(f', parent', t)| - (if id in f' && parent'[id] == t && !f'[id].barrier.released then 1 else 0) ==
            |OpenFrames(f, parent, t)| - (if id in f && parent[id] == t && !f[id].barrier.released then 1 else 0)
  {
    hide OpenFrames;
    OpenFramesChange(f, f', parent, parent', id, t);
    var a, b := OpenFrames(f, parent, t), OpenFrames(f', parent', t);
    assert id in a ==> a == (a - {id}) + {id};
    assert id !in a ==> a == a - {id};
    assert id in b ==> b == (b - {id}) + {id};
    assert id !in b ==> b == b - {id};
  }

  /** Due and Holders look only at barriers, so normalising cursors does not matter. */
  lemma SameBarriers(f: Frames, f': Frames, parent: map<Id, Path>, live: multiset<Path>, rootAlive: bool)
    requires Balanced(f, parent, live, rootAlive) && FramesOk(f') && f'.Keys == f.Keys
    requires forall id :: id in f ==> f'[id].barrier == f[id].barrier
    ensures Balanced(f', parent, live, rootAlive)
  {
    forall t
      ensures Holders(f', parent, live, t) == Due(f', parent, rootAlive, t)
    {
      HoldersChange(f, f', parent, parent, 0, t);
      assert Holders(f, parent, live, t) == Due(f, parent, rootAlive, t);
    }
  }

  lemma AdvanceConserves(s: System, s': System, e: Entry)
    requires Conserved(s) && Advance(s, s', e)
    ensures Conserved(s')
  {
    var q := s.checkpoint.queue;
    PathsHead(q);
    PathsConcat(q[1..], [e]);
    PathsSingle(e);
    assert Live(s') == Live(s);
  }

  lemma ParkConserves(s: System, s': System)
    requires Conserved(s) && Park(s, s')
    ensures Conserved(s')
  {
    var q := s.checkpoint.queue;
    PathsHead(q);
    PathsConcat(s.waiting, [q[0]]);
    PathsSingle(q[0]);
    assert Live(s') == Live(s);
  }

  lemma UnparkLive(s: System, s': System, k: nat, next: Id, participants: Option<seq<int>>, cursor: Option<Raw>)
    requires Unpark(s, s', k, next, participants, cursor)
    ensures Live(s') == Live(s)
  {
    var added := Successors([next], s.waiting[k].tokens, participants, cursor, None);
    assert added == [added[0]] && added[0].tokens == s.waiting[k].tokens;
    assert s'.checkpoint.queue == NormalQueue(s.checkpoint.queue + added);
    hide PathsOf;
    PathsNormal(s.checkpoint.queue + added);
    PathsConcat(s.checkpoint.queue, added);
    PathsSingle(added[0]);
    PathsRemove(s.waiting, k);
  }

  lemma NormalFramesOk(frames: Frames)
    requires FramesOk(frames)
    ensures FramesOk(NormalFrames(frames))
  {
    forall id | id in frames
      ensures FrameOk(id, NormalFrames(frames)[id])
    {
      NormalFrameOk(id, frames[id]);
    }
  }

  lemma UnparkConserves(s: System, s': System, k: nat, next: Id, participants: Option<seq<int>>, cursor: Option<Raw>)
    requires Conserved(s) && Unpark(s, s', k, next, participants, cursor)
    ensures Conserved(s')
  {
    hide FramesOk, PathsOf, Live;
    UnparkLive(s, s', k, next, participants, cursor);
    NormalFramesOk(s.checkpoint.frames);
    SameBarriers(s.checkpoint.frames, s'.checkpoint.frames, s.parent, Live(s), s.rootAlive);
  }

  lemma FinishConserves(s: System, s': System)
    requires Conserved(s) && Finish(s, s')
    ensures Conserved(s')
  {
    var f, q := s.checkpoint.frames, s.checkpoint.queue;
    PathsHead(q);
    assert Live(s) == Live(s') + multiset{[]};
    forall t
      ensures Holders(f, s.parent, Live(s'), t) == Due(f, s.parent, false, t)
    {
      assert Holders(f, s.parent, Live(s), t) == Due(f, s.parent, s.rootAlive, t);
      assert Holders(f, s.parent, Live(s), []) == Due(f, s.parent, s.rootAlive, []);
    }
  }

  /** The paths of the new branches, each once. */
  lemma {:induction false} BranchPaths(id: Id, branches: seq<Id>, parent: Path, entries: seq<Entry>, t: Path)
    requires |entries| == |branches| && Distinct(branches)
    requires forall i :: 0 <= i < |entries| ==> entries[i].tokens == parent + [Token(id, branches[i])]
    ensures PathsOf(entries)[t] == if t != [] && t[..|t| - 1] == parent && t[|t| - 1].frame == id && t[|t| - 1].branch in branches then 1 else 0
  {
    if entries != [] {
      BranchPaths(id, branches[1..], parent, entries[1..], t);
      assert branches == [branches[0]] + branches[1..];
      var first := parent + [Token(id, branches[0])];
      assert first[..|first| - 1] == parent;
      assert t != [] && t[..|t| - 1] == parent && t[|t| - 1] == Token(id, branches[0]) ==> t == first by {
        if t != [] { assert t == t[..|t| - 1] + [t[|t| - 1]]; }
      }
      assert branches[0] !in branches[1..];
    }
  }

  lemma ForkBalance(f: Frames, parent: map<Id, Path>, live: multiset<Path>, rootAlive: bool,
                    id: Id, frame: Frame, p: Path, entries: seq<Entry>)
    requires Balanced(f, parent, live, rootAlive) && id !in f && live[p] > 0 && FrameOk(id, frame)
    requires frame.barrier.arrived == [] && !frame.barrier.released && |entries| == |frame.barrier.expected|
    requires forall i :: 0 <= i < |entries| ==> entries[i].tokens == p + [Token(id, frame.barrier.expected[i])]
    ensures Balanced(f[id := frame], parent[id := p], live - multiset{p} + PathsOf(entries), rootAlive)
  {
    var f', parent' := f[id := frame], parent[id := p];
    forall t
      ensures Holders(f', parent', live - multiset{p} + PathsOf(entries), t) == Due(f', parent', rootAlive, t)
    {
      BranchPaths(id, frame.barrier.expected, p, entries, t);
      HoldersChange(f, f', parent, parent', id, t);
      assert Holders(f, parent, live, t) == Due(f, parent, rootAlive, t);
    }
  }

  lemma ForkConserves(s: System, s': System, id: Id, router: Id, join: Id, branches: seq<Id>, entries: seq<Entry>)
    requires Conserved(s) && ForkStep(s, s', id, router, join, branches, entries)
    ensures Conserved(s')
  {
    var f, q := s.checkpoint.frames, s.checkpoint.queue;
    PathsHead(q);
    PathsConcat(q[1..], entries);
    assert Live(s') == Live(s) - multiset{q[0].tokens} + PathsOf(entries);
    ForkKeepsFrames(f, id, router, join, branches, q[0].tokens);
    assert FrameOk(id, s'.checkpoint.frames[id]);
    hide Balanced, PathsOf, FramesOk, FrameOk, Live;
    ForkBalance(f, s.parent, Live(s), s.rootAlive, id, s'.checkpoint.frames[id], q[0].tokens, entries);
  }

  /** The head's node finishes outside a fork and its outcome has several edges, or none: all
      successors are queued on its path. */
  ghost predicate FanOut(s: System, s': System, entries: seq<Entry>) {
    && s.checkpoint.queue != []
    && (forall i :: 0 <= i < |entries| ==> entries[i].tokens == s.checkpoint.queue[0].tokens)
    && s'.checkpoint == s.checkpoint.(queue := s.checkpoint.queue[1..] + entries)
    && s'.waiting == s.waiting && s'.parent == s.parent && s'.rootAlive == s.rootAlive
  }

  lemma {:induction false} PathsAlike(entries: seq<Entry>, p: Path)
    requires forall i :: 0 <= i < |entries| ==> entries[i].tokens == p
    ensures PathsOf(entries)[p] == |entries|
    ensures forall t :: t != p ==> PathsOf(entries)[t] == 0
  {
    if entries != [] {
      PathsAlike(entries[1..], p);
    }
  }

  /** Lineages survive such a step exactly when it has one successor, as the steps of a run have. */
  lemma FanOutConservesIff(s: System, s': System, entries: seq<Entry>)
    requires Conserved(s) && FanOut(s, s', entries)
    ensures Conserved(s') <==> |entries| == 1
  {
    var f, q, p := s.checkpoint.frames, s.checkpoint.queue, s.checkpoint.queue[0].tokens;
    PathsHead(q);
    PathsConcat(q[1..], entries);
    PathsAlike(entries, p);
    assert Holders(f, s.parent, Live(s), p) == Due(f, s.parent, s.rootAlive, p);
    if |entries| == 1 {
      assert Live(s') == Live(s);
    }
    if Conserved(s') {
      assert Holders(f, s.parent, Live(s'), p) == Due(f, s.parent, s.rootAlive, p);
    }
  }

  /** An arrival that has to wait: the branch's path stops being due and stops being live. */
  lemma ArrivalConserves(f: Frames, f': Frames, parent: map<Id, Path>, live: multiset<Path>, rootAlive: bool, p: Path)
    requires Balanced(f, parent, live, rootAlive) && FramesOk(f') && f'.Keys == f.Keys && p != [] && live[p] > 0
    requires var x := p[|p| - 1];
             x.frame in f && (forall id :: id in f && id != x.frame ==> f'[id].barrier == f[id].barrier) &&
             f'[x.frame].barrier == f[x.frame].barrier.(arrived := f[x.frame].barrier.arrived + [x.branch]) &&
             !f'[x.frame].barrier.released
    ensures Balanced(f', parent, live - multiset{p}, rootAlive)
  {
    var x := p[|p| - 1];
    assert Holders(f, parent, live, p) == Due(f, parent, rootAlive, p);
    forall t
      ensures Holders(f', parent, live - multiset{p}, t) == Due(f', parent, rootAlive, t)
    {
      assert Holders(f, parent, live, t) == Due(f, parent, rootAlive, t);
      HoldersChange(f, f', parent, parent, x.frame, t);
      if t != [] && t != p {
        assert t == t[..|t| - 1] + [t[|t| - 1]] && p == p[..|p| - 1] + [p[|p| - 1]];
      }
    }
  }

  /** The last arrival: the frame closes and its parent's path becomes live in its place. */
  lemma ReleaseConserves(f: Frames, f': Frames, parent: map<Id, Path>, live: multiset<Path>, rootAlive: bool, p: Path)
    requires Balanced(f, parent, live, rootAlive) && FramesOk(f') && f'.Keys == f.Keys && p != [] && live[p] > 0
    requires var x := p[|p| - 1];
             x.frame in f && (forall id :: id in f && id != x.frame ==> f'[id].barrier == f[id].barrier) &&
             f'[x.frame].barrier.expected == f[x.frame].barrier.expected &&
             f'[x.frame].barrier.arrived == f[x.frame].barrier.arrived + [x.branch] &&
             f'[x.frame].barrier.released
    ensures Balanced(f', parent, live - multiset{p} + multiset{p[..|p| - 1]}, rootAlive)
  {
    var x, up := p[|p| - 1], p[..|p| - 1];
    assert Holders(f, parent, live, p) == Due(f, parent, rootAlive, p);
    assert parent[x.frame] == up && !f[x.frame].barrier.released;
    B.CoversByCount(f'[x.frame].barrier);
    assert FrameOk(x.frame, f'[x.frame]);
    forall t
      ensures Holders(f', parent, live - multiset{p} + multiset{up}, t) == Due(f', parent, rootAlive, t)
    {
      assert Holders(f, parent, live, t) == Due(f, parent, rootAlive, t);
      HoldersChange(f, f', parent, parent, x.frame, t);
      if t != [] && t != p {
        assert t == t[..|t| - 1] + [t[|t| - 1]] && p == up + [x];
      }
    }
  }

  lemma JoinConserves(s: System, s': System, ready: bool)
    requires Conserved(s) && JoinStep(s, s', ready)
    requires QueuedOk(s.checkpoint.frames, s.checkpoint.queue[0])
    ensures Conserved(s')
    ensures s.checkpoint.queue[0].releasedJoin.None? ==>
              s.checkpoint.queue[0].tokens != [] && BranchNotArrived(s.checkpoint.frames, s.checkpoint.queue[0])
  {
    var c, c', e := s.checkpoint, s'.checkpoint, s.checkpoint.queue[0];
    if e.releasedJoin.None? {
      var frames := RecordCursor(c.frames, e).value;
      RecordKeepsFrames(c.frames, e);
      ReachKeepsFrames(frames, e);
      JoinLive(s, s', ready);
      hide PathsOf, FramesOk, QueuedOk, Live;
      SameBarriers(c.frames, frames, s.parent, Live(s), s.rootAlive);
      LiveIsDue(frames, s.parent, Live(s), s.rootAlive, e.tokens);
      if ready {
        ReleaseConserves(frames, c'.frames, s.parent, Live(s), s.rootAlive, e.tokens);
      } else {
        ArrivalConserves(frames, c'.frames, s.parent, Live(s), s.rootAlive, e.tokens);
      }
    }
  }

  lemma JoinLive(s: System, s': System, ready: bool)
    requires JoinStep(s, s', ready) && s.checkpoint.queue[0].releasedJoin.None? && s.checkpoint.queue[0].tokens != []
    ensures var p := s.checkpoint.queue[0].tokens;
            Live(s)[p] > 0 &&
            Live(s') == if ready then Live(s) - multiset{p} + multiset{p[..|p| - 1]} else Live(s) - multiset{p}
  {
    PathsHead(s.checkpoint.queue);
    if ready {
      PathsHead(s'.checkpoint.queue);
    }
  }

  /** The arriving branch is expected and has not arrived before. */
  ghost predicate BranchNotArrived(frames: Frames, e: Entry)
    requires e.tokens != []
  {
    var x := e.tokens[|e.tokens| - 1];
    x.frame in frames && x.branch in frames[x.frame].barrier.expected && x.branch !in frames[x.frame].barrier.arrived
  }

  /** A live path is due, so its branch has not arrived and its frame is open. */
  lemma LiveIsDue(frames: Frames, parent: map<Id, Path>, live: multiset<Path>, rootAlive: bool, p: Path)
    requires Balanced(frames, parent, live, rootAlive) && p != [] && live[p] > 0
    ensures var x := p[|p| - 1];
            x.frame in frames && parent[x.frame] == p[..|p| - 1] && !frames[x.frame].barrier.released &&
            x.branch in frames[x.frame].barrier.expected && x.branch !in frames[x.frame].barrier.arrived
  {
    assert Holders(frames, parent, live, p) == Due(frames, parent, rootAlive, p);
  }

  // ----- whole runs

  /** Queued and parked entries are valid for the frames. */
  ghost predicate EntriesOk(s: System) {
    && (forall i :: 0 <= i < |s.checkpoint.queue| ==> QueuedOk(s.checkpoint.frames, s.checkpoint.queue[i]))
    && (forall i :: 0 <= i < |s.waiting| ==> QueuedOk(s.checkpoint.frames, s.waiting[i]))
  }

  /** Growing frames keep parked and queued entries valid. */
  lemma ForkKeepsQueued(frames: Frames, id: Id, frame: Frame, e: Entry)
    requires QueuedOk(frames, e) && id !in frames
    ensures QueuedOk(frames[id := frame], e)
  {
    forall i | 0 <= i < |e.tokens|
      ensures TokenOk(frames[id := frame], e.tokens[i])
    {
      assert TokenOk(frames, e.tokens[i]);
    }
  }

  lemma ForkKeepsEntries(s: System, s': System, id: Id, router: Id, join: Id, branches: seq<Id>, entries: seq<Entry>)
    requires EntriesOk(s) && ForkStep(s, s', id, router, join, branches, entries)
    ensures EntriesOk(s')
  {
    var q, q', frames := s.checkpoint.queue, s'.checkpoint.queue, s.checkpoint.frames;
    var frame := s'.checkpoint.frames[id];
    ForkPaths(frames, id, router, join, branches, q[0].tokens);
    forall i | 0 <= i < |q'|
      ensures QueuedOk(s'.checkpoint.frames, q'[i])
    {
      if i < |q| - 1 {
        assert q'[i] == q[i + 1];
        ForkKeepsQueued(frames, id, frame, q[i + 1]);
      } else {
        assert q'[i] == entries[i - (|q| - 1)];
      }
    }
    forall i | 0 <= i < |s.waiting|
      ensures QueuedOk(s'.checkpoint.frames, s'.waiting[i])
    {
      ForkKeepsQueued(frames, id, frame, s.waiting[i]);
    }
  }

  lemma UnparkKeepsEntries(s: System, s': System, k: nat, next: Id, participants: Option<seq<int>>, cursor: Option<Raw>)
    requires EntriesOk(s) && Unpark(s, s', k, next, participants, cursor)
    ensures EntriesOk(s')
  {
    var added := Entry(next, s.waiting[k].tokens, participants, None, cursor);
    var longer := s.checkpoint.queue + [added];
    assert Successors([next], s.waiting[k].tokens, participants, cursor, None) == [added];
    NormalFramesAgree(s.checkpoint.frames);
    forall i | 0 <= i < |longer|
      ensures QueuedOk(s'.checkpoint.frames, s'.checkpoint.queue[i])
    {
      NormalEntryOk(s.checkpoint.frames, longer[i]);
    }
    forall i | 0 <= i < |s'.waiting|
      ensures QueuedOk(s'.checkpoint.frames, s'.waiting[i])
    {
      assert s'.waiting[i] == if i < k then s.waiting[i] else s.waiting[i + 1];
    }
  }

  lemma JoinKeepsEntries(s: System, s': System, ready: bool)
    requires EntriesOk(s) && FramesOk(s.checkpoint.frames) && JoinStep(s, s', ready)
    ensures EntriesOk(s')
  {
    var c, c', e := s.checkpoint, s'.checkpoint, s.checkpoint.queue[0];
    if e.releasedJoin.None? {
      var frames := RecordCursor(c.frames, e).value;
      RecordKeepsFrames(c.frames, e);
      ReachKeepsFrames(frames, e);
      forall x | QueuedOk(c.frames, x)
        ensures QueuedOk(c'.frames, x)
      {
        StillQueued(c.frames, c'.frames, x);
      }
      if ready {
        ReleasedIsQueued(c.frames, c'.frames, e, c'.queue[0]);
        assert forall i :: 0 < i < |c'.queue| ==> c'.queue[i] == c'.queue[1..][i - 1] == c.queue[i];
      }
    }
  }

  /** Every frame has its branches' snapshots. */
  ghost predicate ScopesKept(c: Checkpoint) {
    ScopesOk(c.frames, c.scopes) && (c.scopes.None? ==> c.frames == map[])
  }

  /** The invariant of a run. */
  ghost predicate Good(s: System) {
    Conserved(s) && EntriesOk(s) && ScopesKept(s.checkpoint)
  }

  lemma ForkKeepsScopes(s: System, s': System, id: Id, router: Id, join: Id, branches: seq<Id>, entries: seq<Entry>)
    requires ScopesKept(s.checkpoint) && ForkStep(s, s', id, router, join, branches, entries)
    ensures ScopesKept(s'.checkpoint)
  {
    ForkedScopesOk(s.checkpoint, id, branches, s'.checkpoint.frames);
  }

  lemma UnparkKeepsScopes(s: System, s': System, k: nat, next: Id, participants: Option<seq<int>>, cursor: Option<Raw>)
    requires ScopesKept(s.checkpoint) && Unpark(s, s', k, next, participants, cursor)
    ensures ScopesKept(s'.checkpoint)
  {
  }

  lemma JoinKeepsScopes(s: System, s': System, ready: bool)
    requires ScopesKept(s.checkpoint) && EntriesOk(s) && FramesOk(s.checkpoint.frames) && JoinStep(s, s', ready)
    ensures ScopesKept(s'.checkpoint)
  {
    var c, e := s.checkpoint, s.checkpoint.queue[0];
    if e.releasedJoin.None? {
      RecordKeepsFrames(c.frames, e);
      ReachKeepsFrames(RecordCursor(c.frames, e).value, e);
    }
  }

  /** Every step keeps lineages conserved and entries valid. */
  lemma NextKeepsGood(s: System, s': System)
    requires Good(s) && Next(s, s')
    ensures Good(s')
  {
    hide Balanced, QueuedOk, PathsOf, ScopesOk;
    if e :| Advance(s, s', e) {
      AdvanceConserves(s, s', e);
    } else if Park(s, s') {
      ParkConserves(s, s');
    } else if k: nat, next, participants, cursor :| Unpark(s, s', k, next, participants, cursor) {
      UnparkConserves(s, s', k, next, participants, cursor);
      UnparkKeepsEntries(s, s', k, next, participants, cursor);
      UnparkKeepsScopes(s, s', k, next, participants, cursor);
    } else if id, router, join, branches, entries :| ForkStep(s, s', id, router, join, branches, entries) {
      ForkConserves(s, s', id, router, join, branches, entries);
      ForkKeepsEntries(s, s', id, router, join, branches, entries);
      ForkKeepsScopes(s, s', id, router, join, branches, entries);
    } else if ready :| JoinStep(s, s', ready) {
      JoinConserves(s, s', ready);
      ConservedFrames(s);
      JoinKeepsEntries(s, s', ready);
      JoinKeepsScopes(s, s', ready);
    } else {
      FinishConserves(s, s');
    }
  }

  lemma ConservedFrames(s: System)
    requires Conserved(s)
    ensures FramesOk(s.checkpoint.frames)
  {
  }

  /** Along every run lineages are conserved: each open branch has exactly one. */
  lemma {:induction false} RunConserves(run: seq<System>, i: nat)
    requires IsRun(run) && i < |run|
    ensures Good(run[i])
  {
    if i == 0 {
      StartConserved(run[0]);
    } else {
      RunConserves(run, i - 1);
      assert Next(run[i - 1], run[i]);
      NextKeepsGood(run[i - 1], run[i]);
    }
  }

  /** In every state of every run the checkpoint is one that restoring accepts for its own queue, so
      the run can be resumed anywhere. */
  lemma RunKeepsValid(run: seq<System>, i: nat)
    requires IsRun(run) && i < |run|
    ensures ValidCheckpoint(run[i].checkpoint, NodesOf(run[i].checkpoint.queue))
  {
    RunConserves(run, i);
    ConservedFrames(run[i]);
  }

  /** No branch arrives twice: the duplicate disposition never occurs in a run. */
  lemma NoDuplicateArrival(run: seq<System>, i: nat, ready: bool)
    requires IsRun(run) && i + 1 < |run|
    requires JoinStep(run[i], run[i + 1], ready) && run[i].checkpoint.queue[0].releasedJoin.None?
    ensures var e := run[i].checkpoint.queue[0]; e.tokens != [] && BranchNotArrived(run[i].checkpoint.frames, e)
  {
    RunConserves(run, i);
    JoinConserves(run[i], run[i + 1], ready);
  }

  // ----- live paths are incomparable

  /** Queued and parked entries together. */
  function Entries(s: System): seq<Entry> {
    s.checkpoint.queue + s.waiting
  }

  /** Along a live path every frame is open, forked where the path says. */
  lemma {:induction false} PrefixIsHeld(s: System, p: Path, n: nat)
    requires Conserved(s) && Live(s)[p] > 0 && n < |p|
    ensures p[n].frame in OpenFrames(s.checkpoint.frames, s.parent, p[..n])
    decreases |p| - n
  {
    var frames := s.checkpoint.frames;
    var q := p[..n + 1];
    assert q[..|q| - 1] == p[..n];
    if n + 1 < |p| {
      PrefixIsHeld(s, p, n + 1);
      assert |OpenFrames(frames, s.parent, q)| > 0;
    } else {
      assert q == p;
    }
    assert Holders(frames, s.parent, Live(s), q) == Due(frames, s.parent, s.rootAlive, q);
  }

  lemma PrefixIsNotLive(s: System, p: Path, q: Path)
    requires Conserved(s) && Live(s)[q] > 0 && p < q
    ensures Live(s)[p] == 0
  {
    PrefixIsHeld(s, q, |p|);
    assert q[..|p|] == p;
    assert |OpenFrames(s.checkpoint.frames, s.parent, p)| > 0;
    assert Holders(s.checkpoint.frames, s.parent, Live(s), p) == Due(s.checkpoint.frames, s.parent, s.rootAlive, p);
  }

  lemma EntriesCounted(s: System, i: nat, j: nat)
    requires i < |Entries(s)| && j < |Entries(s)| && i != j
    ensures var p, q := Entries(s)[i].tokens, Entries(s)[j].tokens;
            Live(s)[p] > 0 && Live(s)[q] > 0 && (p == q ==> Live(s)[p] > 1)
  {
    hide PathsOf;
    var all := Entries(s);
    PathsConcat(s.checkpoint.queue, s.waiting);
    PathsRemove(all, j);
    var others := all[..j] + all[j + 1..];
    var k := if i < j then i else i - 1;
    assert others[k] == all[i];
    PathsRemove(others, k);
  }

  /** No two entries of a conserved state run on the same path, nor one inside the other's. */
  lemma LivePathsApart(s: System, i: nat, j: nat)
    requires Conserved(s) && i < |Entries(s)| && j < |Entries(s)| && i != j
    ensures !(Entries(s)[i].tokens <= Entries(s)[j].tokens)
  {
    var p, q := Entries(s)[i].tokens, Entries(s)[j].tokens;
    EntriesCounted(s, i, j);
    assert Holders(s.checkpoint.frames, s.parent, Live(s), p) == Due(s.checkpoint.frames, s.parent, s.rootAlive, p);
    if p < q {
      PrefixIsNotLive(s, p, q);
    }
  }

  ghost function Deeper(parent: map<Id, Path>, n: nat): set<Id> {
    set f | f in parent && |parent[f]| > n
  }

  /** Below every open frame there is a running branch. */
  lemma {:induction false} OpenFrameHasLiveBranch(s: System, f: Id) returns (p: Path)
    requires Conserved(s) && f in s.checkpoint.frames && !s.checkpoint.frames[f].barrier.released
    ensures Live(s)[p] > 0 && s.parent[f] < p
    decreases Deeper(s.parent, |s.parent[f]|)
  {
    var frames := s.checkpoint.frames;
    var b := frames[f].barrier;
    assert FrameOk(f, frames[f]);
    B.CoversByCount(b);
    var x :| x in b.expected && x !in b.arrived;
    var t := s.parent[f] + [Token(f, x)];
    assert t[..|t| - 1] == s.parent[f] && t[|t| - 1] == Token(f, x);
    assert Holders(frames, s.parent, Live(s), t) == Due(frames, s.parent, s.rootAlive, t) == 1;
    if Live(s)[t] > 0 {
      p := t;
    } else {
      var open := OpenFrames(frames, s.parent, t);
      assert |open| == 1;
      var g := SomeOpen(open);
      assert s.parent[g] == t;
      assert g in Deeper(s.parent, |s.parent[f]|) && g !in Deeper(s.parent, |t|);
      forall h | h in Deeper(s.parent, |t|)
        ensures h in Deeper(s.parent, |s.parent[f]|)
      {
      }
      p := OpenFrameHasLiveBranch(s, g);
    }
  }

  lemma SomeOpen(open: set<Id>) returns (g: Id)
    requires |open| == 1
    ensures g in open
  {
    EmptyOrMember(open);
    g :| g in open;
  }

  /** No branch is lost: a run without any queued or parked entry has released every frame and
      finished its root. */
  lemma NothingLost(run: seq<System>, i: nat)
    requires IsRun(run) && i < |run|
    requires run[i].checkpoint.queue == [] && run[i].waiting == []
    ensures forall f :: f in run[i].checkpoint.frames ==> run[i].checkpoint.frames[f].barrier.released
    ensures !run[i].rootAlive
  {
    var s := run[i];
    RunConserves(run, i);
    assert Live(s) == multiset{};
    forall f | f in s.checkpoint.frames
      ensures s.checkpoint.frames[f].barrier.released
    {
      if !s.checkpoint.frames[f].barrier.released {
        var p := OpenFrameHasLiveBranch(s, f);
      }
    }
    RootNeedsLive(s);
  }

  lemma RootNeedsLive(s: System)
    requires Conserved(s) && forall f :: f in s.checkpoint.frames ==> s.checkpoint.frames[f].barrier.released
    ensures s.rootAlive ==> Live(s)[[]] == 1
  {
    assert Holders(s.checkpoint.frames, s.parent, Live(s), []) == Due(s.checkpoint.frames, s.parent, s.rootAlive, []);
    EmptyOrMember(OpenFrames(s.checkpoint.frames, s.parent, []));
  }
}
