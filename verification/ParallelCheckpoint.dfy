/** The persisted state of parallel execution: restoring it, resuming a branch, forking and joining. */
module ParallelCheckpoint {
  import opened Workflow
  import opened LoopCursor
  import opened Sorting
  import B = ParallelBarrier

  datatype Frame = Frame(router: Id, join: Id, barrier: B.Barrier, cursors: Option<map<Id, Raw>>)

  type Frames = map<Id, Frame>

  datatype Entry = Entry(
    node: Id, tokens: seq<Token>, participants: Option<seq<int>>, releasedJoin: Option<Id>, cursor: Option<Raw>)

  /** `scopes` keeps which branches have an output snapshot in each frame. */
  datatype Checkpoint = Checkpoint(frames: Frames, queue: seq<Entry>, scopes: Option<map<Id, set<Id>>>)

  datatype Error =
    | CheckpointInvalid
    | SuccessorsMismatch
    | FrameInvalid
    | QueueEmpty
    | BranchIdentityMissing
    | FrameMissing
    | JoinMismatch
    | CursorInvalid
    | CursorMissing
    | Barrier(error: B.Error)

  // ----- validity, as restoring decides it

  /** The ranks of the strings `__proto__`, `constructor` and `prototype`, in code-unit order and
      with room between them: names that restoring refuses as frame ids. */
  const PROTO := 1_000_000_000
  const CONSTRUCTOR := 2_000_000_000
  const PROTOTYPE := 3_000_000_000

  predicate IsReserved(id: Id) {
    id == PROTO || id == CONSTRUCTOR || id == PROTOTYPE
  }

  predicate FrameOk(id: Id, f: Frame) {
    && !IsBlank(id) && !IsReserved(id) && !IsBlank(f.router) && !IsBlank(f.join)
    && B.Valid(f.barrier)
    && (f.cursors.Some? ==> forall b :: b in f.cursors.value ==> b in f.barrier.expected && ValidRaw(f.cursors.value[b]))
  }

  predicate FramesOk(frames: Frames) {
    forall id :: id in frames ==> FrameOk(id, frames[id])
  }

  predicate TokenOk(frames: Frames, t: Token) {
    t.frame in frames && t.branch in frames[t.frame].barrier.expected
  }

  predicate PathOk(frames: Frames, tokens: seq<Token>) {
    && (forall i :: 0 <= i < |tokens| ==> TokenOk(frames, tokens[i]))
    && (forall i, j :: 0 <= i < j < |tokens| ==> tokens[i].frame != tokens[j].frame)
  }

  predicate ReleasedOk(frames: Frames, e: Entry) {
    e.releasedJoin.Some? ==>
      var id := e.releasedJoin.value;
      && id in frames && frames[id].join == e.node && frames[id].barrier.released
      && forall i :: 0 <= i < |e.tokens| ==> e.tokens[i].frame != id
  }

  predicate ParticipantsOk(e: Entry) {
    e.participants.Some? ==>
      && (forall i :: 0 <= i < |e.participants.value| ==> e.participants.value[i] > 0)
      && Distinct(e.participants.value)
  }

  predicate QueuedOk(frames: Frames, e: Entry) {
    && PathOk(frames, e.tokens) && ParticipantsOk(e) && ReleasedOk(frames, e)
    && (e.cursor.Some? ==> ValidRaw(e.cursor.value))
  }

  predicate ScopesOk(frames: Frames, scopes: Option<map<Id, set<Id>>>) {
    scopes.Some? ==>
      && scopes.value.Keys == frames.Keys
      && forall id :: id in frames ==> scopes.value[id] == Elements(frames[id].barrier.expected)
  }

  /** What `restoreParallelCheckpoint` accepts for a given execution queue. */
  predicate ValidCheckpoint(c: Checkpoint, nodes: seq<Id>) {
    && |c.queue| == |nodes|
    && FramesOk(c.frames)
    && (forall i :: 0 <= i < |nodes| ==> c.queue[i].node == nodes[i] && QueuedOk(c.frames, c.queue[i]))
    && ScopesOk(c.frames, c.scopes)
  }

  // ----- the restored value

  /** Restoring a cursor sorts its entries. */
  function Normal(value: Raw): Raw {
    if ValidRaw(value) then Stored(1, Sort(value.traversals, TraversedEdge())) else NotACursor
  }

  function NormalFrame(f: Frame): Frame {
    if f.cursors.None? then f
    else f.(cursors := Some(map b | b in f.cursors.value :: Normal(f.cursors.value[b])))
  }

  function NormalFrames(frames: Frames): Frames {
    map id | id in frames :: NormalFrame(frames[id])
  }

  function NormalEntry(e: Entry): Entry {
    if e.cursor.None? then e else e.(cursor := Some(Normal(e.cursor.value)))
  }

  function NormalQueue(queue: seq<Entry>): (r: seq<Entry>)
    ensures |r| == |queue| && forall i :: 0 <= i < |r| ==> r[i] == NormalEntry(queue[i])
  {
    seq(|queue|, i requires 0 <= i < |queue| => NormalEntry(queue[i]))
  }

  function NormalCheckpoint(c: Checkpoint): Checkpoint {
    Checkpoint(NormalFrames(c.frames), NormalQueue(c.queue), c.scopes)
  }

  lemma NormalOk(value: Raw)
    requires ValidRaw(value)
    ensures ValidRaw(Normal(value)) && Normal(Normal(value)) == Normal(value)
  {
    SortedIsCanonical(value.traversals);
    SortCorrect(Normal(value).traversals, TraversedEdge());
    SortedUnique(Normal(value).traversals, Normal(Normal(value)).traversals, TraversedEdge());
  }

  lemma NormalFrameOk(id: Id, f: Frame)
    requires FrameOk(id, f)
    ensures FrameOk(id, NormalFrame(f)) && NormalFrame(NormalFrame(f)) == NormalFrame(f)
  {
    if f.cursors.Some? {
      forall b | b in f.cursors.value
        ensures ValidRaw(Normal(f.cursors.value[b])) && Normal(Normal(f.cursors.value[b])) == Normal(f.cursors.value[b])
      {
        NormalOk(f.cursors.value[b]);
      }
      assert NormalFrame(NormalFrame(f)).cursors.value == NormalFrame(f).cursors.value;
    }
  }

  lemma NormalEntryOk(frames: Frames, e: Entry)
    requires QueuedOk(frames, e)
    ensures QueuedOk(NormalFrames(frames), NormalEntry(e)) && NormalEntry(NormalEntry(e)) == NormalEntry(e)
  {
    if e.cursor.Some? {
      NormalOk(e.cursor.value);
    }
  }

  /** The same traversals, sorted. */
  ghost predicate SameCounts(value: Raw, r: Raw) {
    && value.Stored? && r.Stored? && r.schemaVersion == 1 && Canonical(r.traversals)
    && forall e :: CountOf(r.traversals, e) == CountOf(value.traversals, e)
  }

  lemma NormalCounts(value: Raw)
    requires ValidRaw(value)
    ensures SameCounts(value, Normal(value))
  {
    SortedIsCanonical(value.traversals);
  }

  /** Restoring loses nothing: nodes, paths, participants, markers, barriers and snapshots stay, and
      every cursor of an entry or a frame keeps its counts. */
  lemma RestoreKeepsMeaning(c: Checkpoint, nodes: seq<Id>)
    requires ValidCheckpoint(c, nodes)
    ensures var r := NormalCheckpoint(c);
            && r.scopes == c.scopes && r.frames.Keys == c.frames.Keys && |r.queue| == |c.queue|
            && (forall id :: id in c.frames ==>
                  && r.frames[id].router == c.frames[id].router && r.frames[id].join == c.frames[id].join
                  && r.frames[id].barrier == c.frames[id].barrier
                  && (r.frames[id].cursors.Some? <==> c.frames[id].cursors.Some?)
                  && (c.frames[id].cursors.Some? ==>
                        && r.frames[id].cursors.value.Keys == c.frames[id].cursors.value.Keys
                        && forall b :: b in c.frames[id].cursors.value ==>
                             SameCounts(c.frames[id].cursors.value[b], r.frames[id].cursors.value[b])))
            && (forall i :: 0 <= i < |c.queue| ==>
                  && r.queue[i].(cursor := None) == c.queue[i].(cursor := None)
                  && (r.queue[i].cursor.Some? <==> c.queue[i].cursor.Some?)
                  && (c.queue[i].cursor.Some? ==> SameCounts(c.queue[i].cursor.value, r.queue[i].cursor.value)))
  {
    hide Normal, SameCounts;
    forall id, b | id in c.frames && c.frames[id].cursors.Some? && b in c.frames[id].cursors.value
      ensures SameCounts(c.frames[id].cursors.value[b], Normal(c.frames[id].cursors.value[b])) {
      assert FrameOk(id, c.frames[id]);
      NormalCounts(c.frames[id].cursors.value[b]);
    }
    forall i | 0 <= i < |c.queue| && c.queue[i].cursor.Some?
      ensures SameCounts(c.queue[i].cursor.value, Normal(c.queue[i].cursor.value)) {
      assert QueuedOk(c.frames, c.queue[i]);
      NormalCounts(c.queue[i].cursor.value);
    }
  }

  /** A restored checkpoint is valid for the same queue, and restoring it again changes nothing. */
  lemma RestoreIsStable(c: Checkpoint, nodes: seq<Id>)
    requires ValidCheckpoint(c, nodes)
    ensures ValidCheckpoint(NormalCheckpoint(c), nodes)
    ensures NormalCheckpoint(NormalCheckpoint(c)) == NormalCheckpoint(c)
  {
    var n := NormalCheckpoint(c);
    forall id | id in c.frames
      ensures FrameOk(id, n.frames[id]) && NormalFrame(n.frames[id]) == n.frames[id]
    {
      NormalFrameOk(id, c.frames[id]);
    }
    forall i | 0 <= i < |nodes|
      ensures QueuedOk(n.frames, n.queue[i]) && NormalEntry(n.queue[i]) == n.queue[i]
    {
      NormalEntryOk(c.frames, c.queue[i]);
    }
    assert NormalFrames(n.frames) == n.frames;
    assert NormalQueue(n.queue) == n.queue;
  }

  /** The `tokens` loop with its `seen` set. */
  method TokensAccepted(frames: Frames, tokens: seq<Token>) returns (ok: bool)
    ensures ok <==> PathOk(frames, tokens)
  {
    var seen: set<Id> := {};
    for i := 0 to |tokens|
      invariant forall x :: x in seen <==> exists k :: 0 <= k < i && tokens[k].frame == x
      invariant PathOk(frames, tokens[..i])
    {
      if !TokenOk(frames, tokens[i]) || tokens[i].frame in seen {
        return false;
      }
      seen := seen + {tokens[i].frame};
    }
    ok := true;
    assert tokens[..|tokens|] == tokens;
  }

  lemma EmptyOrMember(s: set<Id>)
    ensures s == {} || exists x :: x in s
  {
    if forall x :: x !in s {
      assert s <= {};
    }
  }

  /** The loop over the frames. */
  method RestoreFrames(raw: Frames) returns (r: Option<Frames>)
    ensures r.Some? <==> FramesOk(raw)
    ensures r.Some? ==> r.value == NormalFrames(raw)
  {
    var frames: Frames := map[];
    var pending := raw.Keys;
    while pending != {}
      invariant pending <= raw.Keys
      invariant frames.Keys == raw.Keys - pending
      invariant forall id :: id in frames ==> FrameOk(id, raw[id]) && frames[id] == NormalFrame(raw[id])
      decreases |pending|
    {
      EmptyOrMember(pending);
      var id :| id in pending;
      if !FrameOk(id, raw[id]) {
        return None;
      }
      frames := frames[id := NormalFrame(raw[id])];
      pending := pending - {id};
    }
    r := Some(frames);
  }

  /** The loop over the queue. */
  method RestoreQueue(frames: Frames, raw: seq<Entry>, nodes: seq<Id>) returns (r: Option<seq<Entry>>)
    requires |raw| == |nodes|
    ensures r.Some? <==> forall i :: 0 <= i < |nodes| ==> raw[i].node == nodes[i] && QueuedOk(frames, raw[i])
    ensures r.Some? ==> r.value == NormalQueue(raw)
  {
    var queue: seq<Entry> := [];
    for i := 0 to |nodes|
      invariant |queue| == i
      invariant forall k :: 0 <= k < i ==> raw[k].node == nodes[k] && QueuedOk(frames, raw[k])
      invariant forall k :: 0 <= k < i ==> queue[k] == NormalEntry(raw[k])
    {
      var entry := raw[i];
      var path := TokensAccepted(frames, entry.tokens);
      if entry.node != nodes[i] || !path || !ParticipantsOk(entry) || !ReleasedOk(frames, entry) ||
         (entry.cursor.Some? && !ValidRaw(entry.cursor.value)) {
        return None;
      }
      queue := queue + [NormalEntry(entry)];
    }
    r := Some(queue);
  }

  method Restore(value: Checkpoint, nodes: seq<Id>) returns (r: Result<Checkpoint, Error>)
    ensures r.Ok? <==> ValidCheckpoint(value, nodes)
    ensures r.Ok? ==> r.value == NormalCheckpoint(value)
    ensures r.Ok? ==> forall i :: 0 <= i < |nodes| && value.queue[i].releasedJoin.Some? ==>
                        var id, e := value.queue[i].releasedJoin.value, value.queue[i];
                        && id in value.frames && value.frames[id].join == e.node && value.frames[id].barrier.released
                        && forall t :: t in e.tokens ==> t.frame != id
    ensures r.Ok? ==> forall i :: 0 <= i < |nodes| && value.queue[i].participants.Some? ==>
                        var users := value.queue[i].participants.value;
                        (forall u :: u in users ==> u > 0) && forall j, k :: 0 <= j < k < |users| ==> users[j] != users[k]
    ensures r.Ok? && value.scopes.Some? ==>
              && value.scopes.value.Keys == value.frames.Keys
              && forall id :: id in value.frames ==>
                   forall b :: b in value.scopes.value[id] <==> b in value.frames[id].barrier.expected
  {
    if |value.queue| != |nodes| {
      return Err(CheckpointInvalid);
    }
    var frames := RestoreFrames(value.frames);
    if frames.None? {
      return Err(CheckpointInvalid);
    }
    var queue := RestoreQueue(frames.value, value.queue, nodes);
    NormalFramesAgree(value.frames);
    if queue.None? || !ScopesOk(frames.value, value.scopes) {
      return Err(CheckpointInvalid);
    }
    r := Ok(Checkpoint(frames.value, queue.value, value.scopes));
  }

  lemma NormalFramesAgree(frames: Frames)
    ensures forall e :: QueuedOk(NormalFrames(frames), e) <==> QueuedOk(frames, e)
    ensures forall scopes :: ScopesOk(NormalFrames(frames), scopes) <==> ScopesOk(frames, scopes)
  {
  }

  // ----- resuming a branch

  /** The entries appended for the successors of a node that finished on `tokens`. */
  function Successors(
    next: seq<Id>, tokens: seq<Token>, participants: Option<seq<int>>, cursor: Option<Raw>, cursors: Option<seq<Raw>>)
    : (r: seq<Entry>)
    requires cursors.Some? ==> |cursors.value| == |next|
    ensures |r| == |next| && forall i :: 0 <= i < |r| ==>
              r[i] == Entry(next[i], tokens, participants, None, if cursors.Some? then Some(cursors.value[i]) else cursor)
  {
    seq(|next|, i requires 0 <= i < |next| =>
      Entry(next[i], tokens, participants, None, if cursors.Some? then Some(cursors.value[i]) else cursor))
  }

  function Extended(c: Checkpoint, added: seq<Entry>): Checkpoint {
    c.(queue := c.queue + added)
  }

  /** `resumeParallelCheckpoint`: both the old and the extended checkpoint must be valid. */
  method Resume(value: Checkpoint, pending: seq<Id>, next: seq<Id>, tokens: seq<Token>,
                participants: Option<seq<int>>, cursor: Option<Raw>, cursors: Option<seq<Raw>>)
    returns (r: Result<Checkpoint, Error>)
    ensures r.Ok? <==>
            (cursors.Some? ==> |cursors.value| == |next|) && ValidCheckpoint(value, pending) &&
            forall e :: e in Successors(next, tokens, participants, cursor, cursors) ==> QueuedOk(value.frames, e)
    ensures r.Ok? ==> ValidCheckpoint(r.value, pending + next)
    ensures r.Ok? ==> r.value == NormalCheckpoint(Extended(value, Successors(next, tokens, participants, cursor, cursors)))
  {
    if cursors.Some? && |cursors.value| != |next| {
      return Err(SuccessorsMismatch);
    }
    var restored := Restore(value, pending);
    if restored.Err? {
      return restored;
    }
    var added := Successors(next, tokens, participants, cursor, cursors);
    var longer := Extended(restored.value, added);
    RestoreIsStable(value, pending);
    r := Restore(longer, pending + next);
    ResumeAccepts(value, pending, next, added);
    if r.Ok? {
      ResumeNormal(value, pending, added);
      RestoreIsStable(longer, pending + next);
    }
  }

  lemma ResumeAccepts(value: Checkpoint, pending: seq<Id>, next: seq<Id>, added: seq<Entry>)
    requires ValidCheckpoint(value, pending) && |added| == |next|
    requires forall i :: 0 <= i < |next| ==> added[i].node == next[i]
    ensures var n := NormalCheckpoint(value);
            ValidCheckpoint(Extended(n, added), pending + next) <==>
            forall e :: e in added ==> QueuedOk(value.frames, e)
  {
    var n := NormalCheckpoint(value);
    var longer := Extended(n, added);
    RestoreIsStable(value, pending);
    forall e
      ensures QueuedOk(n.frames, e) <==> QueuedOk(value.frames, e)
    {
    }
    if ValidCheckpoint(longer, pending + next) {
      forall e | e in added
        ensures QueuedOk(value.frames, e)
      {
        var i :| 0 <= i < |added| && added[i] == e;
        assert longer.queue[|pending| + i] == e;
      }
    }
    if forall e :: e in added ==> QueuedOk(value.frames, e) {
      forall i | 0 <= i < |pending + next|
        ensures longer.queue[i].node == (pending + next)[i] && QueuedOk(n.frames, longer.queue[i])
      {
        if i >= |pending| {
          assert longer.queue[i] == added[i - |pending|];
        }
      }
    }
  }

  lemma ResumeNormal(value: Checkpoint, pending: seq<Id>, added: seq<Entry>)
    requires ValidCheckpoint(value, pending)
    ensures var n := NormalCheckpoint(value);
            NormalCheckpoint(Extended(n, added)) == NormalCheckpoint(Extended(value, added))
  {
    var n := NormalCheckpoint(value);
    RestoreIsStable(value, pending);
    assert NormalQueue(n.queue + added) == NormalQueue(n.queue) + NormalQueue(added);
    assert NormalQueue(value.queue + added) == NormalQueue(value.queue) + NormalQueue(added);
  }

  // ----- fork

  /** Only the empty string is refused as an identifier here; blank ones are let through. */
  predicate IsEmpty(id: Id) {
    id == 0
  }

  datatype Fork = Fork(state: Frames, tokens: seq<seq<Token>>)

  function ForkState(state: Frames, id: Id, router: Id, join: Id, branches: seq<Id>, parent: seq<Token>)
    : (r: Result<Fork, Error>)
    ensures r.Ok? ==> |r.value.tokens| == |branches|
    ensures r.Ok? ==> forall i :: 0 <= i < |branches| ==> r.value.tokens[i] == parent + [Token(id, branches[i])]
  {
    if IsEmpty(id) || IsEmpty(router) || IsEmpty(join) || id in state then Err(FrameInvalid)
    else
      match B.Create(branches)
      case Err(e) => Err(Barrier(e))
      case Ok(barrier) =>
        Ok(Fork(state[id := Frame(router, join, barrier, None)],
                seq(|branches|, i requires 0 <= i < |branches| => parent + [Token(id, branches[i])])))
  }

  /** Old paths stay valid in the enlarged state, and the branch paths are valid in it. */
  lemma ForkPaths(state: Frames, id: Id, router: Id, join: Id, branches: seq<Id>, parent: seq<Token>)
    requires ForkState(state, id, router, join, branches, parent).Ok? && PathOk(state, parent)
    ensures var f := ForkState(state, id, router, join, branches, parent).value;
            (forall p :: PathOk(state, p) ==> PathOk(f.state, p)) &&
            (forall i :: 0 <= i < |f.tokens| ==> PathOk(f.state, f.tokens[i]))
  {
  }

  /** Forking yields valid frames exactly when no identifier is blank and the frame's is not
      reserved: the others pass the fork but can never be restored. */
  lemma ForkKeepsFrames(state: Frames, id: Id, router: Id, join: Id, branches: seq<Id>, parent: seq<Token>)
    requires FramesOk(state) && ForkState(state, id, router, join, branches, parent).Ok?
    ensures FramesOk(ForkState(state, id, router, join, branches, parent).value.state) <==>
            !IsBlank(id) && !IsReserved(id) && !IsBlank(router) && !IsBlank(join)
  {
    var f := ForkState(state, id, router, join, branches, parent).value;
    assert f.state[id] == Frame(router, join, B.Barrier(branches, [], false), None);
    if !IsBlank(id) && !IsReserved(id) && !IsBlank(router) && !IsBlank(join) {
      assert FrameOk(id, f.state[id]);
    }
  }

  /** The concrete failures: a white-space frame id, and one named like a built-in property. */
  lemma ForkedFrameIsLost(id: Id)
    requires id == -1 || id == CONSTRUCTOR
    ensures ForkState(map[], id, 7, 8, [9], []).Ok?
    ensures !FramesOk(ForkState(map[], id, 7, 8, [9], []).value.state)
  {
    var f := ForkState(map[], id, 7, 8, [9], []).value;
    assert id in f.state;
  }

  /** `forkParallelScopes`: one snapshot per branch of the new frame, beside those there were. */
  function ForkedScopes(scopes: Option<map<Id, set<Id>>>, id: Id, branches: seq<Id>): Option<map<Id, set<Id>>> {
    Some((if scopes.Some? then scopes.value else map[])[id := Elements(branches)])
  }

  /** A freshly queued branch: its participants and cursor are well formed. */
  predicate BranchEntry(e: Entry, tokens: seq<Token>) {
    e.tokens == tokens && e.releasedJoin.None? && ParticipantsOk(e) && (e.cursor.Some? ==> ValidRaw(e.cursor.value))
  }

  predicate BranchEntries(entries: seq<Entry>, tokens: seq<seq<Token>>) {
    |entries| == |tokens| && forall i :: 0 <= i < |entries| ==> BranchEntry(entries[i], tokens[i])
  }

  /** The router's fork: the head makes room for the entries of its branches. */
  function Forked(c: Checkpoint, id: Id, branches: seq<Id>, state: Frames, entries: seq<Entry>): Checkpoint
    requires c.queue != []
  {
    Checkpoint(state, c.queue[1..] + entries, ForkedScopes(c.scopes, id, branches))
  }

  function NodesOf(queue: seq<Entry>): (r: seq<Id>)
    ensures |r| == |queue| && forall i :: 0 <= i < |r| ==> r[i] == queue[i].node
  {
    seq(|queue|, i requires 0 <= i < |queue| => queue[i].node)
  }

  /** The snapshots of a forked checkpoint agree with its frames exactly when those of the checkpoint
      were there, or it had no frames that would need any. */
  lemma ForkedScopesOk(c: Checkpoint, id: Id, branches: seq<Id>, state: Frames)
    requires ScopesOk(c.frames, c.scopes) && id !in c.frames && state.Keys == c.frames.Keys + {id}
    requires state[id].barrier.expected == branches
    requires forall f :: f in c.frames ==> state[f] == c.frames[f]
    ensures ScopesOk(state, ForkedScopes(c.scopes, id, branches)) <==> c.scopes.Some? || c.frames == map[]
  {
    var scopes := ForkedScopes(c.scopes, id, branches).value;
    if ScopesOk(state, Some(scopes)) && c.scopes.None? {
      assert forall f :: f in c.frames ==> f in scopes.Keys;
      assert c.frames == map[];
    }
  }

  /** What a fork makes of a valid checkpoint is valid exactly when no identifier is blank, the
      frame's is not reserved, and no older frame lacks its snapshots. */
  lemma ForkKeepsValid(c: Checkpoint, nodes: seq<Id>, id: Id, router: Id, join: Id, branches: seq<Id>, entries: seq<Entry>)
    requires ValidCheckpoint(c, nodes) && nodes != []
    requires ForkState(c.frames, id, router, join, branches, c.queue[0].tokens).Ok?
    requires BranchEntries(entries, ForkState(c.frames, id, router, join, branches, c.queue[0].tokens).value.tokens)
    ensures var fork := ForkState(c.frames, id, router, join, branches, c.queue[0].tokens).value;
            ValidCheckpoint(Forked(c, id, branches, fork.state, entries), nodes[1..] + NodesOf(entries)) <==>
            !IsBlank(id) && !IsReserved(id) && !IsBlank(router) && !IsBlank(join) &&
            (c.scopes.Some? || c.frames == map[])
  {
    var fork := ForkState(c.frames, id, router, join, branches, c.queue[0].tokens).value;
    var c' := Forked(c, id, branches, fork.state, entries);
    ForkKeepsFrames(c.frames, id, router, join, branches, c.queue[0].tokens);
    ForkedScopesOk(c, id, branches, fork.state);
    ForkKeepsQueue(c, id, router, join, branches, entries);
    hide ForkState, FramesOk, ScopesOk, QueuedOk, ForkedScopes;
    forall i | 0 <= i < |c'.queue|
      ensures c'.queue[i].node == (nodes[1..] + NodesOf(entries))[i] && QueuedOk(c'.frames, c'.queue[i])
    {
      assert i < |nodes| - 1 ==> c'.queue[i] == c.queue[i + 1];
      assert i >= |nodes| - 1 ==> c'.queue[i] == entries[i - (|nodes| - 1)];
    }
  }

  /** Queued entries stay valid in the forked state, and the new ones are valid in it. */
  lemma ForkKeepsQueue(c: Checkpoint, id: Id, router: Id, join: Id, branches: seq<Id>, entries: seq<Entry>)
    requires c.queue != [] && PathOk(c.frames, c.queue[0].tokens)
    requires ForkState(c.frames, id, router, join, branches, c.queue[0].tokens).Ok?
    requires BranchEntries(entries, ForkState(c.frames, id, router, join, branches, c.queue[0].tokens).value.tokens)
    ensures var state := ForkState(c.frames, id, router, join, branches, c.queue[0].tokens).value.state;
            (forall e :: QueuedOk(c.frames, e) ==> QueuedOk(state, e)) &&
            (forall i :: 0 <= i < |entries| ==> QueuedOk(state, entries[i]))
  {
    var fork := ForkState(c.frames, id, router, join, branches, c.queue[0].tokens).value;
    ForkPaths(c.frames, id, router, join, branches, c.queue[0].tokens);
    assert forall f :: f in c.frames ==> fork.state[f] == c.frames[f];
    hide PathOk, ForkState;
    forall e | QueuedOk(c.frames, e)
      ensures QueuedOk(fork.state, e)
    {
    }
  }

  /** A checkpoint with a frame and without snapshots, as restoring accepts it: its next fork is
      lost, whatever the identifiers. */
  lemma ForkWithoutScopesIsLost(id: Id, router: Id, join: Id, branches: seq<Id>, entries: seq<Entry>)
    returns (c: Checkpoint)
    requires id != 5 && ForkState(map[5 := Frame(6, 7, B.Barrier([8], [], false), None)], id, router, join, branches, []).Ok?
    requires |entries| == |branches|
    requires forall i :: 0 <= i < |entries| ==> BranchEntry(entries[i], [Token(id, branches[i])])
    ensures ValidCheckpoint(c, [9]) && c.scopes.None?
    ensures ForkState(c.frames, id, router, join, branches, c.queue[0].tokens).Ok?
    ensures var fork := ForkState(c.frames, id, router, join, branches, c.queue[0].tokens).value;
            !ValidCheckpoint(Forked(c, id, branches, fork.state, entries), [] + NodesOf(entries))
  {
    c := Checkpoint(map[5 := Frame(6, 7, B.Barrier([8], [], false), None)], [Entry(9, [], None, None, None)], None);
    assert c.frames[5] == Frame(6, 7, B.Barrier([8], [], false), None);
    assert [9][1..] == [];
    var fork := ForkState(c.frames, id, router, join, branches, []).value;
    assert forall i :: 0 <= i < |branches| ==> fork.tokens[i] == [Token(id, branches[i])];
    ForkKeepsValid(c, [9], id, router, join, branches, entries);
  }

  // ----- join

  /** `reachParallelJoin` */
  datatype Reached = Reached(state: Frames, disposition: B.Disposition, tokens: seq<Token>)

  function ReachJoin(state: Frames, join: Id, tokens: seq<Token>): Result<Reached, Error> {
    if tokens == [] || tokens[|tokens| - 1].frame !in state then Err(FrameMissing)
    else
      var token := tokens[|tokens| - 1];
      var frame := state[token.frame];
      if frame.join != join then Err(JoinMismatch)
      else
        match B.Arrive(frame.barrier, token.branch)
        case Err(e) => Err(Barrier(e))
        case Ok(arrival) =>
          Ok(Reached(state[token.frame := frame.(barrier := arrival.state)], arrival.disposition,
                     if arrival.disposition.Release? then tokens[..|tokens| - 1] else tokens))
  }

  /** The first half of the join: note the arriving branch's cursor in its frame. */
  function RecordCursor(frames: Frames, e: Entry): Result<Frames, Error> {
    if e.cursor.None? then Ok(frames)
    else if e.tokens == [] || e.tokens[|e.tokens| - 1].frame !in frames then Err(BranchIdentityMissing)
    else if !ValidRaw(e.cursor.value) then Err(CursorInvalid)
    else
      var token := e.tokens[|e.tokens| - 1];
      var frame := frames[token.frame];
      var before := if frame.cursors.Some? then frame.cursors.value else map[];
      Ok(frames[token.frame := frame.(cursors := Some(before[token.branch := Normal(e.cursor.value)]))])
  }

  function LastFrame(e: Entry): Id
    requires e.tokens != []
  {
    e.tokens[|e.tokens| - 1].frame
  }

  function CursorList(branches: seq<Id>, cursors: map<Id, Raw>): (r: seq<Raw>)
    requires forall i :: 0 <= i < |branches| ==> branches[i] in cursors
    ensures |r| == |branches| && forall i :: 0 <= i < |r| ==> r[i] == cursors[branches[i]]
  {
    seq(|branches|, i requires 0 <= i < |branches| => cursors[branches[i]])
  }

  /** The entry that is left in the queue when the last branch arrives. */
  ghost predicate ReleasedEntry(frames: Frames, e: Entry, released: Entry)
    requires e.tokens != [] && LastFrame(e) in frames
  {
    var frame := frames[LastFrame(e)];
    && released.node == e.node && released.participants == e.participants
    && released.tokens == e.tokens[..|e.tokens| - 1]
    && released.releasedJoin == Some(LastFrame(e))
    && (frame.cursors.None? ==> released.cursor == e.cursor)
    && (frame.cursors.Some? ==> MergedCursor(frame.cursors.value, released.cursor))
  }

  /** `branches` enumerates the keys, as `Object.values` does in some order. */
  ghost predicate Enumerates(branches: seq<Id>, cursors: map<Id, Raw>) {
    && (forall i :: 0 <= i < |branches| ==> branches[i] in cursors && cursors[branches[i]].Stored?)
    && forall b :: b in cursors ==> b in branches
  }

  /** All cursors of a frame, merged. */
  ghost predicate MergedCursor(cursors: map<Id, Raw>, merged: Option<Raw>) {
    && merged.Some? && merged.value.Stored? && merged.value.schemaVersion == 1
    && exists branches :: Enumerates(branches, cursors) && IsMerge(Unwrap(CursorList(branches, cursors)), merged.value.traversals)
  }

  /** What `prepareParallelJoin` returns on success. */
  ghost predicate Prepared(c: Checkpoint, c': Checkpoint, ready: bool) {
    c.queue != [] &&
    if c.queue[0].releasedJoin.Some? then ready && c' == c
    else
      match RecordCursor(c.frames, c.queue[0])
      case Err(_) => false
      case Ok(frames) =>
        match ReachJoin(frames, c.queue[0].node, c.queue[0].tokens)
        case Err(_) => false
        case Ok(reached) => Arrived(c, reached, c', ready)
  }

  /** The new frames are stored; the branch leaves the queue, or its entry becomes the join. */
  ghost predicate Arrived(c: Checkpoint, reached: Reached, c': Checkpoint, ready: bool)
    requires c.queue != []
  {
    && c'.frames == reached.state && c'.scopes == c.scopes
    && ready == reached.disposition.Release?
    && if ready then
         c'.queue != [] && c'.queue[1..] == c.queue[1..] && c.queue[0].tokens != [] &&
         LastFrame(c.queue[0]) in reached.state && ReleasedEntry(reached.state, c.queue[0], c'.queue[0])
       else c'.queue == c.queue[1..]
  }

  /** When the join neither lacks an identity nor mismatches, and at the last arrival no branch's
      cursor is missing and none is invalid. */
  ghost predicate Joinable(c: Checkpoint) {
    c.queue != [] &&
    (c.queue[0].releasedJoin.Some? ||
     match RecordCursor(c.frames, c.queue[0])
     case Err(_) => false
     case Ok(frames) =>
       match ReachJoin(frames, c.queue[0].node, c.queue[0].tokens)
       case Err(_) => false
       case Ok(reached) =>
         reached.disposition.Release? && c.queue[0].tokens != [] && LastFrame(c.queue[0]) in reached.state ==>
           var frame := reached.state[LastFrame(c.queue[0])];
           frame.cursors.Some? ==>
             (forall b :: b in frame.barrier.expected ==> b in frame.cursors.value) &&
             (forall b :: b in frame.cursors.value ==> ValidRaw(frame.cursors.value[b])))
  }

  /** The keys of a record, in some order. */
  method Enumerate(cursors: map<Id, Raw>) returns (branches: seq<Id>)
    ensures forall i :: 0 <= i < |branches| ==> branches[i] in cursors
    ensures forall b :: b in cursors ==> b in branches
  {
    branches := [];
    var pending := cursors.Keys;
    while pending != {}
      invariant pending <= cursors.Keys && forall i :: 0 <= i < |branches| ==> branches[i] in cursors
      invariant forall b :: b in cursors ==> b in branches || b in pending
      decreases |pending|
    {
      EmptyOrMember(pending);
      var b :| b in pending;
      branches, pending := branches + [b], pending - {b};
    }
  }

  lemma ListValid(branches: seq<Id>, cursors: map<Id, Raw>)
    requires forall i :: 0 <= i < |branches| ==> branches[i] in cursors
    requires forall b :: b in cursors ==> b in branches
    ensures (forall i :: 0 <= i < |branches| ==> ValidRaw(CursorList(branches, cursors)[i])) <==>
            (forall b :: b in cursors ==> ValidRaw(cursors[b]))
    ensures (forall b :: b in cursors ==> ValidRaw(cursors[b])) ==> Enumerates(branches, cursors)
  {
    hide ValidRaw;
    var list := CursorList(branches, cursors);
    if forall i :: 0 <= i < |list| ==> ValidRaw(list[i]) {
      forall b | b in cursors
        ensures ValidRaw(cursors[b])
      {
        var i :| 0 <= i < |branches| && branches[i] == b;
        assert ValidRaw(list[i]);
      }
    }
    if forall b :: b in cursors ==> ValidRaw(cursors[b]) {
      forall i | 0 <= i < |list|
        ensures ValidRaw(list[i]) && cursors[branches[i]].Stored?
      {
        assert branches[i] in cursors;
        ValidIsStored(list[i]);
      }
    }
  }

  lemma ValidIsStored(value: Raw)
    requires ValidRaw(value)
    ensures value.Stored?
  {
  }

  /** The cursor of a released entry, unless a branch left none or an invalid one. */
  method MergeBranches(frame: Frame) returns (merged: Result<Raw, Error>)
    requires frame.cursors.Some?
    ensures merged.Ok? <==>
            (forall b :: b in frame.barrier.expected ==> b in frame.cursors.value) &&
            (forall b :: b in frame.cursors.value ==> ValidRaw(frame.cursors.value[b]))
    ensures merged.Ok? ==> MergedCursor(frame.cursors.value, Some(merged.value))
    ensures merged == Err(CursorMissing) <==> !(forall b :: b in frame.barrier.expected ==> b in frame.cursors.value)
    ensures merged.Err? ==> merged.error in {CursorMissing, CursorInvalid}
  {
    if !(forall b :: b in frame.barrier.expected ==> b in frame.cursors.value) {
      return Err(CursorMissing);
    }
    var branches := Enumerate(frame.cursors.value);
    var cursors := CursorList(branches, frame.cursors.value);
    var m := Merge(cursors);
    ListValid(branches, frame.cursors.value);
    hide ValidRaw;
    if m.Err? {
      return Err(CursorInvalid);
    }
    merged := Ok(Stored(1, m.value));
  }

  /** `prepareParallelJoin`, for any checkpoint.  On valid ones fewer errors are possible. */
  method PrepareJoin(c: Checkpoint) returns (r: Result<(Checkpoint, bool), Error>)
    ensures r.Ok? <==> Joinable(c)
    ensures r.Ok? ==> Prepared(c, r.value.0, r.value.1)
    ensures c.queue != [] && c.queue[0].releasedJoin.Some? ==> r == Ok((c, true))
    ensures r.Err? && (exists nodes :: ValidCheckpoint(c, nodes)) ==>
              r.error in {QueueEmpty, BranchIdentityMissing, FrameMissing, JoinMismatch, CursorMissing}
  {
    if c.queue == [] {
      return Err(QueueEmpty);
    }
    var entry := c.queue[0];
    if entry.releasedJoin.Some? {
      return Ok((c, true));
    }
    JoinErrors(c);
    hide ValidCheckpoint, ReachJoin, RecordCursor;
    var recorded := RecordCursor(c.frames, entry);
    if recorded.Err? {
      return Err(recorded.error);
    }
    var reached := ReachJoin(recorded.value, entry.node, entry.tokens);
    if reached.Err? {
      return Err(reached.error);
    }
    var frames := reached.value.state;
    ReachKeepsTokens(recorded.value, entry);
    if !reached.value.disposition.Release? {
      return Ok((c.(frames := frames, queue := c.queue[1..]), false));
    }
    var frame := frames[LastFrame(entry)];
    var released := entry.(tokens := reached.value.tokens, releasedJoin := Some(LastFrame(entry)));
    if frame.cursors.Some? {
      var merged := MergeBranches(frame);
      if merged.Err? { return Err(merged.error); }
      released := released.(cursor := Some(merged.value));
    }
    r := Ok((c.(frames := frames, queue := [released] + c.queue[1..]), true));
  }

  lemma ReachKeepsTokens(frames: Frames, e: Entry)
    requires ReachJoin(frames, e.node, e.tokens).Ok?
    ensures var r := ReachJoin(frames, e.node, e.tokens).value;
            e.tokens != [] && LastFrame(e) in r.state &&
            (r.disposition.Release? ==> r.tokens == e.tokens[..|e.tokens| - 1])
  {
  }

  /** What can go wrong at the head of a valid checkpoint. */
  lemma JoinErrors(c: Checkpoint)
    requires c.queue != []
    ensures (exists nodes :: ValidCheckpoint(c, nodes)) ==>
              match RecordCursor(c.frames, c.queue[0])
              case Err(e) => e in {BranchIdentityMissing}
              case Ok(frames) =>
                match ReachJoin(frames, c.queue[0].node, c.queue[0].tokens)
                case Err(e) => e in {FrameMissing, JoinMismatch}
                case Ok(reached) =>
                  LastFrame(c.queue[0]) in reached.state &&
                  forall b :: reached.state[LastFrame(c.queue[0])].cursors.Some? &&
                              b in reached.state[LastFrame(c.queue[0])].cursors.value ==>
                                ValidRaw(reached.state[LastFrame(c.queue[0])].cursors.value[b])
  {
    var e := c.queue[0];
    if nodes :| ValidCheckpoint(c, nodes) {
      assert QueuedOk(c.frames, e);
      if RecordCursor(c.frames, e).Ok? {
        RecordKeepsFrames(c.frames, e);
        var frames := RecordCursor(c.frames, e).value;
        ReachErrors(frames, e);
        if ReachJoin(frames, e.node, e.tokens).Ok? {
          ReachKeepsFrames(frames, e);
          var state := ReachJoin(frames, e.node, e.tokens).value.state;
          assert FrameOk(LastFrame(e), state[LastFrame(e)]);
        }
      }
    }
  }

  lemma RecordKeepsFrames(frames: Frames, e: Entry)
    requires FramesOk(frames) && QueuedOk(frames, e) && RecordCursor(frames, e).Ok?
    ensures var r := RecordCursor(frames, e).value;
            FramesOk(r) && r.Keys == frames.Keys &&
            forall id :: id in frames ==>
              r[id].router == frames[id].router && r[id].join == frames[id].join && r[id].barrier == frames[id].barrier
  {
    if e.cursor.Some? {
      NormalOk(e.cursor.value);
      var token := e.tokens[|e.tokens| - 1];
      assert TokenOk(frames, token);
      assert FrameOk(token.frame, frames[token.frame]);
    }
  }

  lemma ReachErrors(frames: Frames, e: Entry)
    requires FramesOk(frames) && PathOk(frames, e.tokens)
    ensures ReachJoin(frames, e.node, e.tokens).Err? ==>
              ReachJoin(frames, e.node, e.tokens).error in {FrameMissing, JoinMismatch}
  {
    if e.tokens != [] {
      var token := e.tokens[|e.tokens| - 1];
      assert TokenOk(frames, token) && FrameOk(token.frame, frames[token.frame]);
      B.ArriveOnValid(frames[token.frame].barrier, token.branch);
    }
  }

  /** An arrival keeps every frame valid and changes only the barrier of the branch's frame. */
  lemma ReachKeepsFrames(frames: Frames, e: Entry)
    requires FramesOk(frames) && PathOk(frames, e.tokens) && ReachJoin(frames, e.node, e.tokens).Ok?
    ensures var r := ReachJoin(frames, e.node, e.tokens).value;
            FramesOk(r.state) && r.state.Keys == frames.Keys &&
            (forall id :: id in frames ==> r.state[id].barrier.expected == frames[id].barrier.expected) &&
            (forall id :: id in frames && id != LastFrame(e) ==> r.state[id] == frames[id]) &&
            r.state[LastFrame(e)].join == e.node &&
            (r.disposition.Release? <==> r.state[LastFrame(e)].barrier.released && !frames[LastFrame(e)].barrier.released) &&
            (forall id :: id in frames && frames[id].barrier.released ==> r.state[id].barrier.released) &&
            (forall id :: id in frames ==> r.state[id].join == frames[id].join)
  {
    var token := e.tokens[|e.tokens| - 1];
    assert TokenOk(frames, token) && FrameOk(token.frame, frames[token.frame]);
    B.ArriveOnValid(frames[token.frame].barrier, token.branch);
  }

  /** Preparing a join keeps the checkpoint valid, for the same queue when the join runs and for
      the shortened one when the branch has to wait. */
  lemma JoinKeepsValid(c: Checkpoint, c': Checkpoint, ready: bool, nodes: seq<Id>)
    requires ValidCheckpoint(c, nodes) && Prepared(c, c', ready)
    ensures ValidCheckpoint(c', if ready then nodes else nodes[1..])
  {
    var e := c.queue[0];
    assert QueuedOk(c.frames, e);
    hide FrameOk, PathOk, ParticipantsOk, ReleasedEntry, RecordCursor, ReachJoin, ValidRaw;
    if e.releasedJoin.None? {
      var frames := RecordCursor(c.frames, e).value;
      RecordKeepsFrames(c.frames, e);
      ReachKeepsFrames(frames, e);
      forall i | 0 < i < |nodes|
        ensures QueuedOk(c'.frames, c.queue[i]) && c.queue[i].node == nodes[i]
      {
        StillQueued(c.frames, c'.frames, c.queue[i]);
      }
      if ready {
        ReleasedIsQueued(c.frames, c'.frames, e, c'.queue[0]);
        assert forall i :: 0 < i < |c'.queue| ==> c'.queue[i] == c'.queue[1..][i - 1] == c.queue[i];
      }
    }
  }

  /** Frames may only gain arrivals, cursors and releases; queued entries stay valid then. */
  lemma StillQueued(frames: Frames, frames': Frames, e: Entry)
    requires QueuedOk(frames, e) && frames'.Keys == frames.Keys
    requires forall id :: id in frames ==>
               frames'[id].barrier.expected == frames[id].barrier.expected && frames'[id].join == frames[id].join &&
               (frames[id].barrier.released ==> frames'[id].barrier.released)
    ensures QueuedOk(frames', e)
  {
    forall i | 0 <= i < |e.tokens|
      ensures TokenOk(frames', e.tokens[i])
    {
      assert TokenOk(frames, e.tokens[i]);
    }
  }

  lemma ReleasedIsQueued(frames: Frames, frames': Frames, e: Entry, released: Entry)
    requires QueuedOk(frames, e) && e.tokens != [] && frames'.Keys == frames.Keys
    requires forall id :: id in frames ==> frames'[id].barrier.expected == frames[id].barrier.expected
    requires LastFrame(e) in frames' && frames'[LastFrame(e)].join == e.node && frames'[LastFrame(e)].barrier.released
    requires ReleasedEntry(frames', e, released)
    ensures QueuedOk(frames', released)
  {
    forall i | 0 <= i < |released.tokens|
      ensures TokenOk(frames', released.tokens[i]) && released.tokens[i].frame != LastFrame(e)
    {
      assert TokenOk(frames, e.tokens[i]);
    }
  }

  /** A retry of a released join finds the release already recorded and changes nothing. */
  lemma ReleasedJoinIsStable(c: Checkpoint, c': Checkpoint, c'': Checkpoint, again: bool)
    requires Prepared(c, c', true) && Prepared(c', c'', again)
    ensures again && c'' == c'
  {
  }
}
