/** Completing a human task against the engine's two queues (server/workflow-human-checkpoint.ts):
    the queues stay aligned, and it is said exactly when a repeated decision completes a second
    entry, which in a run of the parallel protocol it never does. */
module HumanCheckpoint {
  import opened Workflow
  import opened Sorting
  import C = LoopCursor
  import L = ParallelLineage
  import R = LoopRun
  import P = ParallelCheckpoint

  /** The runtime fields a decision looks at. */
  datatype Runtime = Runtime(
    atomicVersion: int, taskVersion: int, current: Option<Id>, queue: Option<seq<Id>>,
    parallel: Option<P.Checkpoint>, cursor: C.Raw)

  /** The head of the parallel queue, whose tokens and cursor identify the visit. */
  function HeadEntry(r: Runtime): Option<P.Entry> {
    if r.parallel.Some? && r.parallel.value.queue != [] then Some(r.parallel.value.queue[0]) else None
  }

  function IdentityCursor(r: Runtime): C.Raw {
    if r.parallel.Some? && r.taskVersion == 2
    then if HeadEntry(r).Some? && HeadEntry(r).value.cursor.Some? then HeadEntry(r).value.cursor.value else C.NotACursor
    else r.cursor
  }

  function IdentityTokens(r: Runtime): seq<Token> {
    if HeadEntry(r).Some? then HeadEntry(r).value.tokens else []
  }

  /** The decision concerns the entry at the head of both queues. */
  predicate Concerns(r: Runtime, node: Id) {
    && r.atomicVersion == 1 && (r.current.None? || r.current == Some(node))
    && r.queue.Some? && r.queue.value != [] && r.queue.value[0] == node
    && (r.parallel.Some? ==> HeadEntry(r).Some? && HeadEntry(r).value.node == node)
  }

  function Shifted(r: Runtime): Runtime
    requires r.queue.Some? && r.queue.value != [] && (r.parallel.Some? ==> r.parallel.value.queue != [])
  {
    r.(queue := Some(r.queue.value[1..]), current := None,
       parallel := if r.parallel.Some? then Some(r.parallel.value.(queue := r.parallel.value.queue[1..])) else None)
  }

  /** `completeCurrentHumanCheckpoint`; computing the identity may throw. */
  ghost function Completed(r: Runtime, node: Id, key: R.ExecutionKey): Result<Runtime, C.Error> {
    if !Concerns(r, node) then Ok(r)
    else
      match R.DurableKey(r.taskVersion, IdentityTokens(r), IdentityCursor(r))
      case Err(e) => Err(e)
      case Ok(k) => Ok(if k == key then Shifted(r) else r)
  }

  /** What a decision does: it removes its entry from the head of both queues exactly when both heads
      are the decided node and its key is that of the head's visit, whose path and cursor are those of
      the parallel entry, or of the run itself when it has no parallel state. */
  lemma CompletedIff(r: Runtime, node: Id, key: R.ExecutionKey)
    ensures var tokens := match r.parallel case Some(c) => if c.queue == [] then [] else c.queue[0].tokens case None => [];
            var cursor := match r.parallel
                          case Some(c) =>
                            if r.taskVersion != 2 then r.cursor
                            else if c.queue == [] || c.queue[0].cursor.None? then C.NotACursor else c.queue[0].cursor.value
                          case None => r.cursor;
            (Completed(r, node, key).Ok? && Completed(r, node, key).value != r) <==>
            && r.atomicVersion == 1 && r.current in {None, Some(node)}
            && r.queue.Some? && |r.queue.value| > 0 && r.queue.value[0] == node
            && (r.parallel.Some? ==> |r.parallel.value.queue| > 0 && r.parallel.value.queue[0].node == node)
            && R.DurableKey(r.taskVersion, tokens, cursor) == Ok(key)
    ensures Completed(r, node, key).Ok? && Completed(r, node, key).value != r ==>
              var t := Completed(r, node, key).value;
              && t.queue == Some(r.queue.value[1..]) && t.current.None? && (r.parallel.None? ==> t.parallel.None?)
              && (r.parallel.Some? ==> t.parallel == Some(r.parallel.value.(queue := r.parallel.value.queue[1..])))
              && t.atomicVersion == r.atomicVersion && t.taskVersion == r.taskVersion && t.cursor == r.cursor
  {
    if Concerns(r, node) { assert Shifted(r) != r by { assert |Shifted(r).queue.value| != |r.queue.value|; } }
  }

  ghost predicate Aligned(r: Runtime) {
    r.queue.Some? && r.parallel.Some? ==> P.ValidCheckpoint(r.parallel.value, r.queue.value)
  }

  /** A decision removes one entry from both queues or from neither; what restoring demands of the
      checkpoint still holds, so the run can always be resumed. */
  lemma CompletionKeepsAlignment(r: Runtime, node: Id, key: R.ExecutionKey)
    requires Aligned(r) && Completed(r, node, key).Ok?
    ensures var t := Completed(r, node, key).value;
            Aligned(t) && (t == r || (Concerns(r, node) && t == Shifted(r)))
  {
    if Completed(r, node, key).value != r && r.parallel.Some? {
      assert P.ValidCheckpoint(r.parallel.value, r.queue.value);
    }
  }

  /** Two entries are visits of one node with one identity. */
  ghost predicate SameVisit(a: P.Entry, b: P.Entry) {
    && a.node == b.node && a.tokens == b.tokens && a.cursor.Some? && b.cursor.Some?
    && C.ValidRaw(a.cursor.value) && C.ValidRaw(b.cursor.value)
    && Sort(a.cursor.value.traversals, C.TraversedEdge()) == Sort(b.cursor.value.traversals, C.TraversedEdge())
  }

  /** The second entry of the queues goes by the identity of the first. */
  ghost predicate SameIdentity(r: Runtime) {
    match r.parallel
    case None => true
    case Some(c) =>
      |c.queue| > 1 &&
      match r.taskVersion
      case 0 => c.queue[0].node == c.queue[1].node
      case 1 => c.queue[0].node == c.queue[1].node && c.queue[0].tokens == c.queue[1].tokens
      case _ => SameVisit(c.queue[0], c.queue[1])
  }

  /** A decision delivered twice completes a second entry exactly when the queue goes on with the
      same node and the same identity: any entry of the node for version 0 and for a run without
      parallel state, one on the same path for version 1, the same visit for version 2. */
  lemma RepeatedDecisionIgnoredIff(r: Runtime, node: Id, key: R.ExecutionKey)
    requires Completed(r, node, key).Ok? && Completed(r, node, key).value != r
    ensures var t := Completed(r, node, key).value;
            var again := Completed(t, node, key);
            (again.Ok? && again.value != t) <==>
            (|r.queue.value| > 1 && r.queue.value[1] == node && SameIdentity(r))
  {
    var t := Completed(r, node, key).value;
    assert t == Shifted(r);
    assert t.queue.value != [] ==> t.queue.value[0] == r.queue.value[1];
    assert t.parallel.Some? && t.parallel.value.queue != [] ==> t.parallel.value.queue[0] == r.parallel.value.queue[1];
    assert Shifted(r) != r by { assert |Shifted(r).queue.value| != |r.queue.value|; }
    if Concerns(t, node) { assert Shifted(t) != t by { assert |Shifted(t).queue.value| != |t.queue.value|; } }
  }

  /** In any run of the parallel protocol, with either identity that new runs are given, a repeated
      decision completes nothing: no two queued entries are on the same path. */
  lemma RepeatedDecisionIsIgnored(run: seq<L.System>, i: nat, r: Runtime, node: Id, key: R.ExecutionKey)
    requires L.IsRun(run) && i < |run| && r.parallel == Some(run[i].checkpoint) && r.taskVersion in {1, 2}
    requires Completed(r, node, key).Ok? && Completed(r, node, key).value != r
    ensures var t := Completed(r, node, key).value;
            var again := Completed(t, node, key);
            again.Ok? ==> again.value == t
  {
    RepeatedDecisionIgnoredIff(r, node, key);
    L.RunConserves(run, i);
    if |r.parallel.value.queue| > 1 {
      L.LivePathsApart(run[i], 0, 1);
    }
  }

  // ----- the runtime object

  class RuntimeState {
    var atomicVersion: int
    var taskVersion: int
    var current: Option<Id>
    var queue: Option<seq<Id>>
    var parallel: Option<P.Checkpoint>
    var cursor: C.Raw

    function View(): Runtime
      reads this
    {
      Runtime(atomicVersion, taskVersion, current, queue, parallel, cursor)
    }

    /** `identity` is what `workflowTaskExecutionKey` returns for the entry at the head, or throws. */
    method CompleteCurrent(node: Id, key: R.ExecutionKey, identity: Result<R.ExecutionKey, C.Error>) returns (failed: Option<C.Error>)
      requires identity == R.DurableKey(taskVersion, IdentityTokens(View()), IdentityCursor(View()))
      modifies this`queue, this`parallel, this`current
      ensures match Completed(old(View()), node, key)
              case Ok(t) => failed.None? && View() == t
              case Err(e) => failed == Some(e) && View() == old(View())
    {
      failed := None;
      if atomicVersion != 1 || (current.Some? && current != Some(node)) || queue.None? || queue.value == [] || queue.value[0] != node {
        return;
      }
      var entry := HeadEntry(View());
      if parallel.Some? && (entry.None? || entry.value.node != node) { return; }
      if identity.Err? { return Some(identity.error); }
      if identity.value != key { return; }
      queue := Some(queue.value[1..]);
      if parallel.Some? { parallel := Some(parallel.value.(queue := parallel.value.queue[1..])); }
      current := None;
    }
  }
}
