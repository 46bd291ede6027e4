/** The durable data flow executor: each database transaction is one atomic step over the job, the
    run, the node rows and the artifacts of one run, under a clock that never goes back. */
module DataflowExecutor {
  import opened Workflow

  /** A node's serialised output. */
  type Output = string

  type LeaseToken = nat

  datatype JobStatus = JobQueued | Leased | Completed | JobFailed | JobCancelled

  datatype RunStatus = RunQueued | Running | Success | RunFailed | RunCancelled

  datatype NodeStatus = NodeRunning | NodeSuccess | NodeFailed | NodeCancelled

  datatype Job = Job(
    status: JobStatus, attempt: nat, maxAttempts: nat,
    token: Option<LeaseToken>, leaseExpiresAt: int, availableAt: int)

  datatype NodeRun = NodeRun(status: NodeStatus, attempt: nat, token: LeaseToken, output: Option<Output>)

  datatype Artifact = Artifact(node: Id, output: Output)

  /** `issued` counts the lease tokens handed out, so that every claim gets a fresh one. */
  datatype Store = Store(
    job: Job, run: RunStatus, nodeRuns: map<Id, NodeRun>, artifacts: seq<Artifact>, now: int, issued: nat)

  /** The immutable execution plan.  `compute` is what a node does with its inputs and with the
      outputs of all nodes executed before it; `sound` says that the stored plan passes its hash. */
  datatype Plan = Plan(
    order: seq<Id>, incoming: map<Id, seq<Id>>,
    compute: (Id, seq<Output>, map<Id, Output>) -> Output, leaseSeconds: nat, sound: bool)

  datatype LeaseError = Cancelled | LeaseLost | AttemptLost | ArtifactExists | RunChanged

  // ----- one uninterrupted evaluation

  function Inputs(parents: seq<Id>, outputs: map<Id, Output>): seq<Output> {
    if parents == [] then []
    else (if parents[0] in outputs then [outputs[parents[0]]] else []) + Inputs(parents[1..], outputs)
  }

  function NodeOutput(plan: Plan, node: Id, outputs: map<Id, Output>): Output {
    plan.compute(node, Inputs(if node in plan.incoming then plan.incoming[node] else [], outputs), outputs)
  }

  /** The outputs after evaluating the first `n` nodes in topological order, once, undisturbed. */
  function Evaluated(plan: Plan, n: nat): map<Id, Output>
    requires n <= |plan.order|
  {
    if n == 0 then map[]
    else
      var before := Evaluated(plan, n - 1);
      before[plan.order[n - 1] := NodeOutput(plan, plan.order[n - 1], before)]
  }

  lemma {:induction false} EvaluatedKeys(plan: Plan, n: nat)
    requires n <= |plan.order|
    ensures forall x :: x in Evaluated(plan, n) <==> x in plan.order[..n]
  {
    if n > 0 {
      EvaluatedKeys(plan, n - 1);
      assert plan.order[..n] == plan.order[..n - 1] + [plan.order[n - 1]];
    }
  }

  /** Evaluating further nodes does not touch earlier outputs. */
  lemma {:induction false} EvaluatedStable(plan: Plan, m: nat, n: nat)
    requires Distinct(plan.order) && m <= n <= |plan.order|
    ensures forall x :: x in Evaluated(plan, m) ==> x in Evaluated(plan, n) && Evaluated(plan, n)[x] == Evaluated(plan, m)[x]
  {
    if m < n {
      EvaluatedStable(plan, m, n - 1);
      EvaluatedKeys(plan, n - 1);
    }
  }

  // ----- the transactions, as functions of the store

  /** `assertDataflowJobLease`: the fence in front of every commit. */
  function LeaseProblem(s: Store, token: LeaseToken): Option<LeaseError> {
    if s.job.status == JobCancelled then Some(Cancelled)
    else if s.job.status != Leased || s.job.token != Some(token) || s.job.leaseExpiresAt <= s.now then Some(LeaseLost)
    else None
  }

  predicate Claimable(s: Store) {
    && s.job.attempt < s.job.maxAttempts
    && ((s.job.status == JobQueued && s.job.availableAt <= s.now) || (s.job.status == Leased && s.job.leaseExpiresAt < s.now))
  }

  datatype Claim = Nothing | Repaired | PlanRejected | Claimed(token: LeaseToken, attempt: nat)

  function ClaimJob(s: Store, plan: Plan): (Store, Claim) {
    if !Claimable(s) then (s, Nothing)
    else if s.run != RunQueued && s.run != Running then
      (s.(job := s.job.(status := if s.run == RunCancelled then JobCancelled else JobFailed, token := None)), Repaired)
    else if !plan.sound then
      (s.(job := s.job.(status := JobFailed, token := None), run := RunFailed), PlanRejected)
    else
      (s.(job := s.job.(status := Leased, attempt := s.job.attempt + 1, token := Some(s.issued),
                        leaseExpiresAt := s.now + plan.leaseSeconds),
          run := Running, issued := s.issued + 1),
       Claimed(s.issued, s.job.attempt + 1))
  }

  function Renew(s: Store, plan: Plan, token: LeaseToken): Store {
    if s.job.status == Leased && s.job.token == Some(token)
    then s.(job := s.job.(leaseExpiresAt := s.now + plan.leaseSeconds)) else s
  }

  function StartNode(s: Store, token: LeaseToken, node: Id): Result<Store, LeaseError> {
    match LeaseProblem(s, token)
    case Some(e) => Err(e)
    case None =>
      var attempt := if node in s.nodeRuns then s.nodeRuns[node].attempt + 1 else 1;
      Ok(s.(nodeRuns := s.nodeRuns[node := NodeRun(NodeRunning, attempt, token, None)]))
  }

  predicate OwnsAttempt(s: Store, token: LeaseToken, node: Id) {
    node in s.nodeRuns && s.nodeRuns[node].status == NodeRunning && s.nodeRuns[node].token == token
  }

  predicate HasArtifact(artifacts: seq<Artifact>, node: Id) {
    exists i :: 0 <= i < |artifacts| && artifacts[i].node == node
  }

  function FinishNode(s: Store, token: LeaseToken, node: Id, output: Output): Result<Store, LeaseError> {
    match LeaseProblem(s, token)
    case Some(e) => Err(e)
    case None =>
      if !OwnsAttempt(s, token, node) then Err(AttemptLost)
      else if HasArtifact(s.artifacts, node) then Err(ArtifactExists)
      else if s.run != Running then Err(RunChanged)
      else Ok(s.(artifacts := s.artifacts + [Artifact(node, output)],
                 nodeRuns := s.nodeRuns[node := s.nodeRuns[node].(status := NodeSuccess, output := Some(output))]))
  }

  function FailNode(s: Store, token: LeaseToken, node: Id): Result<Store, LeaseError> {
    match LeaseProblem(s, token)
    case Some(e) => Err(e)
    case None =>
      if OwnsAttempt(s, token, node)
      then Ok(s.(nodeRuns := s.nodeRuns[node := s.nodeRuns[node].(status := NodeFailed)])) else Ok(s)
  }

  function CompleteJob(s: Store, token: LeaseToken): Result<Store, LeaseError> {
    match LeaseProblem(s, token)
    case Some(e) => Err(e)
    case None =>
      if s.run != Running then Err(RunChanged)
      else Ok(s.(job := s.job.(status := Completed, token := None), run := Success))
  }

  function RetryDelay(attempt: nat): nat {
    Min(60, Power2(if attempt == 0 then 0 else attempt - 1))
  }

  function Power2(n: nat): nat {
    if n == 0 then 1 else 2 * Power2(n - 1)
  }

  /** The back-off doubles from one second per attempt and stays at one minute from the seventh on. */
  lemma {:induction false} RetryBacksOff(attempt: nat)
    requires attempt >= 1
    ensures RetryDelay(1) == 1 && RetryDelay(attempt + 1) == Min(60, 2 * RetryDelay(attempt))
    ensures RetryDelay(attempt) == 60 <==> attempt >= 7
  {
    if attempt >= 7 {
      Power2Grows(6, attempt - 1);
      Power2Grows(6, attempt);
    } else {
      Power2Grows(attempt - 1, 5);
    }
    assert Power2(5) == 32 && Power2(6) == 64;
  }

  lemma {:induction false} Power2Grows(m: nat, n: nat)
    requires m <= n
    ensures Power2(m) <= Power2(n)
    decreases n
  {
    if m < n { Power2Grows(m, n - 1); }
  }

  function FailJob(s: Store, token: LeaseToken, attempt: nat): Result<Store, LeaseError> {
    match LeaseProblem(s, token)
    case Some(e) => Err(e)
    case None =>
      if s.run != Running then Err(RunChanged)
      else if attempt < s.job.maxAttempts then
        Ok(s.(job := s.job.(status := JobQueued, token := None, availableAt := s.now + RetryDelay(attempt)),
              run := RunQueued))
      else Ok(s.(job := s.job.(status := JobFailed, token := None), run := RunFailed))
  }

  datatype Cancellation = NowCancelled | AlreadyCancelled | AlreadyFinished | Conflict

  predicate RunEnded(run: RunStatus) {
    run == Success || run == RunFailed || run == RunCancelled
  }

  /** `cancelDataflowRun`, after authorisation has been rechecked under the locks. */
  function CancelRun(s: Store): (Store, Cancellation) {
    if RunEnded(s.run) then (s, if s.run == RunCancelled then AlreadyCancelled else AlreadyFinished)
    else if s.job.status != JobQueued && s.job.status != Leased then (s, Conflict)
    else
      (s.(job := s.job.(status := JobCancelled, token := None), run := RunCancelled,
          nodeRuns := map n | n in s.nodeRuns ::
                        if s.nodeRuns[n].status == NodeRunning then s.nodeRuns[n].(status := NodeCancelled) else s.nodeRuns[n]),
       NowCancelled)
  }

  /** `loadDataflowCheckpoint`: outputs of succeeded node rows that have an artifact. */
  function LoadCheckpoint(s: Store): map<Id, Output> {
    map n | n in s.nodeRuns && s.nodeRuns[n].status == NodeSuccess && s.nodeRuns[n].output.Some? && HasArtifact(s.artifacts, n)
      :: s.nodeRuns[n].output.value
  }

  // ----- workers and steps

  /** Where a worker is in `processDataflowJob`: about to read the checkpoint, at index `next` of
      the order, computing the node at index `next` after its row was started, handling an error
      raised while it did so, or with nothing left to do but to report the job as failed. */
  datatype Phase = Loading | Scanning(next: nat) | Computing(next: nat) | Failing(next: nat) | Stopped

  datatype Worker = Worker(token: LeaseToken, attempt: nat, phase: Phase, outputs: map<Id, Output>)

  datatype System = System(store: Store, workers: map<nat, Worker>)

  datatype Action =
    | Tick(seconds: nat)
    | DoClaim(worker: nat)
    | DoRenew(worker: nat)
    | DoLoad(worker: nat)
    | DoSkip(worker: nat)
    | DoStart(worker: nat)
    | DoFinish(worker: nat)
    | DoFailNode(worker: nat)
    | DoComplete(worker: nat)
    | DoFailJob(worker: nat)
    | Crash(worker: nat)
    | DoCancel

  /** One step.  The renewal timer, `DoFailJob` and `Crash` may strike at any moment, because any
      statement of a worker may throw and any process may die. */
  function Act(plan: Plan, s: System, a: Action): System {
    match a
    case Tick(seconds) => s.(store := s.store.(now := s.store.now + seconds))
    case DoCancel => s.(store := CancelRun(s.store).0)
    case DoClaim(w) =>
      if w in s.workers then s
      else
        var (store, claim) := ClaimJob(s.store, plan);
        System(store, if claim.Claimed? then s.workers[w := Worker(claim.token, claim.attempt, Loading, map[])] else s.workers)
    case _ =>
      if a.worker !in s.workers then s
      else
        var (store, next) := Outcome(plan, s.store, s.workers[a.worker], a);
        System(store, if next.Some? then s.workers[a.worker := next.value] else s.workers - {a.worker})
  }

  /** What a worker's action does to the store and to the worker itself, which may be gone after it. */
  function Outcome(plan: Plan, s: Store, me: Worker, a: Action): (Store, Option<Worker>)
    requires !a.Tick? && !a.DoCancel? && !a.DoClaim?
  {
    match a
    case DoRenew(_) => (Renew(s, plan, me.token), Some(me))
    case DoLoad(_) =>
      if me.phase.Loading? then (s, Some(me.(phase := Scanning(0), outputs := LoadCheckpoint(s)))) else (s, Some(me))
    case DoSkip(_) =>
      if me.phase.Scanning? && me.phase.next < |plan.order| && plan.order[me.phase.next] in me.outputs
      then (s, Some(me.(phase := Scanning(me.phase.next + 1)))) else (s, Some(me))
    case DoStart(_) =>
      if me.phase.Scanning? && me.phase.next < |plan.order| && plan.order[me.phase.next] !in me.outputs then
        Commit(s, StartNode(s, me.token, plan.order[me.phase.next]),
               me.(phase := Computing(me.phase.next)), me.(phase := Stopped))
      else (s, Some(me))
    case DoFinish(_) =>
      if me.phase.Computing? && me.phase.next < |plan.order| then
        var node := plan.order[me.phase.next];
        var output := NodeOutput(plan, node, me.outputs);
        Commit(s, FinishNode(s, me.token, node, output),
               me.(phase := Scanning(me.phase.next + 1), outputs := me.outputs[node := output]),
               me.(phase := Failing(me.phase.next)))
      else (s, Some(me))
    case DoFailNode(_) =>
      if (me.phase.Computing? || me.phase.Failing?) && me.phase.next < |plan.order| then
        Commit(s, FailNode(s, me.token, plan.order[me.phase.next]), me.(phase := Stopped), me.(phase := Stopped))
      else (s, Some(me))
    case DoComplete(_) =>
      if me.phase == Scanning(|plan.order|) && |me.outputs| == |plan.order| then
        match CompleteJob(s, me.token)
        case Ok(store) => (store, None)
        case Err(_) => (s, Some(me.(phase := Stopped)))
      else (s, Some(me))
    case DoFailJob(_) =>
      (match FailJob(s, me.token, me.attempt)
       case Ok(store) => (store, None)
       case Err(_) => (s, None))
    case Crash(_) => (s, None)
  }

  /** A transaction after which the worker goes on, one way when it committed and another when not. */
  function Commit(s: Store, r: Result<Store, LeaseError>, done: Worker, refused: Worker): (Store, Option<Worker>) {
    match r
    case Ok(store) => (store, Some(done))
    case Err(_) => (s, Some(refused))
  }

  // ----- the invariant

  predicate LockStep(s: Store) {
    match s.job.status
    case JobQueued => s.run == RunQueued
    case Leased => s.run == Running
    case Completed => s.run == Success
    case JobFailed => s.run == RunFailed
    case JobCancelled => s.run == RunCancelled
  }

  /** The succeeded nodes are a prefix of the order; each has one artifact, holding the output of
      the uninterrupted evaluation. */
  ghost predicate PrefixDone(plan: Plan, s: Store) {
    && |s.artifacts| <= |plan.order|
    && (forall i :: 0 <= i < |s.artifacts| ==>
                      s.artifacts[i].node == plan.order[i] && NodeDone(plan, s, plan.order[i], s.artifacts[i].output))
    && (forall n :: n in s.nodeRuns && s.nodeRuns[n].status == NodeSuccess ==> n in plan.order[..|s.artifacts|])
  }

  ghost predicate NodeDone(plan: Plan, s: Store, node: Id, output: Output)
    requires |s.artifacts| <= |plan.order|
  {
    && node in s.nodeRuns && s.nodeRuns[node].status == NodeSuccess && s.nodeRuns[node].output == Some(output)
    && node in Evaluated(plan, |s.artifacts|) && Evaluated(plan, |s.artifacts|)[node] == output
  }

  /** The lease holder works on exactly the evaluated prefix. */
  ghost predicate HolderOk(plan: Plan, s: Store, w: Worker)
    requires |s.artifacts| <= |plan.order|
  {
    && w.attempt == s.job.attempt
    && (w.phase.Scanning? ==> w.phase.next <= |s.artifacts|)
    && (w.phase.Computing? || w.phase.Failing? ==> w.phase.next == |s.artifacts|)
    && (w.phase.Scanning? || w.phase.Computing? ==> w.outputs == Evaluated(plan, |s.artifacts|))
  }

  predicate Holds(s: Store, w: Worker) {
    s.job.status == Leased && s.job.token == Some(w.token)
  }

  ghost predicate StoreOk(plan: Plan, s: Store) {
    && LockStep(s) && s.job.attempt <= s.job.maxAttempts
    && (s.job.token.Some? ==> s.job.token.value < s.issued)
    && PrefixDone(plan, s)
    && (s.job.status == Completed ==> |s.artifacts| == |plan.order|)
  }

  ghost predicate WorkersOk(plan: Plan, s: System)
    requires |s.store.artifacts| <= |plan.order|
  {
    && (forall w :: w in s.workers ==> s.workers[w].token < s.store.issued)
    && (forall v, w :: v in s.workers && w in s.workers && v != w ==> s.workers[v].token != s.workers[w].token)
    && (forall w :: w in s.workers && Holds(s.store, s.workers[w]) ==> HolderOk(plan, s.store, s.workers[w]))
  }

  ghost predicate Inv(plan: Plan, s: System) {
    Distinct(plan.order) && StoreOk(plan, s.store) && WorkersOk(plan, s)
  }

  /** An admitted run: queued, no rows, no workers. */
  ghost predicate Admitted(plan: Plan, s: System) {
    && Distinct(plan.order)
    && s.store.job.status == JobQueued && s.store.run == RunQueued && s.store.job.attempt == 0
    && s.store.job.token == None
    && s.store.nodeRuns == map[] && s.store.artifacts == [] && s.workers == map[]
  }

  lemma AdmittedInv(plan: Plan, s: System)
    requires Admitted(plan, s)
    ensures Inv(plan, s)
  {
  }

  // ----- the store invariant through each transaction

  lemma ClaimKeepsStore(plan: Plan, s: Store)
    requires StoreOk(plan, s)
    ensures StoreOk(plan, ClaimJob(s, plan).0) && ClaimJob(s, plan).1 != Repaired
    ensures ClaimJob(s, plan).0.artifacts == s.artifacts
  {
    SameRows(plan, s, ClaimJob(s, plan).0);
  }

  /** `PrefixDone` looks at node rows and artifacts only. */
  lemma SameRows(plan: Plan, s: Store, t: Store)
    requires PrefixDone(plan, s) && t.nodeRuns == s.nodeRuns && t.artifacts == s.artifacts
    ensures PrefixDone(plan, t)
  {
    forall i | 0 <= i < |t.artifacts|
      ensures NodeDone(plan, t, plan.order[i], t.artifacts[i].output)
    {
      assert NodeDone(plan, s, plan.order[i], s.artifacts[i].output);
    }
  }

  lemma CancelKeepsStore(plan: Plan, s: Store)
    requires StoreOk(plan, s)
    ensures StoreOk(plan, CancelRun(s).0) && CancelRun(s).1 != Conflict
    ensures CancelRun(s).0.artifacts == s.artifacts
  {
    var t := CancelRun(s).0;
    forall i | 0 <= i < |t.artifacts|
      ensures NodeDone(plan, t, plan.order[i], t.artifacts[i].output)
    {
      assert NodeDone(plan, s, plan.order[i], s.artifacts[i].output);
    }
  }

  /** A row outside the finished prefix may change freely as long as it does not succeed. */
  lemma OtherRowKeepsPrefix(plan: Plan, s: Store, node: Id, row: NodeRun)
    requires PrefixDone(plan, s) && node !in plan.order[..|s.artifacts|] && row.status != NodeSuccess
    ensures PrefixDone(plan, s.(nodeRuns := s.nodeRuns[node := row]))
  {
    var t := s.(nodeRuns := s.nodeRuns[node := row]);
    forall i | 0 <= i < |t.artifacts|
      ensures NodeDone(plan, t, plan.order[i], t.artifacts[i].output)
    {
      assert NodeDone(plan, s, plan.order[i], s.artifacts[i].output);
      assert plan.order[i] in plan.order[..|s.artifacts|];
    }
  }

  /** Committing the next node of the order with its evaluated output extends the prefix. */
  lemma FinishKeepsPrefix(plan: Plan, s: Store, token: LeaseToken)
    requires Distinct(plan.order) && PrefixDone(plan, s) && |s.artifacts| < |plan.order|
    requires var node := plan.order[|s.artifacts|];
             FinishNode(s, token, node, NodeOutput(plan, node, Evaluated(plan, |s.artifacts|))).Ok?
    ensures var k := |s.artifacts|; var node := plan.order[k];
            var t := FinishNode(s, token, node, NodeOutput(plan, node, Evaluated(plan, k))).value;
            PrefixDone(plan, t) && |t.artifacts| == k + 1 && t.job == s.job && t.run == s.run && t.issued == s.issued
  {
    var k := |s.artifacts|;
    var node := plan.order[k];
    var output := NodeOutput(plan, node, Evaluated(plan, k));
    hide PrefixDone, Evaluated, NodeOutput, HasArtifact, NodeDone;
    ExtendPrefix(plan, s, node, s.nodeRuns[node].(status := NodeSuccess, output := Some(output)));
  }

  lemma ExtendPrefix(plan: Plan, s: Store, node: Id, row: NodeRun)
    requires Distinct(plan.order) && PrefixDone(plan, s) && |s.artifacts| < |plan.order| && node == plan.order[|s.artifacts|]
    requires row.status == NodeSuccess && row.output == Some(NodeOutput(plan, node, Evaluated(plan, |s.artifacts|)))
    ensures PrefixDone(plan, s.(artifacts := s.artifacts + [Artifact(node, row.output.value)], nodeRuns := s.nodeRuns[node := row]))
  {
    var k, t := |s.artifacts|, s.(artifacts := s.artifacts + [Artifact(node, row.output.value)], nodeRuns := s.nodeRuns[node := row]);
    hide Evaluated, NodeOutput, NodeDone, PrefixDone;
    LastDone(plan, t, k, row);
    forall i | 0 <= i < k
      ensures t.artifacts[i].node == plan.order[i] && NodeDone(plan, t, plan.order[i], t.artifacts[i].output)
    {
      assert plan.order[i] != node;
      StillDone(plan, s, t, i);
    }
    SuccessesInPrefix(plan, s, node);
    MakePrefix(plan, t);
  }

  lemma MakePrefix(plan: Plan, t: Store)
    requires |t.artifacts| <= |plan.order|
    requires forall i :: 0 <= i < |t.artifacts| ==>
                           t.artifacts[i].node == plan.order[i] && NodeDone(plan, t, plan.order[i], t.artifacts[i].output)
    requires forall n :: n in t.nodeRuns && t.nodeRuns[n].status == NodeSuccess ==> n in plan.order[..|t.artifacts|]
    ensures PrefixDone(plan, t)
  {
  }

  lemma LastDone(plan: Plan, t: Store, k: nat, row: NodeRun)
    requires k + 1 == |t.artifacts| <= |plan.order| && plan.order[k] in t.nodeRuns && t.nodeRuns[plan.order[k]] == row
    requires row.status == NodeSuccess && row.output == Some(NodeOutput(plan, plan.order[k], Evaluated(plan, k)))
    ensures NodeDone(plan, t, plan.order[k], row.output.value)
  {
  }

  lemma SuccessesInPrefix(plan: Plan, s: Store, node: Id)
    requires PrefixDone(plan, s) && |s.artifacts| < |plan.order| && node == plan.order[|s.artifacts|]
    ensures forall n :: n == node || (n in s.nodeRuns && s.nodeRuns[n].status == NodeSuccess) ==> n in plan.order[..|s.artifacts| + 1]
  {
    assert plan.order[..|s.artifacts| + 1] == plan.order[..|s.artifacts|] + [node];
  }

  lemma StillDone(plan: Plan, s: Store, t: Store, i: nat)
    requires Distinct(plan.order) && PrefixDone(plan, s) && i < |s.artifacts| < |plan.order| && |t.artifacts| == |s.artifacts| + 1
    requires t.artifacts[i] == s.artifacts[i]
    requires plan.order[i] in s.nodeRuns ==> plan.order[i] in t.nodeRuns && t.nodeRuns[plan.order[i]] == s.nodeRuns[plan.order[i]]
    ensures t.artifacts[i].node == plan.order[i] && NodeDone(plan, t, plan.order[i], t.artifacts[i].output)
  {
    assert NodeDone(plan, s, plan.order[i], s.artifacts[i].output);
    EvaluatedStable(plan, |s.artifacts|, |t.artifacts|);
  }

  /** Reading the checkpoint yields exactly the evaluated prefix. */
  lemma LoadIsEvaluated(plan: Plan, s: Store)
    requires PrefixDone(plan, s)
    ensures LoadCheckpoint(s) == Evaluated(plan, |s.artifacts|)
  {
    hide LoadCheckpoint, Evaluated, NodeDone;
    forall x
      ensures x in LoadCheckpoint(s) <==> x in Evaluated(plan, |s.artifacts|)
      ensures x in LoadCheckpoint(s) && x in Evaluated(plan, |s.artifacts|) ==> LoadCheckpoint(s)[x] == Evaluated(plan, |s.artifacts|)[x]
    {
      LoadedNode(plan, s, x);
    }
  }

  lemma LoadedNode(plan: Plan, s: Store, x: Id)
    requires PrefixDone(plan, s)
    ensures x in LoadCheckpoint(s) <==> x in Evaluated(plan, |s.artifacts|)
    ensures x in LoadCheckpoint(s) ==> LoadCheckpoint(s)[x] == Evaluated(plan, |s.artifacts|)[x]
  {
    var k := |s.artifacts|;
    EvaluatedKeys(plan, k);
    hide Evaluated;
    if x in plan.order[..k] {
      var i :| 0 <= i < k && plan.order[..k][i] == x;
      assert NodeDone(plan, s, plan.order[i], s.artifacts[i].output);
    }
  }

  // ----- the invariant through each action

  /** What a worker's own action guarantees: the store stays right, nobody else is handed the lease,
      rows and artifacts change only under the lease, and the worker still agrees with the store. */
  ghost predicate Moves(plan: Plan, s: Store, me: Worker, t: Store, next: Option<Worker>) {
    && StoreOk(plan, t) && t.issued == s.issued
    && (t.job.status == Leased ==> s.job.status == Leased && t.job.token == s.job.token && t.job.attempt == s.job.attempt)
    && (Holds(s, me) || t.artifacts == s.artifacts)
    && (next.Some? ==> next.value.token == me.token && (Holds(t, next.value) ==> HolderOk(plan, t, next.value)))
  }

  /** What an action of a worker may rely on. */
  ghost predicate Ready(plan: Plan, s: Store, me: Worker) {
    Distinct(plan.order) && StoreOk(plan, s) && (Holds(s, me) ==> HolderOk(plan, s, me))
  }

  lemma StartMoves(plan: Plan, s: Store, me: Worker, a: Action)
    requires Ready(plan, s, me) && a.DoStart?
    ensures Moves(plan, s, me, Outcome(plan, s, me, a).0, Outcome(plan, s, me, a).1)
  {
    if me.phase.Scanning? && me.phase.next < |plan.order| && plan.order[me.phase.next] !in me.outputs {
      var node, k := plan.order[me.phase.next], |s.artifacts|;
      var r := StartNode(s, me.token, node);
      if r.Ok? {
        assert Holds(s, me);
        EvaluatedKeys(plan, k);
        assert forall i {:trigger plan.order[i]} :: 0 <= i < k ==> plan.order[i] in plan.order[..k];
        OtherRowKeepsPrefix(plan, s, node, r.value.nodeRuns[node]);
      }
    }
  }

  lemma FinishMoves(plan: Plan, s: Store, me: Worker, a: Action)
    requires Ready(plan, s, me) && a.DoFinish?
    ensures Moves(plan, s, me, Outcome(plan, s, me, a).0, Outcome(plan, s, me, a).1)
  {
    if me.phase.Computing? && me.phase.next < |plan.order| {
      var node := plan.order[me.phase.next];
      if FinishNode(s, me.token, node, NodeOutput(plan, node, me.outputs)).Ok? {
        assert Holds(s, me);
        FinishKeepsPrefix(plan, s, me.token);
        hide PrefixDone, NodeDone;
      }
    }
  }

  lemma FailNodeMoves(plan: Plan, s: Store, me: Worker, a: Action)
    requires Ready(plan, s, me) && a.DoFailNode?
    ensures Moves(plan, s, me, Outcome(plan, s, me, a).0, Outcome(plan, s, me, a).1)
  {
    if (me.phase.Computing? || me.phase.Failing?) && me.phase.next < |plan.order| {
      var node := plan.order[me.phase.next];
      var r := FailNode(s, me.token, node);
      if r.Ok? && OwnsAttempt(s, me.token, node) {
        assert Holds(s, me);
        OtherRowKeepsPrefix(plan, s, node, r.value.nodeRuns[node]);
        hide PrefixDone, NodeDone;
      }
    }
  }

  lemma ScanMoves(plan: Plan, s: Store, me: Worker, a: Action)
    requires Ready(plan, s, me) && (a.DoLoad? || a.DoSkip?)
    ensures Moves(plan, s, me, Outcome(plan, s, me, a).0, Outcome(plan, s, me, a).1)
  {
    var k := |s.artifacts|;
    LoadIsEvaluated(plan, s);
    EvaluatedKeys(plan, k);
    hide PrefixDone, NodeDone, LoadCheckpoint, Evaluated, LockStep;
    if a.DoSkip? && Holds(s, me) && me.phase.Scanning? && me.phase.next < |plan.order| && plan.order[me.phase.next] in me.outputs {
      var i :| 0 <= i < k && plan.order[..k][i] == plan.order[me.phase.next];
      assert i == me.phase.next;
    }
  }

  /** A worker that completes the job has committed every node. */
  lemma LeaveMoves(plan: Plan, s: Store, me: Worker, a: Action)
    requires Ready(plan, s, me) && (a.DoComplete? || a.DoFailJob? || a.Crash? || a.DoRenew?)
    ensures Moves(plan, s, me, Outcome(plan, s, me, a).0, Outcome(plan, s, me, a).1)
  {
    var t := Outcome(plan, s, me, a).0;
    assert t.nodeRuns == s.nodeRuns && t.artifacts == s.artifacts;
    SameRows(plan, s, t);
    if a.DoComplete? && t.job != s.job {
      assert Holds(s, me);
      EvaluatedSize(plan, |s.artifacts|);
    }
    hide PrefixDone, NodeDone;
  }

  lemma OutcomeMoves(plan: Plan, s: Store, me: Worker, a: Action)
    requires Ready(plan, s, me) && !a.Tick? && !a.DoCancel? && !a.DoClaim?
    ensures Moves(plan, s, me, Outcome(plan, s, me, a).0, Outcome(plan, s, me, a).1)
  {
    hide *;
    match a
    case DoStart(_) => StartMoves(plan, s, me, a);
    case DoFinish(_) => FinishMoves(plan, s, me, a);
    case DoFailNode(_) => FailNodeMoves(plan, s, me, a);
    case DoLoad(_) => ScanMoves(plan, s, me, a);
    case DoSkip(_) => ScanMoves(plan, s, me, a);
    case _ => LeaveMoves(plan, s, me, a);
  }

  /** A map has as many keys as the duplicate-free list of them. */
  lemma {:induction false} EvaluatedSize(plan: Plan, n: nat)
    requires Distinct(plan.order) && n <= |plan.order|
    ensures |Evaluated(plan, n)| == n
  {
    if n > 0 {
      EvaluatedSize(plan, n - 1);
      EvaluatedKeys(plan, n - 1);
      assert plan.order[n - 1] !in plan.order[..n - 1];
    }
  }

  /** A move of one worker leaves the other workers right. */
  lemma MoveKeepsInv(plan: Plan, s: System, w: nat, store: Store, next: Option<Worker>)
    requires Inv(plan, s) && w in s.workers && Moves(plan, s.store, s.workers[w], store, next)
    ensures Inv(plan, System(store, if next.Some? then s.workers[w := next.value] else s.workers - {w}))
  {
    hide StoreOk;
    assert StoreOk(plan, store) && StoreOk(plan, s.store);
    var t := System(store, if next.Some? then s.workers[w := next.value] else s.workers - {w});
    assert |store.artifacts| <= |plan.order| && |s.store.artifacts| <= |plan.order| by {
      StoreSize(plan, store);
      StoreSize(plan, s.store);
    }
    forall v | v in t.workers && Holds(t.store, t.workers[v])
      ensures HolderOk(plan, t.store, t.workers[v])
    {
      if v != w {
        assert Holds(s.store, s.workers[v]) && HolderOk(plan, s.store, s.workers[v]);
        assert s.workers[v].token != s.workers[w].token;
      }
    }
  }

  lemma StoreSize(plan: Plan, s: Store)
    requires StoreOk(plan, s)
    ensures |s.artifacts| <= |plan.order|
  {
  }

  /** Time and cancellations leave rows and artifacts of finished nodes alone and give nobody the lease. */
  lemma QuietKeepsInv(plan: Plan, s: System, store: Store)
    requires Inv(plan, s) && StoreOk(plan, store) && store.artifacts == s.store.artifacts && store.issued == s.store.issued
    requires store.job.status == Leased ==> store.job == s.store.job
    ensures Inv(plan, s.(store := store))
  {
    hide PrefixDone, LockStep;
    StoreSize(plan, store);
    forall w | w in s.workers && Holds(store, s.workers[w])
      ensures HolderOk(plan, store, s.workers[w])
    {
      assert Holds(s.store, s.workers[w]);
    }
  }

  lemma ClaimKeepsInv(plan: Plan, s: System, w: nat)
    requires Inv(plan, s) && w !in s.workers
    ensures Inv(plan, Act(plan, s, DoClaim(w)))
  {
    var (store, claim) := ClaimJob(s.store, plan);
    var t := Act(plan, s, DoClaim(w));
    ClaimKeepsStore(plan, s.store);
    hide PrefixDone, LockStep;
    StoreSize(plan, store);
    forall v | v in t.workers && Holds(t.store, t.workers[v])
      ensures HolderOk(plan, t.store, t.workers[v])
    {
      if claim.Claimed? {
        assert v == w;
      } else {
        assert Holds(s.store, s.workers[v]);
      }
    }
  }

  /** Every step keeps the invariant. */
  lemma ActKeepsInv(plan: Plan, s: System, a: Action)
    requires Inv(plan, s)
    ensures Inv(plan, Act(plan, s, a))
  {
    match a
    case Tick(seconds) =>
      SameRows(plan, s.store, s.store.(now := s.store.now + seconds));
      QuietKeepsInv(plan, s, s.store.(now := s.store.now + seconds));
    case DoCancel =>
      CancelKeepsStore(plan, s.store);
      hide PrefixDone, LockStep, WorkersOk;
      QuietKeepsInv(plan, s, CancelRun(s.store).0);
    case DoClaim(w) => if w !in s.workers { ClaimKeepsInv(plan, s, w); }
    case _ =>
      if a.worker in s.workers {
        hide PrefixDone, LockStep, Outcome;
        var (store, next) := Outcome(plan, s.store, s.workers[a.worker], a);
        OutcomeMoves(plan, s.store, s.workers[a.worker], a);
        MoveKeepsInv(plan, s, a.worker, store, next);
      }
  }

  /** The system after a list of actions. */
  function Run(plan: Plan, s: System, actions: seq<Action>): System
    decreases |actions|
  {
    if actions == [] then s else Run(plan, Act(plan, s, actions[0]), actions[1..])
  }

  lemma {:induction false} RunKeepsInv(plan: Plan, s: System, actions: seq<Action>)
    requires Inv(plan, s)
    ensures Inv(plan, Run(plan, s, actions))
    decreases |actions|
  {
    if actions != [] {
      ActKeepsInv(plan, s, actions[0]);
      RunKeepsInv(plan, Act(plan, s, actions[0]), actions[1..]);
    }
  }

  // ----- the theorems

  /** Under any interleaving of claims, crashes, expiries, reclaims, retries and cancellations, a
      run that reaches success has for every node exactly one artifact, in topological order, with
      the output of one uninterrupted evaluation. */
  lemma SuccessIsOneEvaluation(plan: Plan, s: System, actions: seq<Action>)
    requires Admitted(plan, s)
    ensures var t := Run(plan, s, actions).store;
            t.run == Success ==>
              && |t.artifacts| == |plan.order|
              && (forall i :: 0 <= i < |plan.order| ==>
                                plan.order[i] in Evaluated(plan, |plan.order|) &&
                                t.artifacts[i] == Artifact(plan.order[i], Evaluated(plan, |plan.order|)[plan.order[i]]))
  {
    AdmittedInv(plan, s);
    RunKeepsInv(plan, s, actions);
    var t := Run(plan, s, actions).store;
    if t.run == Success {
      forall i | 0 <= i < |plan.order|
        ensures plan.order[i] in Evaluated(plan, |plan.order|)
        ensures t.artifacts[i] == Artifact(plan.order[i], Evaluated(plan, |plan.order|)[plan.order[i]])
      {
        assert NodeDone(plan, t, plan.order[i], t.artifacts[i].output);
      }
    }
  }

  /** In every reachable state the succeeded nodes are a prefix of the order with one artifact each. */
  lemma SucceededNodesArePrefix(plan: Plan, s: System, actions: seq<Action>)
    requires Admitted(plan, s)
    ensures var t := Run(plan, s, actions).store;
            |t.artifacts| <= |plan.order| &&
            forall n :: (n in t.nodeRuns && t.nodeRuns[n].status == NodeSuccess) <==> n in plan.order[..|t.artifacts|]
    ensures var t := Run(plan, s, actions).store;
            forall i :: 0 <= i < |t.artifacts| ==> t.artifacts[i].node == plan.order[i]
  {
    AdmittedInv(plan, s);
    RunKeepsInv(plan, s, actions);
    var t := Run(plan, s, actions).store;
    forall n | n in plan.order[..|t.artifacts|]
      ensures n in t.nodeRuns && t.nodeRuns[n].status == NodeSuccess
    {
      var i :| 0 <= i < |t.artifacts| && plan.order[i] == n;
      assert NodeDone(plan, t, plan.order[i], t.artifacts[i].output);
    }
  }

  /** Job and run move in lock step, the attempt limit holds, and neither the repair branch of a
      claim nor the conflict branch of a cancellation is ever taken. */
  lemma StatusesInLockStep(plan: Plan, s: System, actions: seq<Action>)
    requires Admitted(plan, s)
    ensures var t := Run(plan, s, actions).store;
            LockStep(t) && t.job.attempt <= t.job.maxAttempts &&
            ClaimJob(t, plan).1 != Repaired && CancelRun(t).1 != Conflict
  {
    AdmittedInv(plan, s);
    RunKeepsInv(plan, s, actions);
    ClaimKeepsStore(plan, Run(plan, s, actions).store);
    CancelKeepsStore(plan, Run(plan, s, actions).store);
  }

  predicate JobEnded(s: Store) {
    s.job.status == Completed || s.job.status == JobFailed || s.job.status == JobCancelled
  }

  /** Terminal pairs are absorbing: no later action changes the job, the run or the artifacts. */
  lemma {:induction false} EndedIsFinal(plan: Plan, s: System, actions: seq<Action>)
    requires Inv(plan, s) && JobEnded(s.store)
    ensures var t := Run(plan, s, actions).store;
            t.job == s.store.job && t.run == s.store.run && t.artifacts == s.store.artifacts
    decreases |actions|
  {
    if actions != [] {
      ActKeepsInv(plan, s, actions[0]);
      EndedStep(plan, s, actions[0]);
      EndedIsFinal(plan, Act(plan, s, actions[0]), actions[1..]);
    }
  }

  lemma EndedStep(plan: Plan, s: System, a: Action)
    requires Inv(plan, s) && JobEnded(s.store)
    ensures var t := Act(plan, s, a).store;
            t.job == s.store.job && t.run == s.store.run && t.artifacts == s.store.artifacts
  {
    hide Outcome, PrefixDone, WorkersOk;
    if !a.Tick? && !a.DoCancel? && !a.DoClaim? && a.worker in s.workers { EndedOutcome(plan, s.store, s.workers[a.worker], a); }
  }

  lemma EndedOutcome(plan: Plan, s: Store, me: Worker, a: Action)
    requires !a.Tick? && !a.DoCancel? && !a.DoClaim? && JobEnded(s)
    ensures Outcome(plan, s, me, a).0 == s
  {
    hide NodeOutput, LoadCheckpoint, HasArtifact;
  }

  /** The fence: a worker whose token was superseded, or whose lease has expired, changes nothing
      in the database with any of its transactions. */
  lemma StaleWorkerCommitsNothing(plan: Plan, s: System, a: Action)
    requires !a.Tick? && !a.DoCancel? && !a.DoClaim? && !a.DoRenew? && a.worker in s.workers
    requires s.store.job.token != Some(s.workers[a.worker].token) || s.store.job.leaseExpiresAt <= s.store.now
    ensures Act(plan, s, a).store == s.store
  {
  }

  /** A job is never handed to a second worker while a lease on it is good; at the very second of
      expiry neither holds. */
  lemma LeaseIsExclusive(plan: Plan, s: Store, token: LeaseToken)
    ensures LeaseProblem(s, token).None? ==> ClaimJob(s, plan) == (s, Nothing)
    ensures s.job.status == Leased && s.job.leaseExpiresAt == s.now ==>
              LeaseProblem(s, token) == Some(LeaseLost) && ClaimJob(s, plan) == (s, Nothing)
  {
  }

  /** Once superseded, always superseded: a token that was handed out and is no longer the job's
      never becomes the job's again, whatever happens next. */
  lemma {:induction false} SupersededForever(plan: Plan, s: System, actions: seq<Action>, token: LeaseToken)
    requires Inv(plan, s) && token < s.store.issued && s.store.job.token != Some(token)
    ensures Run(plan, s, actions).store.job.token != Some(token)
    decreases |actions|
  {
    if actions != [] {
      ActKeepsInv(plan, s, actions[0]);
      SupersededStep(plan, s, actions[0], token);
      SupersededForever(plan, Act(plan, s, actions[0]), actions[1..], token);
    }
  }

  lemma SupersededStep(plan: Plan, s: System, a: Action, token: LeaseToken)
    requires Inv(plan, s) && token < s.store.issued && s.store.job.token != Some(token)
    ensures Act(plan, s, a).store.job.token != Some(token) && token < Act(plan, s, a).store.issued
  {
    hide Outcome, PrefixDone, LockStep, WorkersOk;
    if !a.Tick? && !a.DoCancel? && !a.DoClaim? && a.worker in s.workers { OutcomeTokens(plan, s.store, s.workers[a.worker], a); }
  }

  /** Workers hand out no tokens: they leave the job's as it is or clear it. */
  lemma OutcomeTokens(plan: Plan, s: Store, me: Worker, a: Action)
    requires !a.Tick? && !a.DoCancel? && !a.DoClaim?
    ensures Outcome(plan, s, me, a).0.issued == s.issued
    ensures Outcome(plan, s, me, a).0.job.token == s.job.token || Outcome(plan, s, me, a).0.job.token == None
  {
    hide NodeOutput, LoadCheckpoint, HasArtifact, OwnsAttempt;
  }

  // ----- "every run eventually ends" is false

  predicate ClaimableAfter(plan: Plan, s: Store, seconds: nat) {
    ClaimJob(s.(now := s.now + seconds), plan).1.Claimed?
  }

  /** Waiting can make a job claimable again exactly when it is open and has attempts left. */
  lemma ReclaimableExactly(plan: Plan, s: Store)
    requires StoreOk(plan, s) && plan.sound
    ensures (exists t: nat :: ClaimableAfter(plan, s, t)) <==>
            (s.job.status == JobQueued || s.job.status == Leased) && s.job.attempt < s.job.maxAttempts
  {
    if (s.job.status == JobQueued || s.job.status == Leased) && s.job.attempt < s.job.maxAttempts {
      var due := if s.job.status == JobQueued then s.job.availableAt else s.job.leaseExpiresAt + 1;
      var t: nat := if due > s.now then due - s.now else 0;
      assert ClaimableAfter(plan, s, t);
    }
  }

  /** The last attempt's lease has expired and its worker is gone. */
  ghost predicate Abandoned(s: System) {
    && s.store.job.status == Leased && s.store.job.attempt >= s.store.job.maxAttempts
    && s.store.job.leaseExpiresAt < s.store.now
    && forall w :: w in s.workers ==> s.store.job.token != Some(s.workers[w].token)
  }

  /** From there nothing but a cancellation ends the run: it stays leased and running for ever. */
  lemma {:induction false} AbandonedForever(plan: Plan, s: System, actions: seq<Action>)
    requires Inv(plan, s) && Abandoned(s) && DoCancel !in actions
    ensures Abandoned(Run(plan, s, actions)) && Run(plan, s, actions).store.run == Running
    decreases |actions|
  {
    if actions != [] {
      ActKeepsInv(plan, s, actions[0]);
      AbandonedStep(plan, s, actions[0]);
      assert DoCancel !in actions[1..];
      AbandonedForever(plan, Act(plan, s, actions[0]), actions[1..]);
    }
  }

  lemma AbandonedStep(plan: Plan, s: System, a: Action)
    requires Abandoned(s) && a != DoCancel
    ensures Abandoned(Act(plan, s, a))
  {
    hide Outcome;
    if !a.Tick? && !a.DoClaim? && a.worker in s.workers { StaleOutcome(plan, s.store, s.workers[a.worker], a); }
  }

  /** Nothing a worker with another token does, renewing included, reaches the store. */
  lemma StaleOutcome(plan: Plan, s: Store, me: Worker, a: Action)
    requires !a.Tick? && !a.DoCancel? && !a.DoClaim? && s.job.token != Some(me.token)
    ensures Outcome(plan, s, me, a).0 == s
    ensures Outcome(plan, s, me, a).1.Some? ==> Outcome(plan, s, me, a).1.value.token == me.token
  {
    hide NodeOutput, LoadCheckpoint;
  }

  lemma {:induction false} RunConcat(plan: Plan, s: System, a: seq<Action>, b: seq<Action>)
    ensures Run(plan, s, a + b) == Run(plan, Run(plan, s, a), b)
    decreases |a|
  {
    if a == [] {
      assert a + b == b;
    } else {
      assert (a + b)[0] == a[0] && (a + b)[1..] == a[1..] + b;
      RunConcat(plan, Act(plan, s, a[0]), a[1..], b);
    }
  }

  /** The job is open with nobody at work on it, and its row can be claimed at once. */
  ghost predicate Unattended(s: System) {
    && s.store.run in {RunQueued, Running} && s.workers == map[]
    && ((s.store.job.status == JobQueued && s.store.job.availableAt <= s.store.now) ||
        (s.store.job.status == Leased && s.store.job.leaseExpiresAt < s.store.now))
  }

  /** Waiting, claims and crashes: nobody cancels anything or commits a failure. */
  ghost predicate OnlyCrashes(actions: seq<Action>) {
    forall i :: 0 <= i < |actions| ==> actions[i].Tick? || actions[i].DoClaim? || actions[i].Crash?
  }

  /** A worker that claims the job, crashes at once and lets the lease run out. */
  function Crashing(plan: Plan, w: nat): seq<Action> {
    [DoClaim(w), Crash(w), Tick(plan.leaseSeconds + 1)]
  }

  lemma OneCrash(plan: Plan, s: System, w: nat)
    requires Unattended(s) && plan.sound && s.store.job.attempt < s.store.job.maxAttempts
    ensures var t := Run(plan, s, Crashing(plan, w));
            Unattended(t) && t.store.job.status == Leased &&
            t.store.job.attempt == s.store.job.attempt + 1 && t.store.job.maxAttempts == s.store.job.maxAttempts
  {
    var last := Tick(plan.leaseSeconds + 1);
    var s2 := Act(plan, s, DoClaim(w));
    var s3 := Act(plan, s2, Crash(w));
    var s4 := Act(plan, s3, last);
    assert s3.workers == map[];
    hide Act, Unattended;
    assert Run(plan, s, Crashing(plan, w)) == s4 by {
      assert [last][1..] == [] && Run(plan, s4, []) == s4;
      assert [Crash(w), last][1..] == [last] && Run(plan, s2, [Crash(w), last]) == s4;
      assert Crashing(plan, w)[1..] == [Crash(w), last];
    }
  }

  /** Every attempt that is left crashes. */
  lemma {:induction false} AllCrash(plan: Plan, s: System, w: nat) returns (actions: seq<Action>)
    requires Unattended(s) && plan.sound && s.store.job.attempt < s.store.job.maxAttempts
    ensures Abandoned(Run(plan, s, actions)) && OnlyCrashes(actions)
    decreases s.store.job.maxAttempts - s.store.job.attempt
  {
    OneCrash(plan, s, w);
    assert OnlyCrashes(Crashing(plan, w));
    var t := Run(plan, s, Crashing(plan, w));
    if t.store.job.attempt == t.store.job.maxAttempts {
      actions := Crashing(plan, w);
    } else {
      hide Unattended, Abandoned, Run, Crashing;
      var rest := AllCrash(plan, t, w);
      actions := Crashing(plan, w) + rest;
      RunConcat(plan, s, Crashing(plan, w), rest);
    }
  }

  /** The state is reached from every admitted job, whatever its attempt limit, by crashes
      alone, without a cancellation or any other action. */
  lemma AbandonedIsReachable(plan: Plan, s: System, w: nat)
    requires Admitted(plan, s) && plan.sound && s.store.job.maxAttempts >= 1
    ensures exists actions :: OnlyCrashes(actions) && Abandoned(Run(plan, s, actions))
  {
    var wait: nat := if s.store.job.availableAt > s.store.now then s.store.job.availableAt - s.store.now else 0;
    var due := Act(plan, s, Tick(wait));
    assert Run(plan, s, [Tick(wait)]) == due by {
      assert [Tick(wait)][1..] == [] && Run(plan, due, []) == due;
    }
    assert Unattended(due);
    assert due.store.job.attempt < due.store.job.maxAttempts;
    hide Act, Abandoned, Admitted, Unattended;
    var rest := AllCrash(plan, due, w);
    RunConcat(plan, s, [Tick(wait)], rest);
    assert OnlyCrashes([Tick(wait)] + rest) && Abandoned(Run(plan, s, [Tick(wait)] + rest));
  }
}
