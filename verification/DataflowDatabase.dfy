/** The executor's transactions as updates of the rows of one run, tied to the steps that
    `DataflowExecutor` reasons about, and the node loop that a worker runs between them. */
module DataflowDatabase {
  import opened Workflow
  import opened DataflowExecutor

  /** Start and finish of the next node of the order, back to back under a valid lease: both commit
      and the finished prefix grows by one. */
  lemma NextNodeCommits(plan: Plan, s: Store, token: LeaseToken)
    requires Distinct(plan.order) && PrefixDone(plan, s) && |s.artifacts| < |plan.order|
    requires LeaseProblem(s, token).None? && s.run == Running
    ensures var k := |s.artifacts|; var node := plan.order[k]; var output := NodeOutput(plan, node, Evaluated(plan, k));
            var started := StartNode(s, token, node);
            started.Ok? &&
            var finished := FinishNode(started.value, token, node, output);
            finished.Ok? && PrefixDone(plan, finished.value) && finished.value.artifacts == s.artifacts + [Artifact(node, output)] &&
            finished.value.job == s.job && finished.value.run == s.run && finished.value.now == s.now
  {
    var k := |s.artifacts|;
    var node := plan.order[k];
    var started := StartNode(s, token, node).value;
    OtherRowKeepsPrefix(plan, s, node, started.nodeRuns[node]);
    NoArtifactYet(plan, s);
    FinishKeepsPrefix(plan, started, token);
  }

  lemma NoArtifactYet(plan: Plan, s: Store)
    requires Distinct(plan.order) && PrefixDone(plan, s) && |s.artifacts| < |plan.order|
    ensures !HasArtifact(s.artifacts, plan.order[|s.artifacts|])
    ensures plan.order[|s.artifacts|] !in plan.order[..|s.artifacts|]
  {
  }

  lemma PrefixSize(plan: Plan, s: Store)
    requires PrefixDone(plan, s)
    ensures |s.artifacts| <= |plan.order|
  {
  }

  /** The rows of one run.  A method is one transaction: it locks and checks its rows in the
      program's order, updates them one by one, and leaves them alone when it is rolled back. */
  class RunTables {
    var job: Job
    var run: RunStatus
    var nodeRuns: map<Id, NodeRun>
    var artifacts: seq<Artifact>
    var now: int
    var issued: nat

    function View(): Store
      reads this
    {
      Store(job, run, nodeRuns, artifacts, now, issued)
    }

    constructor (job: Job, run: RunStatus, now: int)
      ensures View() == Store(job, run, map[], [], now, 0)
    {
      this.job, this.run, this.now := job, run, now;
      nodeRuns, artifacts, issued := map[], [], 0;
    }

    /** The job is leased under this token and the lease has not run out. */
    predicate LeaseGood(token: LeaseToken)
      reads this
    {
      job.status == Leased && job.token == Some(token) && now < job.leaseExpiresAt
    }

    method AssertLease(token: LeaseToken) returns (problem: Option<LeaseError>)
      ensures problem == LeaseProblem(View(), token)
      ensures problem == if LeaseGood(token) then None else if job.status == JobCancelled then Some(Cancelled) else Some(LeaseLost)
    {
      if job.status == JobCancelled { return Some(Cancelled); }
      if job.status != Leased || job.token != Some(token) || !(job.leaseExpiresAt > now) { return Some(LeaseLost); }
      problem := None;
    }

    method ClaimJob(plan: Plan) returns (claim: Claim)
      modifies this
      ensures (View(), claim) == DataflowExecutor.ClaimJob(old(View()), plan)
      ensures claim.Nothing? <==>
              !old(job.attempt < job.maxAttempts &&
                   ((job.status == JobQueued && job.availableAt <= now) || (job.status == Leased && job.leaseExpiresAt < now)))
      ensures claim.Repaired? ==> old(run != RunQueued && run != Running)
      ensures claim.PlanRejected? ==> old(!plan.sound && (run == RunQueued || run == Running))
      ensures claim.Claimed? ==>
                && old(job.attempt < job.maxAttempts && plan.sound && (run == RunQueued || run == Running))
                && job == old(job).(status := Leased, attempt := old(job.attempt) + 1, token := Some(claim.token),
                                    leaseExpiresAt := now + plan.leaseSeconds)
                && run == Running && claim == Claimed(old(issued), job.attempt) && issued == old(issued) + 1
      ensures claim.PlanRejected? ==> job == old(job).(status := JobFailed, token := None) && run == RunFailed
      ensures claim.Repaired? ==>
                && job == old(job).(status := if run == RunCancelled then JobCancelled else JobFailed, token := None)
                && run == old(run)
      ensures claim.Nothing? ==> job == old(job) && run == old(run)
      ensures !claim.Claimed? ==> issued == old(issued)
      ensures nodeRuns == old(nodeRuns) && artifacts == old(artifacts) && now == old(now)
    {
      if !(job.attempt < job.maxAttempts) { return Nothing; }
      if !((job.status == JobQueued && job.availableAt <= now) || (job.status == Leased && job.leaseExpiresAt < now)) {
        return Nothing;
      }
      if run != RunQueued && run != Running {
        job := job.(status := if run == RunCancelled then JobCancelled else JobFailed, token := None);
        return Repaired;
      }
      if !plan.sound {
        job := job.(status := JobFailed, token := None);
        run := RunFailed;
        return PlanRejected;
      }
      var token := issued;
      issued := issued + 1;
      job := job.(status := Leased, attempt := job.attempt + 1, token := Some(token), leaseExpiresAt := now + plan.leaseSeconds);
      run := Running;
      claim := Claimed(token, job.attempt);
    }

    method Renew(plan: Plan, token: LeaseToken)
      modifies this`job
      ensures View() == DataflowExecutor.Renew(old(View()), plan, token)
      ensures job == if old(job.status == Leased && job.token == Some(token))
                     then old(job).(leaseExpiresAt := now + plan.leaseSeconds) else old(job)
    {
      if job.status == Leased && job.token == Some(token) {
        job := job.(leaseExpiresAt := now + plan.leaseSeconds);
      }
    }

    method StartNode(token: LeaseToken, node: Id) returns (problem: Option<LeaseError>)
      modifies this`nodeRuns
      ensures match DataflowExecutor.StartNode(old(View()), token, node)
              case Ok(t) => problem == None && View() == t
              case Err(e) => problem == Some(e) && View() == old(View())
      ensures problem.None? <==> LeaseGood(token)
      ensures problem.None? ==>
                nodeRuns == old(nodeRuns)[node := NodeRun(NodeRunning,
                              if node in old(nodeRuns) then old(nodeRuns)[node].attempt + 1 else 1, token, None)]
      ensures problem.Some? ==> nodeRuns == old(nodeRuns)
    {
      problem := AssertLease(token);
      if problem.None? {
        var attempt := if node in nodeRuns then nodeRuns[node].attempt + 1 else 1;
        nodeRuns := nodeRuns[node := NodeRun(NodeRunning, attempt, token, None)];
      }
    }

    method FinishNode(token: LeaseToken, node: Id, output: Output) returns (problem: Option<LeaseError>)
      modifies this`nodeRuns, this`artifacts
      ensures match DataflowExecutor.FinishNode(old(View()), token, node, output)
              case Ok(t) => problem == None && View() == t
              case Err(e) => problem == Some(e) && View() == old(View())
      ensures problem.None? <==>
              && LeaseGood(token) && run == Running && old(node in nodeRuns)
              && old(nodeRuns)[node].status == NodeRunning && old(nodeRuns)[node].token == token
              && forall i :: 0 <= i < |old(artifacts)| ==> old(artifacts)[i].node != node
      ensures problem.None? ==>
                && artifacts == old(artifacts) + [Artifact(node, output)]
                && nodeRuns == old(nodeRuns)[node := old(nodeRuns)[node].(status := NodeSuccess, output := Some(output))]
      ensures problem.Some? ==> nodeRuns == old(nodeRuns) && artifacts == old(artifacts)
    {
      problem := AssertLease(token);
      if problem.Some? { return; }
      if !OwnsAttempt(View(), token, node) { return Some(AttemptLost); }
      // The insert violates a unique key when the node row has an artifact already.
      if HasArtifact(artifacts, node) { return Some(ArtifactExists); }
      var before := (nodeRuns, artifacts);
      artifacts := artifacts + [Artifact(node, output)];
      nodeRuns := nodeRuns[node := nodeRuns[node].(status := NodeSuccess, output := Some(output))];
      if run != Running {
        nodeRuns, artifacts := before.0, before.1;
        return Some(RunChanged);
      }
    }

    method FailNode(token: LeaseToken, node: Id) returns (problem: Option<LeaseError>)
      modifies this`nodeRuns
      ensures match DataflowExecutor.FailNode(old(View()), token, node)
              case Ok(t) => problem == None && View() == t
              case Err(e) => problem == Some(e) && View() == old(View())
      ensures problem.None? <==> LeaseGood(token)
      ensures nodeRuns == if LeaseGood(token) && old(node in nodeRuns) && old(nodeRuns)[node].status == NodeRunning &&
                             old(nodeRuns)[node].token == token
                          then old(nodeRuns)[node := old(nodeRuns)[node].(status := NodeFailed)] else old(nodeRuns)
    {
      problem := AssertLease(token);
      if problem.None? && OwnsAttempt(View(), token, node) {
        nodeRuns := nodeRuns[node := nodeRuns[node].(status := NodeFailed)];
      }
    }

    method CompleteJob(token: LeaseToken) returns (problem: Option<LeaseError>)
      modifies this`job, this`run
      ensures match DataflowExecutor.CompleteJob(old(View()), token)
              case Ok(t) => problem == None && View() == t
              case Err(e) => problem == Some(e) && View() == old(View())
      ensures problem.None? <==> old(LeaseGood(token) && run == Running)
      ensures problem.None? ==> job == old(job).(status := Completed, token := None) && run == Success
      ensures problem.Some? ==> job == old(job) && run == old(run)
    {
      problem := AssertLease(token);
      if problem.Some? { return; }
      var before := job;
      job := job.(status := Completed, token := None);
      if run != Running {
        job := before;
        return Some(RunChanged);
      }
      run := Success;
    }

    method FailJob(token: LeaseToken, attempt: nat) returns (problem: Option<LeaseError>)
      modifies this`job, this`run
      ensures match DataflowExecutor.FailJob(old(View()), token, attempt)
              case Ok(t) => problem == None && View() == t
              case Err(e) => problem == Some(e) && View() == old(View())
      ensures problem.None? <==> old(LeaseGood(token) && run == Running)
      ensures problem.None? && attempt < old(job.maxAttempts) ==>
                && job == old(job).(status := JobQueued, token := None, availableAt := now + RetryDelay(attempt))
                && run == RunQueued
      ensures problem.None? && attempt >= old(job.maxAttempts) ==>
                job == old(job).(status := JobFailed, token := None) && run == RunFailed
      ensures problem.Some? ==> job == old(job) && run == old(run)
    {
      problem := AssertLease(token);
      if problem.Some? { return; }
      var before, retry := job, attempt < job.maxAttempts;
      if retry {
        job := job.(status := JobQueued, token := None, availableAt := now + RetryDelay(attempt));
      } else {
        job := job.(status := JobFailed, token := None);
      }
      if run != Running {
        job := before;
        return Some(RunChanged);
      }
      run := if retry then RunQueued else RunFailed;
    }

    method CancelRun() returns (outcome: Cancellation)
      modifies this`job, this`run, this`nodeRuns
      ensures (View(), outcome) == DataflowExecutor.CancelRun(old(View()))
      ensures outcome.NowCancelled? <==>
              old((run == RunQueued || run == Running) && (job.status == JobQueued || job.status == Leased))
      ensures outcome.AlreadyCancelled? <==> old(run == RunCancelled)
      ensures outcome.AlreadyFinished? <==> old(run == Success || run == RunFailed)
      ensures outcome.NowCancelled? ==>
                && job == old(job).(status := JobCancelled, token := None) && run == RunCancelled
                && nodeRuns.Keys == old(nodeRuns).Keys
                && forall n :: n in nodeRuns ==>
                     nodeRuns[n] == if old(nodeRuns)[n].status == NodeRunning then old(nodeRuns)[n].(status := NodeCancelled)
                                    else old(nodeRuns)[n]
      ensures !outcome.NowCancelled? ==> job == old(job) && run == old(run) && nodeRuns == old(nodeRuns)
    {
      if RunEnded(run) { return if run == RunCancelled then AlreadyCancelled else AlreadyFinished; }
      if job.status != JobQueued && job.status != Leased { return Conflict; }
      job := job.(status := JobCancelled, token := None);
      run := RunCancelled;
      nodeRuns := map n | n in nodeRuns ::
                    if nodeRuns[n].status == NodeRunning then nodeRuns[n].(status := NodeCancelled) else nodeRuns[n];
      outcome := NowCancelled;
    }

    /** One turn of the node loop: start the row, compute, commit. */
    method RunNode(plan: Plan, token: LeaseToken, node: Id, outputs: map<Id, Output>)
      returns (output: Output, problem: Option<LeaseError>)
      requires Distinct(plan.order) && PrefixDone(plan, View()) && |artifacts| < |plan.order| && node == plan.order[|artifacts|]
      requires LeaseProblem(View(), token).None? && run == Running && outputs == Evaluated(plan, |artifacts|)
      modifies this`nodeRuns, this`artifacts
      ensures problem.None? && PrefixDone(plan, View()) && |artifacts| == old(|artifacts|) + 1
      ensures LeaseProblem(View(), token).None? && |artifacts| <= |plan.order|
      ensures outputs[node := output] == Evaluated(plan, |artifacts|)
    {
      ghost var k, s := |artifacts|, View();
      NextNodeCommits(plan, s, token);
      EvaluatedNext(plan, k);
      hide PrefixDone, Evaluated, Distinct, NodeOutput, LeaseProblem, DataflowExecutor.FinishNode, DataflowExecutor.StartNode;
      problem := StartNode(token, node);
      output := NodeOutput(plan, node, outputs);
      problem := FinishNode(token, node, output);
      SameLease(s, View(), token);
    }

    /** `runDataflowDefinition` left to itself under a valid lease: from whatever prefix the crashed
        attempts before it left behind, it ends with every node's output as if evaluated at once. */
    method RunDefinition(plan: Plan, token: LeaseToken) returns (outputs: map<Id, Output>, problem: Option<LeaseError>)
      requires Distinct(plan.order) && PrefixDone(plan, View())
      requires LeaseProblem(View(), token).None? && run == Running
      modifies this`nodeRuns, this`artifacts
      ensures problem.None? && outputs == Evaluated(plan, |plan.order|)
      ensures PrefixDone(plan, View()) && |artifacts| == |plan.order|
    {
      LoadIsEvaluated(plan, View());
      PrefixSize(plan, View());
      hide PrefixDone, Evaluated, Distinct, NodeOutput, LeaseProblem, LoadCheckpoint, DataflowExecutor.FinishNode, DataflowExecutor.StartNode;
      outputs := LoadCheckpoint(View());
      var queue := plan.order;
      problem := None;
      ghost var next := 0;
      while queue != []
        invariant next <= |plan.order| && queue == plan.order[next..]
        invariant PrefixDone(plan, View()) && LeaseProblem(View(), token).None? && run == Running
        invariant next <= |artifacts| <= |plan.order|
        invariant outputs == Evaluated(plan, |artifacts|) && problem.None?
        decreases |queue|
      {
        var node := queue[0];
        ghost var k, s := |artifacts|, View();
        EvaluatedKeys(plan, k);
        QueueHead(plan, k, next);
        queue, next := queue[1..], next + 1;
        if node !in outputs {
          var output;
          output, problem := RunNode(plan, token, node, outputs);
          outputs := outputs[node := output];
        }
      }
    }
  }

  /** A node at the head of the queue that has no output yet is the first unfinished one. */
  lemma QueueHead(plan: Plan, k: nat, next: nat)
    requires next <= k <= |plan.order| && next < |plan.order|
    ensures plan.order[next] !in plan.order[..k] ==> next == k
    ensures plan.order[next..][0] == plan.order[next] && plan.order[next..][1..] == plan.order[next + 1..]
    ensures plan.order[next] in plan.order[..k] ==> next < k || !Distinct(plan.order)
  {
    if next < k { assert plan.order[..k][next] == plan.order[next]; }
  }

  lemma SameLease(s: Store, t: Store, token: LeaseToken)
    requires t.job == s.job && t.now == s.now
    ensures LeaseProblem(t, token) == LeaseProblem(s, token)
  {
  }

  lemma EvaluatedNext(plan: Plan, k: nat)
    requires k < |plan.order|
    ensures Evaluated(plan, k + 1) == Evaluated(plan, k)[plan.order[k] := NodeOutput(plan, plan.order[k], Evaluated(plan, k))]
  {
  }
}
