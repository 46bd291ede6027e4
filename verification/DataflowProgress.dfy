/** What moves a data flow run from status to status, and that it can get to success: from every
    reachable open state a worker that is left alone for one attempt brings the run there. */
module DataflowProgress {
  import opened Workflow
  import opened DataflowExecutor

  // ----- which step makes which change

  /** The worker of the action holds the lease, and the lease is good. */
  ghost predicate UnderLease(s: System, w: nat) {
    && w in s.workers && s.store.job.status == Leased && s.store.job.token == Some(s.workers[w].token)
    && s.store.now < s.store.job.leaseExpiresAt
  }

  /** A worker takes the job: it is waiting or abandoned, and has an attempt left. */
  ghost predicate Takes(plan: Plan, s: System, a: Action) {
    && a.DoClaim? && a.worker !in s.workers && s.store.job.attempt < s.store.job.maxAttempts
    && ((s.store.job.status == JobQueued && s.store.job.availableAt <= s.store.now) ||
        (s.store.job.status == Leased && s.store.job.leaseExpiresAt < s.store.now))
  }

  /** The lease holder reports after all nodes are done. */
  ghost predicate Reports(plan: Plan, s: System, a: Action) {
    && a.DoComplete? && UnderLease(s, a.worker)
    && s.workers[a.worker].phase == Scanning(|plan.order|) && |s.store.artifacts| == |plan.order|
  }

  /** The lease holder gives up. */
  ghost predicate GivesUp(s: System, a: Action) {
    a.DoFailJob? && UnderLease(s, a.worker)
  }

  ghost predicate Open(s: System) {
    s.store.run == RunQueued || s.store.run == Running
  }

  /** Every status of the run has its one cause: success the report after the last node, failure a
      worker that gives up on the last attempt or a plan that does not pass its hash, cancellation a
      cancellation, the queue a worker that gives up before the last attempt, and running a claim. */
  lemma StatusCauses(plan: Plan, s: System, a: Action)
    requires Inv(plan, s)
    ensures var run, run' := s.store.run, Act(plan, s, a).store.run;
            && (run' == Success <==> run == Success || Reports(plan, s, a))
            && (run' == RunFailed <==>
                run == RunFailed || (Takes(plan, s, a) && !plan.sound) ||
                (GivesUp(s, a) && s.store.job.attempt == s.store.job.maxAttempts))
            && (run' == RunCancelled <==> run == RunCancelled || (a.DoCancel? && Open(s)))
            && (run' == RunQueued <==>
                (run == RunQueued && !a.DoCancel? && !Takes(plan, s, a)) ||
                (GivesUp(s, a) && s.store.job.attempt < s.store.job.maxAttempts))
  {
    hide PrefixDone, WorkersOk, Outcome, HolderOk;
    if a.DoComplete? {
      CompleteCause(plan, s, a);
    } else if a.DoFailJob? {
      FailCause(plan, s, a);
    } else if !a.Tick? && !a.DoCancel? && !a.DoClaim? && a.worker in s.workers {
      QuietOutcome(plan, s.store, s.workers[a.worker], a);
    }
  }

  lemma CompleteCause(plan: Plan, s: System, a: Action)
    requires Inv(plan, s) && a.DoComplete?
    ensures Act(plan, s, a).store.run == if Reports(plan, s, a) then Success else s.store.run
  {
    hide PrefixDone, Evaluated;
    StoreSize(plan, s.store);
    HolderSize(plan, s.store);
    assert UnderLease(s, a.worker) ==> HolderOk(plan, s.store, s.workers[a.worker]);
  }

  lemma FailCause(plan: Plan, s: System, a: Action)
    requires Inv(plan, s) && a.DoFailJob?
    ensures Act(plan, s, a).store.run ==
            if !GivesUp(s, a) then s.store.run
            else if s.store.job.attempt < s.store.job.maxAttempts then RunQueued else RunFailed
  {
    hide PrefixDone, Evaluated;
    StoreSize(plan, s.store);
    assert UnderLease(s, a.worker) ==> HolderOk(plan, s.store, s.workers[a.worker]);
  }

  lemma QuietOutcome(plan: Plan, s: Store, me: Worker, a: Action)
    requires !a.Tick? && !a.DoCancel? && !a.DoClaim? && !a.DoComplete? && !a.DoFailJob?
    ensures Outcome(plan, s, me, a).0.run == s.run
  {
    hide NodeOutput, LoadCheckpoint, HasArtifact, OwnsAttempt;
  }

  lemma HolderSize(plan: Plan, s: Store)
    requires StoreOk(plan, s)
    ensures Distinct(plan.order) ==> |Evaluated(plan, |s.artifacts|)| == |s.artifacts|
  {
    if Distinct(plan.order) {
      EvaluatedSize(plan, |s.artifacts|);
    }
  }

  /** A worker that gives up early leaves the job to be claimed after its delay, at most a minute. */
  lemma GivingUpDelays(plan: Plan, s: System, a: Action)
    requires Inv(plan, s) && GivesUp(s, a) && s.store.job.attempt < s.store.job.maxAttempts
    ensures var job, job' := s.store.job, Act(plan, s, a).store.job;
            && job'.status == JobQueued && job'.token == None
            && job'.attempt == job.attempt && job'.maxAttempts == job.maxAttempts
            && job'.availableAt == s.store.now + RetryDelay(job.attempt)
            && s.store.now < job'.availableAt <= s.store.now + 60
  {
    hide PrefixDone;
    StoreSize(plan, s.store);
    assert HolderOk(plan, s.store, s.workers[a.worker]);
    DelayPositive(s.store.job.attempt);
  }

  lemma {:induction false} DelayPositive(attempt: nat)
    ensures 1 <= RetryDelay(attempt) <= 60
  {
    Power2Grows(0, if attempt == 0 then 0 else attempt - 1);
  }

  /** A renewal keeps the holder's lease good, and the job from anybody else, for a whole lease. */
  lemma RenewalExtends(plan: Plan, s: System, w: nat, v: nat, seconds: nat)
    requires w in s.workers && s.store.job.status == Leased && s.store.job.token == Some(s.workers[w].token)
    requires seconds < plan.leaseSeconds
    ensures var t := Run(plan, s, [DoRenew(w), Tick(seconds)]);
            UnderLease(t, w) && Act(plan, t, DoClaim(v)) == t
  {
    assert [DoRenew(w), Tick(seconds)][1..] == [Tick(seconds)];
    OneAction(plan, Act(plan, s, DoRenew(w)), Tick(seconds));
  }

  /** With a sound plan a run fails only if some worker gives up. */
  lemma {:induction false} OnlyGivingUpFails(plan: Plan, s: System, actions: seq<Action>)
    requires Inv(plan, s) && plan.sound && s.store.run != RunFailed
    requires forall i :: 0 <= i < |actions| ==> !actions[i].DoFailJob?
    ensures var t := Run(plan, s, actions).store; t.run != RunFailed && t.job.status != JobFailed
    decreases |actions|
  {
    if actions != [] {
      StatusCauses(plan, s, actions[0]);
      ActKeepsInv(plan, s, actions[0]);
      hide Act, Inv;
      OnlyGivingUpFails(plan, Act(plan, s, actions[0]), actions[1..]);
    }
  }

  // ----- one undisturbed attempt

  /** Worker `w` has the job to itself: it holds a good lease and stands at index `next`, with
      everything before the first unfinished node loaded. */
  ghost predicate At(plan: Plan, s: System, w: nat, next: nat) {
    Inv(plan, s) && UnderLease(s, w) && s.workers[w].phase == Scanning(next)
  }

  lemma ClaimAndLoad(plan: Plan, s: System, w: nat)
    requires Inv(plan, s) && plan.sound && plan.leaseSeconds >= 1 && Open(s) && Takes(plan, s, DoClaim(w))
    ensures var t := Act(plan, Act(plan, s, DoClaim(w)), DoLoad(w));
            At(plan, t, w, 0) && t.store.artifacts == s.store.artifacts
  {
    var t1 := Act(plan, s, DoClaim(w));
    ActKeepsInv(plan, s, DoClaim(w));
    ActKeepsInv(plan, t1, DoLoad(w));
    hide Inv, StoreOk, WorkersOk, PrefixDone, LoadCheckpoint;
  }

  lemma SkipOne(plan: Plan, s: System, w: nat, next: nat)
    requires At(plan, s, w, next) && next < |s.store.artifacts|
    ensures var t := Act(plan, s, DoSkip(w)); At(plan, t, w, next + 1) && t.store == s.store
  {
    ActKeepsInv(plan, s, DoSkip(w));
    assert HolderOk(plan, s.store, s.workers[w]);
    StoreSize(plan, s.store);
    EvaluatedKeys(plan, |s.store.artifacts|);
    assert plan.order[..|s.store.artifacts|][next] == plan.order[next];
    hide Inv, StoreOk, WorkersOk, PrefixDone, Evaluated;
  }

  lemma RunOne(plan: Plan, s: System, w: nat)
    requires At(plan, s, w, |s.store.artifacts|) && |s.store.artifacts| < |plan.order|
    ensures var t := Act(plan, Act(plan, s, DoStart(w)), DoFinish(w));
            At(plan, t, w, |t.store.artifacts|) && |t.store.artifacts| == |s.store.artifacts| + 1
  {
    var k := |s.store.artifacts|;
    var t1 := Act(plan, s, DoStart(w));
    ActKeepsInv(plan, s, DoStart(w));
    ActKeepsInv(plan, t1, DoFinish(w));
    assert HolderOk(plan, s.store, s.workers[w]);
    EvaluatedKeys(plan, k);
    NextIsNew(plan, s.store);
    assert s.store.run == Running;
    hide Inv, StoreOk, WorkersOk, PrefixDone, Evaluated, NodeOutput;
  }

  lemma NextIsNew(plan: Plan, s: Store)
    requires Distinct(plan.order) && PrefixDone(plan, s) && |s.artifacts| < |plan.order|
    ensures !HasArtifact(s.artifacts, plan.order[|s.artifacts|]) && plan.order[|s.artifacts|] !in plan.order[..|s.artifacts|]
  {
  }

  lemma ReportSucceeds(plan: Plan, s: System, w: nat)
    requires At(plan, s, w, |plan.order|) && |s.store.artifacts| == |plan.order|
    ensures var t := Act(plan, s, DoComplete(w)).store;
            t.run == Success && t.job.status == Completed && t.artifacts == s.store.artifacts
  {
    StatusCauses(plan, s, DoComplete(w));
    ActKeepsInv(plan, s, DoComplete(w));
    hide Evaluated;
  }

  function Skips(w: nat, n: nat): seq<Action> {
    if n == 0 then [] else [DoSkip(w)] + Skips(w, n - 1)
  }

  function Nodes(w: nat, n: nat): seq<Action> {
    if n == 0 then [] else [DoStart(w), DoFinish(w)] + Nodes(w, n - 1)
  }

  /** One attempt of worker `w` after `wait` seconds, with `done` of `total` nodes finished before. */
  function Attempt(w: nat, wait: nat, done: nat, total: nat): seq<Action>
    requires done <= total
  {
    [Tick(wait), DoClaim(w), DoLoad(w)] + Skips(w, done) + Nodes(w, total - done) + [DoComplete(w)]
  }

  lemma {:induction false} SkipAll(plan: Plan, s: System, w: nat, next: nat, n: nat)
    requires At(plan, s, w, next) && next + n <= |s.store.artifacts|
    ensures var t := Run(plan, s, Skips(w, n)); At(plan, t, w, next + n) && t.store == s.store
    decreases n
  {
    if n > 0 {
      hide At, Act;
      SkipOne(plan, s, w, next);
      SkipAll(plan, Act(plan, s, DoSkip(w)), w, next + 1, n - 1);
      assert Skips(w, n)[1..] == Skips(w, n - 1);
    }
  }

  lemma {:induction false} RunAll(plan: Plan, s: System, w: nat, n: nat)
    requires At(plan, s, w, |s.store.artifacts|) && |s.store.artifacts| + n == |plan.order|
    ensures var t := Run(plan, s, Nodes(w, n));
            At(plan, t, w, |plan.order|) && |t.store.artifacts| == |plan.order|
    decreases n
  {
    if n > 0 {
      hide At, Act;
      RunOne(plan, s, w);
      var t1 := Act(plan, s, DoStart(w));
      var t2 := Act(plan, t1, DoFinish(w));
      RunAll(plan, t2, w, n - 1);
      assert Nodes(w, n)[0] == DoStart(w) && Nodes(w, n)[1..][0] == DoFinish(w) && Nodes(w, n)[1..][1..] == Nodes(w, n - 1);
      assert Run(plan, t1, Nodes(w, n)[1..]) == Run(plan, t2, Nodes(w, n - 1));
    }
  }

  /** From every reachable open state with an attempt left, whatever crashed before, one attempt of a
      worker that is left alone brings job and run to their success, with an artifact per node. */
  lemma OpenRunSucceeds(plan: Plan, s: System, w: nat, wait: nat)
    requires Inv(plan, s) && plan.sound && plan.leaseSeconds >= 1 && Open(s)
    requires Takes(plan, Act(plan, s, Tick(wait)), DoClaim(w))
    ensures |s.store.artifacts| <= |plan.order|
    ensures var t := Run(plan, s, Attempt(w, wait, |s.store.artifacts|, |plan.order|)).store;
            t.run == Success && t.job.status == Completed && |t.artifacts| == |plan.order|
  {
    hide Act, At, Inv, Takes, Open, Run, Skips, Nodes;
    SizeOk(plan, s);
    var done, total := |s.store.artifacts|, |plan.order|;
    var first, skips, nodes := [Tick(wait), DoClaim(w), DoLoad(w)], Skips(w, done), Nodes(w, total - done);
    AttemptStarts(plan, s, w, wait);
    SkipAll(plan, Run(plan, s, first), w, 0, done);
    RunAll(plan, Run(plan, Run(plan, s, first), skips), w, total - done);
    var s5 := Run(plan, Run(plan, Run(plan, s, first), skips), nodes);
    ReportSucceeds(plan, s5, w);
    OneAction(plan, s5, DoComplete(w));
    FourParts(plan, s, first, skips, nodes, [DoComplete(w)]);
  }

  lemma SizeOk(plan: Plan, s: System)
    requires Inv(plan, s)
    ensures |s.store.artifacts| <= |plan.order|
  {
  }

  lemma AttemptStarts(plan: Plan, s: System, w: nat, wait: nat)
    requires Inv(plan, s) && plan.sound && plan.leaseSeconds >= 1 && Open(s)
    requires Takes(plan, Act(plan, s, Tick(wait)), DoClaim(w))
    ensures var t := Run(plan, s, [Tick(wait), DoClaim(w), DoLoad(w)]);
            At(plan, t, w, 0) && t.store.artifacts == s.store.artifacts
  {
    var s1 := Act(plan, s, Tick(wait));
    ActKeepsInv(plan, s, Tick(wait));
    assert s1.store.artifacts == s.store.artifacts && Open(s1);
    hide Act, At, Inv, Takes, Open;
    ClaimAndLoad(plan, s1, w);
    ThreeActions(plan, s, Tick(wait), DoClaim(w), DoLoad(w));
  }

  lemma FourParts(plan: Plan, s: System, a: seq<Action>, b: seq<Action>, c: seq<Action>, d: seq<Action>)
    ensures Run(plan, s, a + b + c + d) == Run(plan, Run(plan, Run(plan, Run(plan, s, a), b), c), d)
  {
    hide *;
    RunConcat(plan, s, a + b + c, d);
    RunConcat(plan, s, a + b, c);
    RunConcat(plan, s, a, b);
  }

  lemma OneAction(plan: Plan, s: System, a: Action)
    ensures Run(plan, s, [a]) == Act(plan, s, a)
  {
    hide Act;
    assert [a][1..] == [] && Run(plan, Act(plan, s, a), []) == Act(plan, s, a);
  }

  lemma ThreeActions(plan: Plan, s: System, a: Action, b: Action, c: Action)
    ensures Run(plan, s, [a, b, c]) == Act(plan, Act(plan, Act(plan, s, a), b), c)
  {
    hide Act;
    var t := Act(plan, Act(plan, Act(plan, s, a), b), c);
    assert [a, b, c][1..] == [b, c] && [b, c][1..] == [c] && [c][1..] == [];
    assert Run(plan, t, []) == t;
    assert Run(plan, Act(plan, Act(plan, s, a), b), [c]) == t;
    assert Run(plan, Act(plan, s, a), [b, c]) == t;
  }

  /** An admitted run that nothing disturbs succeeds at its first attempt, and its artifacts are the
      outputs of the evaluation. */
  lemma UndisturbedRunSucceeds(plan: Plan, s: System, w: nat)
    requires Admitted(plan, s) && plan.sound && plan.leaseSeconds >= 1 && s.store.job.maxAttempts >= 1
    ensures var wait := if s.store.job.availableAt > s.store.now then s.store.job.availableAt - s.store.now else 0;
            var t := Run(plan, s, Attempt(w, wait, 0, |plan.order|)).store;
            && t.run == Success && t.job.status == Completed && |t.artifacts| == |plan.order|
            && forall i :: 0 <= i < |plan.order| ==>
                 plan.order[i] in Evaluated(plan, |plan.order|) &&
                 t.artifacts[i] == Artifact(plan.order[i], Evaluated(plan, |plan.order|)[plan.order[i]])
  {
    var wait := if s.store.job.availableAt > s.store.now then s.store.job.availableAt - s.store.now else 0;
    AdmittedInv(plan, s);
    OpenRunSucceeds(plan, s, w, wait);
    SuccessIsOneEvaluation(plan, s, Attempt(w, wait, 0, |plan.order|));
  }

  /** What waiting achieves: an open run in whose way only time stands can be taken by a new worker. */
  lemma WaitingOpens(plan: Plan, s: System, w: nat) returns (wait: nat)
    requires Inv(plan, s) && Open(s) && s.store.job.attempt < s.store.job.maxAttempts && w !in s.workers
    ensures Takes(plan, Act(plan, s, Tick(wait)), DoClaim(w))
  {
    var due := if s.store.job.status == JobQueued then s.store.job.availableAt else s.store.job.leaseExpiresAt + 1;
    wait := if due > s.store.now then due - s.store.now else 0;
    hide PrefixDone, WorkersOk;
  }
}
