/** Leased data source tests (server/p2-service.ts): unlike data flow jobs they are swept, so every
    one of them is finalised after boundedly many claims. */
module SourceTest {
  import opened Workflow

  datatype Status = Queued | Leased | Succeeded | Failed

  datatype Test = Test(
    status: Status, attempt: nat, maxAttempts: nat, token: Option<nat>, leaseExpiresAt: int, availableAt: int)

  /** `attempts` holds the attempt number every worker was given with its token; `verified` is the
      source's status, set only by an accepted result. */
  datatype Store = Store(test: Test, now: int, issued: nat, attempts: map<nat, nat>, verified: bool)

  predicate Ended(s: Store) {
    s.test.status == Succeeded || s.test.status == Failed
  }

  predicate Expired(s: Store) {
    s.test.status == Leased && s.test.leaseExpiresAt < s.now
  }

  predicate Due(s: Store) {
    Expired(s) || (s.test.status == Queued && s.test.availableAt <= s.now)
  }

  /** The sweep in front of every claim. */
  function Swept(s: Store): Store {
    if Expired(s) && s.test.attempt >= s.test.maxAttempts then s.(test := s.test.(status := Failed, token := None)) else s
  }

  function Claim(s: Store): Store {
    var t := Swept(s);
    if t.test.attempt < t.test.maxAttempts && Due(t) then
      t.(test := t.test.(status := Leased, attempt := t.test.attempt + 1, token := Some(t.issued), leaseExpiresAt := t.now + 60),
         issued := t.issued + 1, attempts := t.attempts[t.issued := t.test.attempt + 1])
    else t
  }

  /** A result is accepted from the current token only, whether or not its lease has run out; an
      unchanged configuration is needed for success. */
  predicate Owns(s: Store, token: nat) {
    s.test.status == Leased && s.test.token == Some(token) && token in s.attempts
  }

  function Succeed(s: Store, token: nat): Store {
    if Owns(s, token) then s.(test := s.test.(status := Succeeded, token := None), verified := true) else s
  }

  function Fail(s: Store, token: nat, transient: bool): Store {
    if !Owns(s, token) then s
    else if transient && s.attempts[token] < s.test.maxAttempts
    then s.(test := s.test.(status := Queued, token := None, availableAt := s.now + 5))
    else s.(test := s.test.(status := Failed, token := None))
  }

  datatype Action = Tick(seconds: nat) | DoClaim | DoSucceed(token: nat) | DoFail(token: nat, transient: bool)

  function Act(s: Store, a: Action): Store {
    match a
    case Tick(seconds) => s.(now := s.now + seconds)
    case DoClaim => Claim(s)
    case DoSucceed(token) => Succeed(s, token)
    case DoFail(token, transient) => Fail(s, token, transient)
  }

  function Run(s: Store, actions: seq<Action>): Store
    decreases |actions|
  {
    if actions == [] then s else Run(Act(s, actions[0]), actions[1..])
  }

  ghost predicate Inv(s: Store) {
    && s.test.attempt <= s.test.maxAttempts
    && (s.test.status == Queued ==> s.test.attempt < s.test.maxAttempts)
    && (s.test.status == Leased <==> s.test.token.Some?)
    && (s.test.status == Leased ==> s.test.token.value in s.attempts && s.attempts[s.test.token.value] == s.test.attempt)
    && (forall token :: token in s.attempts ==> token < s.issued)
    && (s.verified ==> s.test.status == Succeeded)
  }

  ghost predicate Admitted(s: Store) {
    s.test.status == Queued && s.test.attempt == 0 < s.test.maxAttempts && s.test.token.None? && s.attempts == map[] && !s.verified
  }

  /** Claims that found the test due. */
  function DueClaims(s: Store, actions: seq<Action>): nat
    decreases |actions|
  {
    if actions == [] then 0
    else (if actions[0].DoClaim? && Due(s) then 1 else 0) + DueClaims(Act(s, actions[0]), actions[1..])
  }

  lemma ActKeepsInv(s: Store, a: Action)
    requires Inv(s)
    ensures Inv(Act(s, a))
    ensures Ended(s) ==> Act(s, a).test == s.test
    ensures Act(s, a).test.attempt >= s.test.attempt && Act(s, a).test.maxAttempts == s.test.maxAttempts
    ensures a.DoClaim? && Due(s) ==> Act(s, a).test.attempt == s.test.attempt + 1 || Act(s, a).test.status == Failed
    ensures Ended(s) ==> !Due(s)
  {
  }

  /** Whatever workers do, crash or report late, a claim can find the test due at most once more
      than it has attempts; by then it is finalised for good. */
  lemma {:induction false} TestIsFinalised(s: Store, actions: seq<Action>)
    requires Inv(s)
    ensures Inv(Run(s, actions))
    ensures DueClaims(s, actions) <= s.test.maxAttempts - s.test.attempt + 1
    ensures DueClaims(s, actions) > s.test.maxAttempts - s.test.attempt ==> Ended(Run(s, actions))
    ensures Ended(s) ==> DueClaims(s, actions) == 0 && Run(s, actions).test == s.test
    decreases |actions|
  {
    if actions != [] {
      ActKeepsInv(s, actions[0]);
      TestIsFinalised(Act(s, actions[0]), actions[1..]);
    }
  }

  predicate DueAfter(s: Store, seconds: nat) {
    Due(s.(now := s.now + seconds))
  }

  /** ... and an open test always becomes due by waiting, so pollers do finalise it. */
  lemma OpenTestBecomesDue(s: Store)
    requires Inv(s)
    ensures (exists seconds :: DueAfter(s, seconds)) <==> !Ended(s)
  {
    if !Ended(s) {
      var due := if s.test.status == Queued then s.test.availableAt else s.test.leaseExpiresAt + 1;
      var seconds: nat := if due > s.now then due - s.now else 0;
      assert DueAfter(s, seconds);
    }
  }

  /** The source is marked verified only by a success that is final. */
  lemma VerifiedMeansSucceeded(s: Store, actions: seq<Action>)
    requires Admitted(s)
    ensures Run(s, actions).verified ==> Run(s, actions).test.status == Succeeded
    ensures Run(s, actions).test.attempt <= s.test.maxAttempts
  {
    TestIsFinalised(s, actions);
    MaxIsConstant(s, actions);
  }

  lemma {:induction false} MaxIsConstant(s: Store, actions: seq<Action>)
    requires Inv(s)
    ensures Run(s, actions).test.maxAttempts == s.test.maxAttempts
    decreases |actions|
  {
    if actions != [] {
      ActKeepsInv(s, actions[0]);
      MaxIsConstant(Act(s, actions[0]), actions[1..]);
    }
  }

  // ----- what changes a test

  /** Only the current token's owner has a say in the result. */
  ghost predicate Holds(s: Store, token: nat) {
    s.test.status == Leased && s.test.token == Some(token)
  }

  ghost predicate Takes(s: Store, a: Action) {
    && a.DoClaim? && s.test.attempt < s.test.maxAttempts
    && ((s.test.status == Queued && s.test.availableAt <= s.now) || (s.test.status == Leased && s.test.leaseExpiresAt < s.now))
  }

  ghost predicate Sweeps(s: Store, a: Action) {
    a.DoClaim? && s.test.status == Leased && s.test.leaseExpiresAt < s.now && s.test.attempt == s.test.maxAttempts
  }

  ghost predicate Retries(s: Store, a: Action) {
    a.DoFail? && Holds(s, a.token) && a.transient && s.test.attempt < s.test.maxAttempts
  }

  ghost predicate Rejects(s: Store, a: Action) {
    a.DoFail? && Holds(s, a.token) && !(a.transient && s.test.attempt < s.test.maxAttempts)
  }

  /** Every status has its causes: success, and with it the verified source, the owner's success;
      failure the owner's lasting failure or the sweep after the last attempt; the queue the owner's
      transient failure before that; a lease a claim. */
  lemma StatusCauses(s: Store, a: Action)
    requires Inv(s)
    ensures var t, u := s.test, Act(s, a).test;
            && (u.status == Succeeded <==> t.status == Succeeded || (a.DoSucceed? && Holds(s, a.token)))
            && (u.status == Failed <==> t.status == Failed || Sweeps(s, a) || Rejects(s, a))
            && (u.status == Queued <==> (t.status == Queued && !Takes(s, a)) || Retries(s, a))
            && (Act(s, a).verified <==> s.verified || (a.DoSucceed? && Holds(s, a.token)))
            && (Takes(s, a) ==> u.token == Some(s.issued) && u.attempt == t.attempt + 1 && u.leaseExpiresAt == s.now + 60)
            && (Retries(s, a) ==> u.availableAt == s.now + 5)
            && (!Takes(s, a) ==> u.attempt == t.attempt && u.leaseExpiresAt == t.leaseExpiresAt)
  {
  }

  /** A test as admitted that one worker claims and passes is final and verifies its source. */
  lemma UndisturbedTestSucceeds(s: Store)
    requires Admitted(s)
    ensures var wait := if s.test.availableAt > s.now then s.test.availableAt - s.now else 0;
            var t := Run(s, [Tick(wait), DoClaim, DoSucceed(s.issued)]);
            t.test.status == Succeeded && t.verified && t.test.attempt == 1
  {
    var wait := if s.test.availableAt > s.now then s.test.availableAt - s.now else 0;
    var a, b, c := Tick(wait), DoClaim, DoSucceed(s.issued);
    assert [a, b, c][1..] == [b, c] && [b, c][1..] == [c] && [c][1..] == [];
    var t := Act(Act(Act(s, a), b), c);
    assert Run(t, []) == t && Run(Act(Act(s, a), b), [c]) == t && Run(Act(s, a), [b, c]) == t;
  }

  // ----- the row

  class TestTable {
    var test: Test
    var now: int
    var issued: nat
    var attempts: map<nat, nat>
    var verified: bool

    function View(): Store
      reads this
    {
      Store(test, now, issued, attempts, verified)
    }

    /** `claimDataSourceTest`: sweep, select, lease. */
    method ClaimTest() returns (token: Option<nat>)
      modifies this
      ensures View() == Claim(old(View()))
      ensures token.Some? <==> Due(Swept(old(View()))) && Swept(old(View())).test.attempt < test.maxAttempts
      ensures token.Some? ==> Owns(View(), token.value)
      ensures token.Some? <==>
                old(test).attempt < old(test).maxAttempts &&
                ((old(test).status == Queued && old(test).availableAt <= now) ||
                 (old(test).status == Leased && old(test).leaseExpiresAt < now))
      ensures token.Some? ==>
                && test == Test(Leased, old(test).attempt + 1, old(test).maxAttempts, token, now + 60, old(test).availableAt)
                && token.value == old(issued) && issued == old(issued) + 1 && attempts == old(attempts)[token.value := test.attempt]
      ensures token.None? && !(old(test).status == Leased && old(test).leaseExpiresAt < now) ==> test == old(test)
      ensures token.None? && old(test).status == Leased && old(test).leaseExpiresAt < now ==>
                test == old(test).(status := Failed, token := None)
    {
      if test.status == Leased && test.leaseExpiresAt < now && test.attempt >= test.maxAttempts {
        test := test.(status := Failed, token := None);
      }
      token := None;
      if test.attempt < test.maxAttempts &&
         ((test.status == Queued && test.availableAt <= now) || (test.status == Leased && test.leaseExpiresAt < now))
      {
        token := Some(issued);
        test := test.(status := Leased, attempt := test.attempt + 1, token := token, leaseExpiresAt := now + 60);
        attempts := attempts[issued := test.attempt];
        issued := issued + 1;
      }
    }

    /** The end of `processDataSourceTest`, with its outcome. */
    method FinishTest(token: nat, success: bool, transient: bool) returns (accepted: bool)
      modifies this`test, this`verified
      ensures accepted <==> Owns(old(View()), token)
      ensures View() == if success then Succeed(old(View()), token) else Fail(old(View()), token, transient)
      ensures accepted <==> old(test).status == Leased && old(test).token == Some(token) && token in attempts
      ensures !accepted ==> test == old(test) && verified == old(verified)
      ensures accepted ==>
                && test.token.None? && test.attempt == old(test).attempt && test.maxAttempts == old(test).maxAttempts
                && (verified <==> old(verified) || success) && (test.status == Succeeded <==> success)
                && (test.status == Queued <==> !success && transient && attempts[token] < old(test).maxAttempts)
                && (test.status == Queued ==> test.availableAt == now + 5)
                && (test.status == Failed <==> !success && !(transient && attempts[token] < old(test).maxAttempts))
    {
      accepted := test.status == Leased && test.token == Some(token) && token in attempts;
      if !accepted { return; }
      if success {
        test := test.(status := Succeeded, token := None);
        verified := true;
      } else if transient && attempts[token] < test.maxAttempts {
        test := test.(status := Queued, token := None, availableAt := now + 5);
      } else {
        test := test.(status := Failed, token := None);
      }
    }
  }
}
