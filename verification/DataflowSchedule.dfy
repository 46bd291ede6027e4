/** Internal schedules of data flows (server/dataflow-schedule.ts and the admission in
    server/p2-service.ts): one row per flow, changed under a revision check, whose due instants
    each admit at most one run. */
module DataflowSchedule {
  import opened Workflow

  datatype Status = Active | Paused | Deleted

  datatype Schedule = Schedule(
    internal: bool, status: Status, revision: nat, cron: string, nextRunAt: Option<int>, hasTask: bool)

  /** The flow as the transaction finds it under its lock. */
  datatype Flow = MissingFlow | Archived | Draft | Published

  /** The part of a run's unique schedule bucket that varies; the schedule id never does. */
  datatype Bucket = Bucket(revision: nat, dueAt: int)

  datatype Table = Table(row: Option<Schedule>, admitted: seq<Bucket>, now: int)

  datatype Refusal = BadCron | NoFlow | Unpublished | Conflict | StillActive | HostedTask | WorkerOff
                   | Superseded | NotAdmissible | OwnerInactive | DuplicateBucket

  datatype Change = Activate | Pause | Delete

  /** The calendar only needs to move forward. */
  ghost predicate Forward(next: (string, int) -> int) {
    forall cron, t :: next(cron, t) > t
  }

  // ----- the transactions

  function Save(t: Table, cron: string, valid: bool, expected: Option<nat>, flow: Flow): Result<Table, Refusal> {
    if !valid then Err(BadCron)
    else if flow.MissingFlow? || flow.Archived? then Err(NoFlow)
    else if !flow.Published? then Err(Unpublished)
    else
      match t.row
      case None =>
        if expected.Some? then Err(Conflict) else Ok(t.(row := Some(Schedule(true, Paused, 1, cron, None, false))))
      case Some(s) =>
        if (s.status != Deleted || expected.Some?) && expected != Some(s.revision) then Err(Conflict)
        else if s.status == Active then Err(StillActive)
        else if !s.internal && s.status != Deleted && s.hasTask then Err(HostedTask)
        else Ok(t.(row := Some(Schedule(true, Paused, s.revision + 1, cron, None, false))))
  }

  function Alter(t: Table, change: Change, expected: Option<nat>, flow: Flow, workerOn: bool, next: (string, int) -> int)
    : Result<Table, Refusal>
  {
    if change.Activate? && !workerOn then Err(WorkerOff)
    else if flow.MissingFlow? || (flow.Archived? && change.Activate?) then Err(NoFlow)
    else
      match t.row
      case None => Err(Conflict)
      case Some(s) =>
        if s.status == Deleted || !s.internal then Err(Conflict)
        else if expected != Some(s.revision) then Err(Conflict)
        else if change.Activate? && !flow.Published? then Err(Unpublished)
        else if change.Activate? && s.status == Active then Err(StillActive)
        else
          Ok(t.(row := Some(s.(
            status := match change case Activate => Active case Pause => Paused case Delete => Deleted,
            nextRunAt := if change.Activate? then Some(next(s.cron, t.now)) else None,
            revision := s.revision + 1))))
  }

  /** The row a due entry was read from, if it is still what it was. */
  predicate StillDue(t: Table, revision: nat, dueAt: int) {
    && t.row.Some? && t.row.value.internal && t.row.value.status == Active
    && t.row.value.nextRunAt == Some(dueAt) && dueAt <= t.now && t.row.value.revision == revision
  }

  /** `runDataflow` for a due entry: the schedule row is locked and compared, the run is inserted
      under its unique bucket, and the row moves on to the calendar's next instant. */
  function Admit(t: Table, revision: nat, dueAt: int, admissible: bool, sameOwner: bool, ownerActive: bool,
                 next: (string, int) -> int): Result<Table, Refusal>
  {
    if !admissible then Err(NotAdmissible)
    else if !StillDue(t, revision, dueAt) || !sameOwner then Err(Superseded)
    else if !ownerActive then Err(OwnerInactive)
    else if Bucket(revision, dueAt) in t.admitted then Err(DuplicateBucket)
    else
      Ok(t.(row := Some(t.row.value.(nextRunAt := Some(next(t.row.value.cron, t.now)))),
            admitted := t.admitted + [Bucket(revision, dueAt)]))
  }

  /** After an admission that failed for good: the schedule is paused unless it has changed since. */
  function GiveUp(t: Table, revision: nat, dueAt: int, sameOwner: bool): Table {
    if t.row.Some? && t.row.value.status == Active && t.row.value.revision == revision &&
       t.row.value.nextRunAt == Some(dueAt) && sameOwner
    then t.(row := Some(t.row.value.(status := Paused, revision := revision + 1, nextRunAt := None)))
    else t
  }

  // ----- runs

  /** Every action may be issued by any worker or user with any stale values in hand. */
  datatype Action =
    | Tick(seconds: nat)
    | DoSave(cron: string, valid: bool, expected: Option<nat>, flow: Flow)
    | DoAlter(change: Change, expected: Option<nat>, flow: Flow, workerOn: bool)
    | DoAdmit(revision: nat, dueAt: int, admissible: bool, sameOwner: bool, ownerActive: bool)
    | DoGiveUp(revision: nat, dueAt: int, sameOwner: bool)

  function Committed(t: Table, r: Result<Table, Refusal>): Table {
    if r.Ok? then r.value else t
  }

  function Act(t: Table, a: Action, next: (string, int) -> int): Table {
    match a
    case Tick(seconds) => t.(now := t.now + seconds)
    case DoSave(cron, valid, expected, flow) => Committed(t, Save(t, cron, valid, expected, flow))
    case DoAlter(change, expected, flow, on) => Committed(t, Alter(t, change, expected, flow, on, next))
    case DoAdmit(revision, dueAt, ok, same, active) => Committed(t, Admit(t, revision, dueAt, ok, same, active, next))
    case DoGiveUp(revision, dueAt, same) => GiveUp(t, revision, dueAt, same)
  }

  function Run(t: Table, actions: seq<Action>, next: (string, int) -> int): Table
    decreases |actions|
  {
    if actions == [] then t else Run(Act(t, actions[0], next), actions[1..], next)
  }

  /** An internal schedule is active exactly when its next instant is set; admitted buckets are
      distinct, none is of a later revision, and those of an active revision lie before its next instant. */
  ghost predicate Inv(t: Table) {
    && (t.row.Some? && t.row.value.internal ==> (t.row.value.status == Active <==> t.row.value.nextRunAt.Some?))
    && (t.row.Some? && !t.row.value.internal ==> t.row.value.nextRunAt.None?)
    && Distinct(t.admitted)
    && (forall b :: b in t.admitted ==> t.row.Some? && b.revision <= t.row.value.revision)
    && (forall b :: b in t.admitted && b.revision == t.row.value.revision && t.row.value.nextRunAt.Some? ==>
                      b.dueAt < t.row.value.nextRunAt.value)
  }

  function RevisionOf(t: Table): nat {
    if t.row.Some? then t.row.value.revision else 0
  }

  lemma ActKeepsInv(t: Table, a: Action, next: (string, int) -> int)
    requires Inv(t) && Forward(next)
    ensures Inv(Act(t, a, next))
    ensures RevisionOf(t) <= RevisionOf(Act(t, a, next)) && t.admitted <= Act(t, a, next).admitted
  {
  }

  /** Over any run from a flow without a schedule, or with an imported hosted one: active means
      due-dated, buckets never repeat, and revisions never go back. */
  lemma {:induction false} RunKeepsInv(t: Table, actions: seq<Action>, next: (string, int) -> int)
    requires Inv(t) && Forward(next)
    ensures var u := Run(t, actions, next);
            Inv(u) && RevisionOf(t) <= RevisionOf(u) && t.admitted <= u.admitted
    decreases |actions|
  {
    if actions != [] {
      ActKeepsInv(t, actions[0], next);
      RunKeepsInv(Act(t, actions[0], next), actions[1..], next);
    }
  }

  /** Every committed change of the configuration takes a new, higher revision; admissions keep it.
      The unique key on buckets is never violated. */
  lemma RevisionsGrowOnChange(t: Table, a: Action, next: (string, int) -> int)
    requires Inv(t) && Forward(next)
    ensures var u := Act(t, a, next);
            if a.DoAdmit? || a.Tick? then RevisionOf(u) == RevisionOf(t)
            else u == t || RevisionOf(u) == RevisionOf(t) + 1
    ensures a.DoAdmit? ==> Admit(t, a.revision, a.dueAt, a.admissible, a.sameOwner, a.ownerActive, next) != Err(DuplicateBucket)
  {
  }

  /** Optimistic locking: once a change has been committed against revision `r`, every later save or
      change that still expects `r` is refused, whatever happened in between. */
  lemma LosersAreRefused(t: Table, a: Action, actions: seq<Action>, b: Action, next: (string, int) -> int)
    requires Inv(t) && Forward(next) && t.row.Some?
    requires (a.DoSave? || a.DoAlter?) && a.expected == Some(t.row.value.revision) && Act(t, a, next) != t
    requires (b.DoSave? || b.DoAlter?) && b.expected == Some(t.row.value.revision)
    ensures Act(Run(Act(t, a, next), actions, next), b, next) == Run(Act(t, a, next), actions, next)
  {
    RevisionsGrowOnChange(t, a, next);
    ActKeepsInv(t, a, next);
    RunKeepsInv(Act(t, a, next), actions, next);
  }

  ghost predicate AnyDue(t: Table) {
    exists revision, dueAt :: StillDue(t, revision, dueAt)
  }

  /** Downtime is coalesced: right after an admission nothing is due, and nothing can be admitted
      before the clock reaches the calendar's next instant after now. */
  lemma AdmissionsAreCoalesced(t: Table, revision: nat, dueAt: int, seconds: nat, next: (string, int) -> int)
    requires Inv(t) && Forward(next) && StillDue(t, revision, dueAt)
    ensures var u := Admit(t, revision, dueAt, true, true, true, next);
            u.Ok? && u.value.admitted == t.admitted + [Bucket(revision, dueAt)] &&
            (AnyDue(u.value.(now := t.now + seconds)) <==> t.now + seconds >= next(t.row.value.cron, t.now) > t.now)
  {
    var u := Admit(t, revision, dueAt, true, true, true, next).value;
    var d := next(t.row.value.cron, t.now);
    assert t.now + seconds >= d ==> StillDue(u.(now := t.now + seconds), revision, d);
  }

  // ----- the hosted path

  /** The updates made for a schedule that was hosted when it was read.  They name the row and at
      most its task, never its kind or revision: pausing or deleting it, saving a draft, noting a
      new task, and activating what was read once cron and task (`ours`) are found unchanged. */
  datatype Legacy = Stop(status: Status) | Draft(cron: string) | Attach | Resume(cron: string, ours: bool)

  predicate Startable(s: Schedule, cron: string, ours: bool) {
    s.status != Deleted && s.hasTask && ours && s.cron == cron
  }

  function LegacyAct(t: Table, a: Legacy): Table {
    if t.row.None? then t
    else
      var s := t.row.value;
      match a
      case Stop(status) => t.(row := Some(s.(status := status)))
      case Draft(cron) => t.(row := Some(s.(status := Paused, cron := cron)))
      case Attach => t.(row := Some(s.(hasTask := true)))
      case Resume(cron, ours) => if Startable(s, cron, ours) then t.(row := Some(s.(status := Active))) else t
  }

  /** What a user sees and confirms: all of the row but its revision and its next instant. */
  function Configuration(s: Schedule): Schedule {
    s.(revision := 0, nextRunAt := None)
  }

  /** No configuration of an internal schedule is replaced under its old revision. */
  ghost predicate Numbered(t: Table, u: Table) {
    t.row.Some? && t.row.value.internal ==>
      u.row.Some? && (Configuration(u.row.value) != Configuration(t.row.value) ==> RevisionOf(u) > RevisionOf(t))
  }

  /** The native transactions number every configuration. */
  lemma ActIsNumbered(t: Table, a: Action, next: (string, int) -> int)
    requires Inv(t)
    ensures Numbered(t, Act(t, a, next))
  {
  }

  /** The row has become internal since it was read, and the update turns it on or off. */
  predicate Toggles(t: Table, a: Legacy) {
    t.row.Some? && t.row.value.internal &&
    match a
    case Stop(_) => t.row.value.status == Active
    case Draft(_) => t.row.value.status == Active
    case Attach => false
    case Resume(cron, ours) => ours && t.row.value.hasTask && t.row.value.cron == cron && t.row.value.status == Paused
  }

  /** The row has become internal since it was read, and the update changes a field of it. */
  predicate Rewrites(t: Table, a: Legacy) {
    t.row.Some? && t.row.value.internal &&
    match a
    case Stop(status) => t.row.value.status != status
    case Draft(cron) => t.row.value.status != Paused || t.row.value.cron != cron
    case Attach => !t.row.value.hasTask
    case Resume(cron, ours) => ours && t.row.value.hasTask && t.row.value.cron == cron && t.row.value.status == Paused
  }

  /** A blind update keeps the invariant exactly when it turns no internal schedule on or off, and
      configurations numbered exactly when it changes no internal row at all. */
  lemma LegacyIsSafeIff(t: Table, a: Legacy)
    requires Inv(t) && (a.Stop? ==> a.status != Active)
    ensures Inv(LegacyAct(t, a)) <==> !Toggles(t, a)
    ensures Numbered(t, LegacyAct(t, a)) <==> !Rewrites(t, a)
  {
    assert LegacyAct(t, a).admitted == t.admitted;
  }

  /** After any such change of a published flow's schedule a save is accepted that still expects
      what it was before, unless the schedule is active. */
  lemma LegacyLoserIsAccepted(t: Table, a: Legacy, cron: string)
    requires Rewrites(t, a)
    ensures var u := LegacyAct(t, a);
            Save(u, cron, true, Some(RevisionOf(t)), Published).Ok? <==> u.row.value.status != Active
  {
  }

  /** The races exist.  A hosted row without a task is read and meanwhile replaced by an internal
      draft.  Deleting what was read takes the draft away under its revision; activating what was
      read makes it active without a next instant; pausing it after the draft has been activated
      leaves a next instant behind. */
  lemma LegacyRaces(next: (string, int) -> int, now: int)
    requires Forward(next)
    ensures var cron := "0 0 * * * *";
            var hosted := Table(Some(Schedule(false, Paused, 0, cron, None, false)), [], now);
            var draft := Run(hosted, [DoSave(cron, true, Some(0), Published)], next);
            var active := Run(draft, [DoAlter(Activate, Some(1), Published, true)], next);
            Inv(hosted) && Inv(draft) && Inv(active) &&
            !Numbered(draft, LegacyAct(draft, Stop(Deleted))) &&
            !Inv(LegacyAct(LegacyAct(draft, Attach), Resume(cron, true))) &&
            !Inv(LegacyAct(active, Stop(Paused)))
  {
    var cron := "0 0 * * * *";
    var hosted := Table(Some(Schedule(false, Paused, 0, cron, None, false)), [], now);
    var save, activate := DoSave(cron, true, Some(0), Published), DoAlter(Activate, Some(1), Published, true);
    RunKeepsInv(hosted, [save], next);
    assert [save][1..] == [] && Run(Act(hosted, save, next), [], next) == Run(hosted, [save], next);
    var draft := Act(hosted, save, next);
    RunKeepsInv(draft, [activate], next);
    assert [activate][1..] == [] && Run(Act(draft, activate, next), [], next) == Run(draft, [activate], next);
  }

  // ----- the row

  class ScheduleTable {
    var row: Option<Schedule>
    var admitted: seq<Bucket>
    var now: int

    function View(): Table
      reads this
    {
      Table(row, admitted, now)
    }

    method SaveNative(cron: string, valid: bool, expected: Option<nat>, flow: Flow) returns (refusal: Option<Refusal>)
      modifies this`row
      ensures match Save(old(View()), cron, valid, expected, flow)
              case Ok(u) => refusal.None? && View() == u
              case Err(e) => refusal == Some(e) && View() == old(View())
      ensures refusal.None? <==>
                && valid && flow.Published? && (old(row).None? ==> expected.None?)
                && (old(row).Some? ==>
                      && (expected == Some(old(row).value.revision) || (old(row).value.status == Deleted && expected.None?))
                      && old(row).value.status != Active
                      && (old(row).value.internal || old(row).value.status == Deleted || !old(row).value.hasTask))
      ensures refusal.None? && old(row).None? ==> row == Some(Schedule(true, Paused, 1, cron, None, false))
      ensures refusal.None? && old(row).Some? ==> row == Some(Schedule(true, Paused, old(row).value.revision + 1, cron, None, false))
      ensures refusal.Some? ==> row == old(row)
    {
      if !valid { return Some(BadCron); }
      if flow.MissingFlow? || flow.Archived? { return Some(NoFlow); }
      if !flow.Published? { return Some(Unpublished); }
      if row.Some? {
        var s := row.value;
        if s.status != Deleted || expected.Some? {
          if expected != Some(s.revision) { return Some(Conflict); }
        }
        if s.status == Active { return Some(StillActive); }
        if !s.internal && s.status != Deleted && s.hasTask { return Some(HostedTask); }
      } else if expected.Some? {
        return Some(Conflict);
      }
      var revision := (if row.Some? then row.value.revision else 0) + 1;
      row := Some(Schedule(true, Paused, revision, cron, None, false));
      refusal := None;
    }

    method ChangeNative(change: Change, expected: Option<nat>, flow: Flow, workerOn: bool, next: (string, int) -> int)
      returns (refusal: Option<Refusal>)
      modifies this`row
      ensures match Alter(old(View()), change, expected, flow, workerOn, next)
              case Ok(u) => refusal.None? && View() == u
              case Err(e) => refusal == Some(e) && View() == old(View())
      ensures refusal.None? <==>
                && old(row).Some? && old(row).value.internal && old(row).value.status != Deleted
                && expected == Some(old(row).value.revision)
                && (if change.Activate? then workerOn && flow.Published? && old(row).value.status != Active else !flow.MissingFlow?)
      ensures refusal.None? ==> row.Some? && Configuration(row.value).(status := Active) == Configuration(old(row).value).(status := Active)
      ensures refusal.None? ==> row.value.revision == old(row).value.revision + 1
      ensures refusal.None? && change.Activate? ==> row.value.status == Active && row.value.nextRunAt == Some(next(old(row).value.cron, now))
      ensures refusal.None? && change.Pause? ==> row.value.status == Paused && row.value.nextRunAt.None?
      ensures refusal.None? && change.Delete? ==> row.value.status == Deleted && row.value.nextRunAt.None?
      ensures refusal.Some? ==> row == old(row)
    {
      if change.Activate? && !workerOn { return Some(WorkerOff); }
      if flow.MissingFlow? || (flow.Archived? && !(change != Activate)) { return Some(NoFlow); }
      if row.None? || row.value.status == Deleted || !row.value.internal { return Some(Conflict); }
      if expected != Some(row.value.revision) { return Some(Conflict); }
      if change.Activate? && !flow.Published? { return Some(Unpublished); }
      if change.Activate? && row.value.status == Active { return Some(StillActive); }
      var status := if change.Activate? then Active else if change.Pause? then Paused else Deleted;
      var nextRunAt := if change.Activate? then Some(next(row.value.cron, now)) else None;
      row := Some(row.value.(status := status, revision := row.value.revision + 1, nextRunAt := nextRunAt));
      refusal := None;
    }

    /** `queueDueNativeDataflowsOnce` for one entry of its list: admit, skip, put off or give up.
        `transient` is a failure of the database, which rolls the admission back. */
    method QueueDue(revision: nat, dueAt: int, admissible: bool, sameOwner: bool, ownerActive: bool, transient: bool,
                    next: (string, int) -> int)
      returns (queued: bool)
      requires Inv(View()) && Forward(next)
      modifies this`row, this`admitted
      ensures queued <==> !transient && admissible && StillDue(old(View()), revision, dueAt) && sameOwner && ownerActive
      ensures queued ==> Admit(old(View()), revision, dueAt, true, true, true, next) == Ok(View())
      ensures !queued ==>
                View() == if transient || (admissible && (!StillDue(old(View()), revision, dueAt) || !sameOwner))
                          then old(View())
                          else GiveUp(old(View()), revision, dueAt, sameOwner)
      ensures queued ==>
                && old(row).Some? && old(row).value.internal && old(row).value.status == Active && old(row).value.revision == revision
                && old(row).value.nextRunAt == Some(dueAt) && dueAt <= now
                && row == Some(old(row).value.(nextRunAt := Some(next(old(row).value.cron, now))))
                && admitted == old(admitted) + [Bucket(revision, dueAt)]
      ensures !queued ==> admitted == old(admitted)
      ensures !queued && row != old(row) ==>
                && !transient && sameOwner && !(admissible && ownerActive)
                && old(row).Some? && old(row).value.status == Active && old(row).value.revision == revision
                && old(row).value.nextRunAt == Some(dueAt)
                && row == Some(old(row).value.(status := Paused, revision := revision + 1, nextRunAt := None))
      ensures Inv(View())
    {
      RevisionsGrowOnChange(View(), DoAdmit(revision, dueAt, admissible, sameOwner, ownerActive), next);
      ActKeepsInv(View(), DoAdmit(revision, dueAt, admissible, sameOwner, ownerActive), next);
      ActKeepsInv(View(), DoGiveUp(revision, dueAt, sameOwner), next);
      if transient { return false; }
      if admissible {
        if !StillDue(View(), revision, dueAt) || !sameOwner { return false; }
        if ownerActive {
          admitted := admitted + [Bucket(revision, dueAt)];
          row := Some(row.value.(nextRunAt := Some(next(row.value.cron, now))));
          return true;
        }
      }
      if row.Some? && row.value.status == Active && row.value.revision == revision && row.value.nextRunAt == Some(dueAt) && sameOwner {
        row := Some(row.value.(status := Paused, revision := row.value.revision + 1, nextRunAt := None));
      }
      queued := false;
    }
  }
}
