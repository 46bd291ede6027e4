/** How many entries a whole execution can take up, over all its branches. */
module ExecutionBounds {
  import opened Workflow
  import opened Topology
  import opened Compiler
  import opened CountedCycles
  import opened ParallelCheckpoint
  import opened Executions
  import opened RepeatedVisits
  import C = LoopCursor
  import L = ParallelLineage
  import R = LoopRun

  /** What can still be taken up from one entry with `m` units of progress ahead of it, when a fork
      has at most `k` branches: the entry, the release of the join it may stand at, and its
      successors. */
  function Visits(k: nat, m: int): nat
    decreases m
  {
    if m <= 0 then 0 else 2 + k * Visits(k, m - 1)
  }

  lemma {:induction false} VisitsGrow(k: nat, m: int, n: int)
    requires m <= n
    ensures Visits(k, m) <= Visits(k, n)
    decreases n
  {
    if m > 0 {
      VisitsGrow(k, m - 1, n - 1);
      Scaled(k, Visits(k, m - 1), Visits(k, n - 1));
    }
  }

  lemma Scaled(k: nat, a: nat, b: nat)
    requires a <= b
    ensures k * a <= k * b && (k > 0 ==> a <= k * a)
  {
    assert k * (b - a) >= 0;
    if k > 0 { assert (k - 1) * a >= 0; }
  }

  /** The units of progress an entry has ahead of it. */
  function Ahead(d: Definition, order: seq<Id>, m: nat, e: Entry): int {
    if e.node in order then m - Progress(d, order, TakenAs(e)) else 0
  }

  /** A released entry does not wait at a join any more. */
  function Weight(d: Definition, order: seq<Id>, m: nat, e: Entry): nat {
    var v := Visits(|d.edges|, Ahead(d, order, m, e));
    if e.releasedJoin.Some? && v > 0 then v - 1 else v
  }

  /** A parked entry has been taken up; its successors have not. */
  function ParkedWeight(d: Definition, order: seq<Id>, m: nat, e: Entry): nat {
    |d.edges| * Visits(|d.edges|, Ahead(d, order, m, e) - 1)
  }

  function QueueWeight(d: Definition, order: seq<Id>, m: nat, q: seq<Entry>): nat {
    if q == [] then 0 else Weight(d, order, m, q[0]) + QueueWeight(d, order, m, q[1..])
  }

  function WaitingWeight(d: Definition, order: seq<Id>, m: nat, w: seq<Entry>): nat {
    if w == [] then 0 else ParkedWeight(d, order, m, w[0]) + WaitingWeight(d, order, m, w[1..])
  }

  /** What has been taken up and what may still be.  No step raises it. */
  function Potential(d: Definition, order: seq<Id>, m: nat, x: Execution): nat {
    |x.taken| + QueueWeight(d, order, m, x.system.checkpoint.queue) + WaitingWeight(d, order, m, x.system.waiting)
  }

  lemma {:induction false} QueueWeightConcat(d: Definition, order: seq<Id>, m: nat, a: seq<Entry>, b: seq<Entry>)
    ensures QueueWeight(d, order, m, a + b) == QueueWeight(d, order, m, a) + QueueWeight(d, order, m, b)
  {
    if a == [] {
      assert a + b == b;
    } else {
      assert (a + b)[1..] == a[1..] + b;
      QueueWeightConcat(d, order, m, a[1..], b);
    }
  }

  lemma {:induction false} WaitingWeightConcat(d: Definition, order: seq<Id>, m: nat, a: seq<Entry>, b: seq<Entry>)
    ensures WaitingWeight(d, order, m, a + b) == WaitingWeight(d, order, m, a) + WaitingWeight(d, order, m, b)
  {
    if a == [] {
      assert a + b == b;
    } else {
      assert (a + b)[1..] == a[1..] + b;
      WaitingWeightConcat(d, order, m, a[1..], b);
    }
  }

  lemma WaitingWithout(d: Definition, order: seq<Id>, m: nat, w: seq<Entry>, k: nat)
    requires k < |w|
    ensures WaitingWeight(d, order, m, w) ==
            WaitingWeight(d, order, m, w[..k] + w[k + 1..]) + ParkedWeight(d, order, m, w[k])
  {
    assert w == w[..k] + ([w[k]] + w[k + 1..]);
    WaitingWeightConcat(d, order, m, w[..k], [w[k]] + w[k + 1..]);
    WaitingWeightConcat(d, order, m, w[..k], w[k + 1..]);
    assert ([w[k]] + w[k + 1..])[1..] == w[k + 1..];
  }

  lemma SingleWeight(d: Definition, order: seq<Id>, m: nat, e: Entry)
    ensures QueueWeight(d, order, m, [e]) == Weight(d, order, m, e)
    ensures WaitingWeight(d, order, m, [e]) == ParkedWeight(d, order, m, e)
  {
    assert [e][1..] == [];
  }

  // ----- one entry against its successors

  ghost predicate Later(d: Definition, order: seq<Id>, a: Entry, b: Entry) {
    a.node in order && b.node in order && Progress(d, order, TakenAs(a)) < Progress(d, order, TakenAs(b))
  }

  /** Taking an entry up pays for itself and for as many successors as there are edges. */
  lemma HeadPays(d: Definition, order: seq<Id>, m: nat, e: Entry)
    requires e.node in order && Progress(d, order, TakenAs(e)) < m
    ensures 1 + ParkedWeight(d, order, m, e) <= Weight(d, order, m, e)
  {
  }

  lemma SuccessorCosts(d: Definition, order: seq<Id>, m: nat, a: Entry, b: Entry)
    requires Later(d, order, a, b)
    ensures Weight(d, order, m, b) <= Visits(|d.edges|, Ahead(d, order, m, a) - 1)
  {
    VisitsGrow(|d.edges|, Ahead(d, order, m, b), Ahead(d, order, m, a) - 1);
  }

  lemma {:induction false} SuccessorsCost(d: Definition, order: seq<Id>, m: nat, a: Entry, entries: seq<Entry>)
    requires forall i :: 0 <= i < |entries| ==> Later(d, order, a, entries[i])
    ensures QueueWeight(d, order, m, entries) <= |entries| * Visits(|d.edges|, Ahead(d, order, m, a) - 1)
  {
    hide Weight, Later;
    if entries != [] {
      SuccessorCosts(d, order, m, a, entries[0]);
      SuccessorsCost(d, order, m, a, entries[1..]);
      var v := Visits(|d.edges|, Ahead(d, order, m, a) - 1);
      assert |entries| * v == v + (|entries| - 1) * v;
    }
  }

  lemma AllSuccessorsCost(d: Definition, order: seq<Id>, m: nat, a: Entry, entries: seq<Entry>)
    requires forall i :: 0 <= i < |entries| ==> Later(d, order, a, entries[i])
    requires |entries| <= |d.edges|
    ensures QueueWeight(d, order, m, entries) <= ParkedWeight(d, order, m, a)
  {
    hide Visits, Ahead, QueueWeight, Later;
    SuccessorsCost(d, order, m, a, entries);
    Scaled(Visits(|d.edges|, Ahead(d, order, m, a) - 1), |entries|, |d.edges|);
  }

  /** A released entry costs less than the arrival that released it. */
  lemma ReleasedCosts(d: Definition, order: seq<Id>, m: nat, e: Entry, released: Entry)
    requires e.node in order && Progress(d, order, TakenAs(e)) < m && e.releasedJoin.None?
    requires released.node == e.node && released.releasedJoin.Some?
    requires Progress(d, order, TakenAs(e)) <= Progress(d, order, TakenAs(released))
    ensures 1 + Weight(d, order, m, released) <= Weight(d, order, m, e)
  {
    VisitsGrow(|d.edges|, Ahead(d, order, m, released), Ahead(d, order, m, e));
  }

  // ----- each step

  ghost predicate InReach(d: Definition, order: seq<Id>, m: nat, x: Execution) {
    forall e :: e in x.system.checkpoint.queue ==> e.node in order && Progress(d, order, TakenAs(e)) < m
  }

  lemma QueueHeadWeight(d: Definition, order: seq<Id>, m: nat, x: Execution)
    requires x.system.checkpoint.queue != [] && InReach(d, order, m, x)
    ensures var q := x.system.checkpoint.queue;
            1 + ParkedWeight(d, order, m, q[0]) + QueueWeight(d, order, m, q[1..]) <= QueueWeight(d, order, m, q)
  {
    HeadPays(d, order, m, x.system.checkpoint.queue[0]);
  }

  lemma AdvancePays(d: Definition, copied: set<Id>, order: seq<Id>, loops: bool, m: nat, x: Execution, y: Execution, e: Entry)
    requires Layout(d, order) && R.CopiesForward(d.edges, copied, order) && Ordered(d, order, loops, x)
    requires InReach(d, order, m, x) && |d.edges| > 0 && Advance(d, copied, loops, x, y, e)
    ensures Potential(d, order, m, y) <= Potential(d, order, m, x)
  {
    hide Layout, R.CopiesForward, Follows, Copies, Progress, Ordered, QueueWeight, WaitingWeight, ParkedWeight, Weight;
    var q := x.system.checkpoint.queue;
    HeadIn(d, order, loops, x);
    if Follows(d, loops, q[0], e) {
      FollowsAhead(d, order, loops, q[0], e);
    } else {
      CopiesAhead(d, copied, order, loops, q[0], e);
    }
    QueueHeadWeight(d, order, m, x);
    QueueWeightConcat(d, order, m, q[1..], [e]);
    AllSuccessorsCost(d, order, m, q[0], [e]);
  }

  lemma HeadIn(d: Definition, order: seq<Id>, loops: bool, x: Execution)
    requires Ordered(d, order, loops, x) && x.system.checkpoint.queue != []
    ensures EntryIn(d, order, loops, x.system.checkpoint.queue[0])
  {
  }

  lemma ParkPays(d: Definition, order: seq<Id>, m: nat, x: Execution, y: Execution)
    requires InReach(d, order, m, x) && Park(x, y)
    ensures Potential(d, order, m, y) <= Potential(d, order, m, x)
  {
    hide InReach, QueueWeight, WaitingWeight, ParkedWeight;
    QueueHeadWeight(d, order, m, x);
    WaitingWeightConcat(d, order, m, x.system.waiting, [x.system.checkpoint.queue[0]]);
    SingleWeight(d, order, m, x.system.checkpoint.queue[0]);
  }

  lemma FinishPays(d: Definition, order: seq<Id>, m: nat, x: Execution, y: Execution)
    requires InReach(d, order, m, x) && Finish(x, y)
    ensures Potential(d, order, m, y) <= Potential(d, order, m, x)
  {
    hide InReach, QueueWeight, WaitingWeight, ParkedWeight;
    QueueHeadWeight(d, order, m, x);
  }

  lemma UnparkPays(d: Definition, order: seq<Id>, loops: bool, m: nat, x: Execution, y: Execution,
                   k: nat, next: Id, participants: Option<seq<int>>, cursor: Option<C.Raw>)
    requires Layout(d, order) && Ordered(d, order, loops, x) && |d.edges| > 0
    requires Unpark(d, loops, x, y, k, next, participants, cursor)
    ensures Potential(d, order, m, y) <= Potential(d, order, m, x)
  {
    hide Layout, Progress, Follows, QueueWeight, WaitingWeight, ParkedWeight, L.Conserved;
    var parked := x.system.waiting[k];
    var e := Entry(next, parked.tokens, participants, None, cursor);
    assert EntryIn(d, order, loops, parked);
    FollowsAhead(d, order, loops, parked, e);
    UnparkQueue(d, order, loops, x.system, y.system, k, next, participants, cursor);
    hide Ordered;
    WaitingWithout(d, order, m, x.system.waiting, k);
    QueueWeightConcat(d, order, m, x.system.checkpoint.queue, [e]);
    AllSuccessorsCost(d, order, m, parked, [e]);
  }

  lemma ForkPays(d: Definition, order: seq<Id>, loops: bool, m: nat, x: Execution, y: Execution,
                 id: Id, router: Id, join: Id, branches: seq<Id>, entries: seq<Entry>)
    requires Layout(d, order) && Ordered(d, order, loops, x) && InReach(d, order, m, x)
    requires Split(d, loops, x, y, id, router, join, branches, entries)
    ensures Potential(d, order, m, y) <= Potential(d, order, m, x)
  {
    hide Layout, Progress, Follows, QueueWeight, WaitingWeight, ParkedWeight, Ordered, ForkState, BranchEntry;
    var q := x.system.checkpoint.queue;
    HeadIn(d, order, loops, x);
    forall i | 0 <= i < |entries|
      ensures Later(d, order, q[0], entries[i])
    {
      FollowsAhead(d, order, loops, q[0], entries[i]);
    }
    QueueHeadWeight(d, order, m, x);
    QueueWeightConcat(d, order, m, q[1..], entries);
    AllSuccessorsCost(d, order, m, q[0], entries);
  }

  lemma ArrivePays(d: Definition, order: seq<Id>, loops: bool, m: nat, x: Execution, y: Execution, ready: bool)
    requires Ordered(d, order, loops, x) && InReach(d, order, m, x) && Arrive(x, y, ready)
    ensures Potential(d, order, m, y) <= Potential(d, order, m, x)
  {
    var s, s' := x.system.checkpoint, y.system.checkpoint;
    HeadIn(d, order, loops, x);
    L.ConservedFrames(x.system);
    ArriveFrames(d, loops, s, s', ready);
    hide Prepared, Ordered, Carried, R.Progress, QueueWeight, WaitingWeight, ParkedWeight, Weight;
    if ready {
      R.RaiseKeepsProgress(d.edges, order, s.queue[0].node, CursorOf(s.queue[0]), CursorOf(s'.queue[0]));
      ReleasedCosts(d, order, m, s.queue[0], s'.queue[0]);
      QueueWeightConcat(d, order, m, [s'.queue[0]], s.queue[1..]);
      QueueWeightConcat(d, order, m, [s.queue[0]], s.queue[1..]);
      assert s.queue == [s.queue[0]] + s.queue[1..];
      SingleWeight(d, order, m, s.queue[0]);
      SingleWeight(d, order, m, s'.queue[0]);
    } else {
      QueueHeadWeight(d, order, m, x);
    }
  }

  lemma NextPays(d: Definition, copied: set<Id>, order: seq<Id>, loops: bool, m: nat, x: Execution, y: Execution)
    requires Layout(d, order) && R.CopiesForward(d.edges, copied, order) && Ordered(d, order, loops, x)
    requires InReach(d, order, m, x) && |d.edges| > 0 && Next(d, copied, loops, x, y)
    ensures Potential(d, order, m, y) <= Potential(d, order, m, x)
  {
    hide Layout, R.CopiesForward, Ordered, InReach, Potential, Advance, Park, Unpark, Split, Arrive, Finish;
    if e :| Advance(d, copied, loops, x, y, e) {
      AdvancePays(d, copied, order, loops, m, x, y, e);
    } else if Park(x, y) {
      ParkPays(d, order, m, x, y);
    } else if k: nat, next, participants, cursor :| Unpark(d, loops, x, y, k, next, participants, cursor) {
      UnparkPays(d, order, loops, m, x, y, k, next, participants, cursor);
    } else if id, router, join, branches, entries :| Split(d, loops, x, y, id, router, join, branches, entries) {
      ForkPays(d, order, loops, m, x, y, id, router, join, branches, entries);
    } else if ready :| Arrive(x, y, ready) {
      ArrivePays(d, order, loops, m, x, y, ready);
    } else {
      FinishPays(d, order, m, x, y);
    }
  }

  // ----- whole executions

  /** The budget of all loops times the length of the order. */
  function Budget(d: Definition): int {
    (1 + R.TotalLimit(d.edges)) * |d.nodes|
  }

  lemma OrderedInReach(d: Definition, data: bool, order: seq<Id>, loops: bool, x: Execution)
    requires NodesOk(d.nodes) && EdgesOk(IdSet(d.nodes), data, d.edges) && Layout(d, order) && Ordered(d, order, loops, x)
    ensures Budget(d) >= 0 && InReach(d, order, Budget(d), x)
    ensures forall e :: e in x.system.checkpoint.queue ==> e.node in order && 0 <= Progress(d, order, TakenAs(e))
  {
    hide NodesOk, EdgesOk, Layout, R.Progress, L.Good, Carried, R.TotalLimit;
    OrderLength(d, order);
    LimitsAreNatural(d, data, |d.edges|);
    assert d.edges[0..] == d.edges;
    Scaled(|d.nodes|, 0, 1 + R.TotalLimit(d.edges));
    forall e | e in x.system.checkpoint.queue
      ensures e.node in order && 0 <= Progress(d, order, TakenAs(e)) < Budget(d)
    {
      EntryInReach(d, data, order, loops, e);
    }
  }

  lemma OrderLength(d: Definition, order: seq<Id>)
    requires NodesOk(d.nodes) && Layout(d, order)
    ensures |order| == |d.nodes|
  {
    R.OrderSize(order, d.nodes);
  }

  lemma EntryInReach(d: Definition, data: bool, order: seq<Id>, loops: bool, e: Entry)
    requires EdgesOk(IdSet(d.nodes), data, d.edges) && EntryIn(d, order, loops, e) && |order| == |d.nodes|
    ensures 0 <= Progress(d, order, TakenAs(e)) < Budget(d)
  {
    R.EmptyCursor(d.edges);
    hide EdgesOk, R.Progress;
    R.ProgressBounded(d, data, order, VisitOf(e));
  }

  lemma {:induction false} LimitsAreNatural(d: Definition, data: bool, n: nat)
    requires EdgesOk(IdSet(d.nodes), data, d.edges) && n <= |d.edges|
    ensures R.TotalLimit(d.edges[|d.edges| - n..]) >= 0
  {
    if n > 0 {
      LimitsAreNatural(d, data, n - 1);
      var k := |d.edges| - n;
      assert EdgeOk(IdSet(d.nodes), data, d.edges[k]);
      assert d.edges[k..][1..] == d.edges[k + 1..];
    }
  }

  lemma {:induction false} PotentialNeverGrows(
    d: Definition, data: bool, copied: set<Id>, order: seq<Id>, loops: bool, run: seq<Execution>, i: nat)
    requires NodesOk(d.nodes) && EdgesOk(IdSet(d.nodes), data, d.edges) && |d.edges| > 0
    requires Layout(d, order) && R.CopiesForward(d.edges, copied, order)
    requires IsExecution(d, copied, loops, run) && i < |run|
    ensures Budget(d) >= 0 && Potential(d, order, Budget(d), run[i]) <= Potential(d, order, Budget(d), run[0])
  {
    ExecutionOrdered(d, copied, order, loops, run, i);
    OrderedInReach(d, data, order, loops, run[i]);
    if i > 0 {
      PotentialNeverGrows(d, data, copied, order, loops, run, i - 1);
      ExecutionOrdered(d, copied, order, loops, run, i - 1);
      OrderedInReach(d, data, order, loops, run[i - 1]);
      hide NodesOk, EdgesOk, Layout, R.CopiesForward, Ordered, InReach, Potential, Next, Budget;
      NextPays(d, copied, order, loops, Budget(d), run[i - 1], run[i]);
    }
  }

  /** Over all branches together, an execution takes up at most as many entries as a full tree of the
      loops' budget has, with a branch per edge at every fork. */
  lemma VisitsAreBounded(d: Definition, data: bool, copied: set<Id>, loops: bool, run: seq<Execution>, i: nat)
    requires Accepted(d, data) && CyclesCounted(d, copied) && IsExecution(d, copied, loops, run) && i < |run|
    ensures |run[i].taken| <= Visits(|d.edges|, Budget(d))
  {
    var order := CountedLayout(d, data, copied);
    SomeEdge(d, data);
    PotentialNeverGrows(d, data, copied, order, loops, run, i);
    ExecutionOrdered(d, copied, order, loops, run, 0);
    OrderedInReach(d, data, order, loops, run[0]);
    StartPotential(d, order, loops, run[0]);
  }

  lemma SomeEdge(d: Definition, data: bool)
    requires Accepted(d, data)
    ensures NodesOk(d.nodes) && EdgesOk(IdSet(d.nodes), data, d.edges) && |d.edges| > 0
  {
    FilterMembers(d.nodes, StartNode());
    var s := Filter(d.nodes, StartNode())[0];
    assert s in Filter(d.nodes, StartNode());
    assert StartOk(d, s.id);
  }

  lemma StartPotential(d: Definition, order: seq<Id>, loops: bool, x: Execution)
    requires Begin(d, loops, x) && Budget(d) >= 0
    requires forall e :: e in x.system.checkpoint.queue ==> e.node in order && 0 <= Progress(d, order, TakenAs(e))
    ensures Potential(d, order, Budget(d), x) <= Visits(|d.edges|, Budget(d))
  {
    var e := x.system.checkpoint.queue[0];
    assert x.system.checkpoint.queue == [e];
    SingleWeight(d, order, Budget(d), e);
    VisitsGrow(|d.edges|, Ahead(d, order, Budget(d), e), Budget(d));
  }

  ghost predicate Bounded(d: Definition, copied: set<Id>, loops: bool, bound: nat) {
    forall run: seq<Execution>, i: int :: IsExecution(d, copied, loops, run) && 0 <= i < |run| ==> |run[i].taken| <= bound
  }

  /** Some number bounds the visits of every execution exactly when every cycle is counted. */
  lemma BoundedIff(d: Definition, data: bool, copied: set<Id>, loops: bool)
    requires Accepted(d, data) && (R.HasLoops(d.edges) ==> loops)
    ensures (exists bound :: Bounded(d, copied, loops, bound)) <==> CyclesCounted(d, copied)
  {
    if CyclesCounted(d, copied) {
      forall run: seq<Execution>, i: int | IsExecution(d, copied, loops, run) && 0 <= i < |run|
        ensures |run[i].taken| <= Visits(|d.edges|, Budget(d))
      {
        VisitsAreBounded(d, data, copied, loops, run, i);
      }
      assert Bounded(d, copied, loops, Visits(|d.edges|, Budget(d)));
    } else {
      LoopsWhereUncounted(d, data, copied);
      forall bound: nat
        ensures !Bounded(d, copied, loops, bound)
      {
        var run := UncountedRepeats(d, data, copied, bound);
      }
    }
  }
}
