# Verified model of the workflow and data flow engine

This project models the parts of the server that decide whether work is done once, completely and in
the right order, and proves what they promise: the workflow compiler, the run-time protocol for loops
and parallel branches, the durable data flow executor with its schedules and source tests, and the row
and text algorithms that the data flow nodes use. `dafny verify dfyconfig.toml` checks everything.

## How the modules fit together

- **Compiler.** `Workflow` holds the shared data, `Graphs` walks and reachability. `StronglyConnected`
  (Tarjan's algorithm on its own stack and maps), `PathChecks` (the all-paths check and the worklist
  search), `Topology` (the sorted-queue Kahn order) and `LoopChecks` are the graph algorithms;
  `Compiler` puts them together: acceptance is equivalent to a declarative definition, and the plan of
  an accepted definition is canonical. `Sorting` is the model of `.sort` on ids.
- **Run time.** `LoopCursor` and `LoopRun` carry the bounded loop counters; their main theorem needs
  the compiler's: with the cursors that these functions compute, an accepted definition has bounded
  runs and visit keys that never repeat.
  `ParallelBarrier`, `ParallelCheckpoint` and `ParallelLineage` are the fork/join protocol as a step
  system over frames, queue and parked entries. `Executions` runs both together: entries carry their
  cursors through forks, joins and automatic tasks, and `JoinCursors` says what the frames remember of
  them for their joins. `CountedCycles`, `RepeatedVisits` and `ExecutionBounds` say exactly when no visit
  of a whole execution is taken up twice and when its visits are bounded; `AutomaticLoop` is an accepted
  definition for which neither holds. `ParallelScope` is the isolation and merge of branch outputs,
  `HumanCheckpoint` the alignment of the two queues when a person decides.
- **Data flows.** `DataflowExecutor` takes each database transaction as one atomic step of a system
  with any number of workers that may stall, crash or come back with a stale token;
  `DataflowDatabase` holds the same transactions as updates of the rows, proved equal to the steps.
  `DataflowProgress` says what causes each status and that a run left alone succeeds; `DataflowPlan`
  joins compiler and executor in one end-to-end statement. `DataflowSchedule` and
  `SourceTest` are the admission of due schedules and the swept lease of source tests.
- **Rows and text.** `KeyValue`, `RowOperations`, `RowJoin` and `RowSort` against their quadratic
  definitions; `SqlBinding` against a grammar; `Pagination` against a definition without batches;
  `IamPermissions` against the recursive query.

Loops and in-place updates of the program are loops and classes here, each proved against a
specification function or predicate; expressions and guards are functions.

## Findings

- A run whose last attempt crashed is neither reclaimed nor failed: it stays leased and running until
  somebody cancels it (`AbandonedForever`); three crashes do it for the jobs that the service inserts, and
  n for a limit of n (`AbandonedIsReachable`; source tests are swept and do end,
  `TestIsFinalised`).
- A task that is executed automatically queues its successor with the cursor it runs with itself
  (workflow-engine.ts:3476-3483); all other successors get the advanced one. A declared loop edge out of
  such a task is therefore not counted, and its limit not enforced. Where a cycle crosses no counted edge,
  the run comes back to the same node, path and cursor: `executed` drops the entry, and after a resume,
  with `executed` empty, the visit is made again under the same durable key, round after round up to the
  cap of 10000 charged steps. `NothingIsSkippedIff` and
  `BoundedIff` have the exact condition, `AutomaticLoopRepeats` an accepted definition.
- A fork can lose a checkpoint that was valid. It accepts ids that no restore accepts: a frame, router or
  join id of white space, and the frame ids `__proto__`, `constructor` and `prototype`
  (workflow-parallel-checkpoint.ts:68-71, `ForkedFrameIsLost`). And it adds snapshots for the new frame
  alone when the older frames have none, as restoring allows (workflow-parallel-checkpoint.ts:139-141,
  `ForkWithoutScopesIsLost`). Without either the forked checkpoint is valid, and only then
  (`ForkKeepsValid`). The engine passes the UUID of the node run as the frame id (workflow-engine.ts:1764
  and 3943), and in runs that started without frames there are always snapshots (`RunKeepsValid`).
- A node other than a broadcasting router may have several edges for one outcome, and the compiler accepts
  it. All successors are then queued on one path, and the lineages that joins and repeated decisions rely
  on are conserved only with exactly one (`FanOutConservesIff`); the results on runs and executions are
  about steps with one successor.
- When all branches delete a key, its base value comes back at the join (`AgreedChangeWinsIff`).
- The hosted path saves, activates, pauses and deletes a schedule by its row id, some time after having
  read it. If the row has become internal since, such an update can switch an internal schedule without
  setting or clearing its next instant, and it changes what users see under an unchanged revision, so that
  a later save expecting that revision is accepted. `LegacyIsSafeIff` has the exact conditions,
  `LegacyLoserIsAccepted` and `LegacyRaces` the consequences.
- A repeated decision is told apart from a new one by the identity of the visit. Version 0 identities, and
  runs without parallel state, cannot tell two queued entries of one node apart
  (`RepeatedDecisionIgnoredIff`); in runs of the parallel protocol versions 1 and 2 always can
  (`RepeatedDecisionIsIgnored`).

## Model

| member | source | states |
|---|---|---|
| StronglyConnected.StronglyConnectedComponents | server/workflow-compiler.ts:206-250 | for every finite graph the result partitions the nodes, and two nodes share a component exactly when each reaches the other |
| StronglyConnected.Tarjan.Visit | server/workflow-compiler.ts:216-245 | one recursive call explores everything new that the node reaches, keeps the search invariant, leaves the stack below alone and returns a correct low link |
| StronglyConnected.Tarjan.ScanEdge | server/workflow-compiler.ts:222-235 | one edge of the scan: an unvisited target is visited, a target still on the stack lowers the low link to its index, a finished one changes nothing |
| StronglyConnected.Tarjan.Close | server/workflow-compiler.ts:236-245 | a node that is its own low link pops exactly one maximal strongly connected component; any other node leaves the stack as it is |
| StronglyConnected.Tarjan.PopTo | server/workflow-compiler.ts:237-243 | the pop loop removes the stack down to the root and returns precisely that segment |
| StronglyConnected.SegmentIsScc | server/workflow-compiler.ts:236-244 | the popped stack segment is mutually reachable and maximal |
| StronglyConnected.Finished | server/workflow-compiler.ts:246-249 | with every node visited and nothing on the stack, the emitted components are the mutual-reachability classes |
| PathChecks.AllPathsReachTarget | server/workflow-compiler.ts:252-275 | terminates, and is true exactly when no maximal plain path from the start escapes: none meets the blocked node, a dead end or a cycle before the target |
| PathChecks.GuaranteedReaches | server/workflow-compiler.ts:258-274 | every node of the growing set reaches the target along all its plain paths |
| PathChecks.OutsideEscapes | server/workflow-compiler.ts:258-274 | every node outside the finished set has an escaping path |
| PathChecks.Search | server/workflow-compiler.ts:1077-1084 | the worklist collects exactly what is reachable from its starts without entering the walls |
| Topology.BuildOutgoing | server/workflow-compiler.ts:1258-1269 | the adjacency map lists, for every node, exactly its edges in input order |
| Topology.TopologicalOrder | server/workflow-compiler.ts:1270-1297 | an order is returned exactly when the plain edges are acyclic, and it always takes the least ready node next |
| Topology.GreedyIsTopological | server/workflow-compiler.ts:1287-1297 | such an order lists every node once and sends every plain edge forward |
| Topology.GreedyIsLeast | server/workflow-compiler.ts:1285-1297 | no topological order is lexicographically smaller than the one emitted |
| Topology.GreedyUnique | server/workflow-compiler.ts:1282-1297 | the emitted order depends on the graph alone, not on the order of the input lists |
| Topology.AcyclicOrderComplete | server/workflow-compiler.ts:1353-1356 | the order misses no node exactly when it should be non-null: on acyclic graphs |
| LoopChecks.CheckLoops | server/workflow-compiler.ts:1095-1187 | no loop diagnostic exactly when every cycle crosses a bounded edge (self-loops apart) and every bounded edge lies on a cycle |
| LoopChecks.UndeclaredLoops | server/workflow-compiler.ts:1099-1116 | reports exactly the components of several nodes with no declared loop edge inside |
| LoopChecks.UnboundedLoops | server/workflow-compiler.ts:1119-1169 | one finding, in order, for each plain component of several nodes in a region that declares loops, naming its plain inner edge of least id; that edge is on a plain cycle |
| LoopChecks.LoopEdgesOffCycle | server/workflow-compiler.ts:1170-1187 | reports a declared loop edge exactly when it is on no cycle |
| LoopChecks.ComponentsDecideCycles | server/workflow-compiler.ts:1095-1187 | what the two component computations show is what holds of all walks of the graph |
| Compiler.Analyze | server/workflow-compiler.ts:277-1258 | the definition passes exactly when it meets the declarative rules: node and edge lists, cardinality, reachability, forks and joins, loops |
| Compiler.CheckNodes | server/workflow-compiler.ts:315-335 | clean exactly when node ids are present and distinct |
| Compiler.CheckEdges | server/workflow-compiler.ts:458-540 | clean exactly when edges are real, distinct by id and by route, and their loop limits are legal |
| Compiler.CheckCardinality | server/workflow-compiler.ts:410-450 | exactly one start, exactly one end (in a data flow at least one sink), and some terminal |
| Compiler.CheckEnds | server/workflow-compiler.ts:550-578 | the start has no way in and some way out, ends have no way out |
| Compiler.CheckReach | server/workflow-compiler.ts:683-725 | reports, in node order, exactly the nodes the start does not reach and then those that reach no terminal; none is left when every node is on a route |
| Compiler.CheckFork | server/workflow-compiler.ts:999-1093 | a broadcasting router has two branches, a join bound back to it with two inputs, all paths of all branches reach the join, and no loop edge crosses the region's border |
| Compiler.CheckBranches | server/workflow-compiler.ts:1060-1076 | reports exactly the branches of which some plain path misses the join, in edge order |
| Compiler.CheckRegion | server/workflow-compiler.ts:1077-1089 | reports exactly the loop edges with one end inside the parallel region and the other outside it, fork and join excepted |
| Compiler.Compile | server/workflow-compiler.ts:1258-1382 | a plan is returned exactly for accepted definitions; its order is the greedy one, its nodes and edges are the definition's sorted by id, and entry, terminals, groups, loops and both adjacency maps are described edge by edge |
| Compiler.PlanDescribed | server/workflow-compiler.ts:1298-1381 | in a compiled plan the entry is the start node, the terminals are exactly the terminal nodes in ascending order, outgoing and incoming list for each node exactly the plan's edges with that source or target, in id order and once each, loops are exactly the declared loop edges, and there is one group per broadcasting router with its join and exactly its branch edges |
| Compiler.EdgesAreDescribed | server/workflow-compiler.ts:1333-1352 | outgoing, incoming and loops hold exactly the edges they should, in id order |
| Compiler.GroupsAreDescribed | server/workflow-compiler.ts:1308-1332 | one parallel group per broadcasting router, in id order, with the router's join and its branch edge ids ascending |
| Compiler.PlanOrder | server/workflow-compiler.ts:1282-1356 | the order of an accepted definition is not null, lists each node once, points every plain edge forward and is lexicographically least |
| Compiler.PlanIgnoresInputOrder | server/workflow-compiler.ts:167-204 | permuting the node and edge arrays changes neither acceptance nor any part of the plan |
| Compiler.AcceptedPermutation | server/workflow-compiler.ts:277-1258 | acceptance is a property of the node and edge multisets |
| LoopCursor.Restore | server/workflow-loop-cursor.ts:12-40 | accepts exactly the valid cursors and returns their unique canonical form |
| LoopCursor.RestoreIdempotent | server/workflow-loop-cursor.ts:12-40 | a canonical cursor restores to itself |
| LoopCursor.RestoreForgetsOrder | server/workflow-loop-cursor.ts:37-39 | permuted traversals restore to the same cursor |
| LoopCursor.CanonicalUnique | server/workflow-loop-cursor.ts:37-39 | two canonical cursors with equal counts are equal |
| LoopCursor.Validate | server/workflow-loop-cursor.ts:47-69 | succeeds exactly when every traversal names a declared loop edge and stays within its limit |
| LoopCursor.Advance | server/workflow-loop-cursor.ts:71-89 | raises one count by one and no other, exactly while the limit allows; the input is not touched |
| LoopCursor.Merge | server/workflow-loop-cursor.ts:92-99 | the canonical cursor of the pointwise maximum |
| LoopCursor.MergeIsLeastUpperBound | server/workflow-loop-cursor.ts:92-99 | a merge bounds all its arguments and is below every other bound |
| LoopCursor.MergeRegroups | server/workflow-loop-cursor.ts:92-99 | merging merges of two groups, in either order, is merging everything at once: commutative and associative |
| LoopCursor.MergeIdempotent | server/workflow-loop-cursor.ts:92-99 | merging copies of one cursor gives that cursor |
| LoopCursor.MergeWithinLimits | server/workflow-loop-cursor.ts:92-99 | a merge of cursors within their edges' limits is within them |
| LoopRun.SuccessorCursors | server/workflow-loop-runtime.ts:36-44 | one cursor per successor, each advanced by exactly the selected loop edges, or an error when a limit is reached |
| LoopRun.FollowSelected | server/workflow-loop-runtime.ts:36-44 | following parallel edges to one successor merges what each of them advances |
| LoopRun.FollowedEdges | server/workflow-loop-runtime.ts:36-44 | the selected edges are those from the source to the successor with the chosen outcome; following them is possible if there is one and each declared loop among them is below its limit, and counts each of these once more |
| LoopRun.FollowRaisesProgress | server/workflow-loop-runtime.ts:36-44 | following the selected edges raises (loop traversals, position in the plan's order) lexicographically |
| LoopRun.FollowIsStep | server/workflow-loop-runtime.ts:36-44 | a step may keep the cursor it computed |
| LoopRun.StepRaisesProgress | server/workflow-loop-runtime.ts:36-44 | each step of an accepted definition, a join's merge included, raises (loop traversals, position in the plan's order) lexicographically |
| LoopRun.RunsAreBounded | server/workflow-loop-runtime.ts:36-44 | every run of an accepted definition by the cursor functions, through joins whose branches looped differently too, visits at most (1 + sum of maxIterations) times the number of nodes |
| LoopRun.VisitsNeverRepeat | server/workflow-loop-runtime.ts:22-29 | along a run, joins included, no pair of node and cursor occurs twice |
| LoopRun.LoopRuntime.ChargeVisitOnce | server/workflow-loop-runtime.ts:46-57 | a new visit costs one step up to the cap, a repeated one costs nothing |
| LoopRun.ChargedOncePerVisit | server/workflow-loop-runtime.ts:46-57 | however often interrupted attempts are repeated, a run is charged one step per visit |
| LoopRun.VisitKeysNeverCollide | server/workflow-wait-execution-key.ts:5-40 | version 2 keys of two visits along one path never collide at a node, whatever tokens they carry |
| LoopRun.BranchKeysCollideIff | server/workflow-wait-execution-key.ts:37-40 | version 1 keys of two visits collide if and only if node and token path agree |
| LoopRun.DurableKeysNeverCollide | server/workflow-wait-execution-key.ts:5-40 | along a path on which every successor gets the cursor that the cursor functions compute, keys of the version given to the run never collide |
| LoopRun.LoopFreeCursors | server/workflow-engine.ts:2110-2113 | along a run of a definition without loop edges every cursor is empty |
| CountedCycles.CountedLayout | server/workflow-engine.ts:3231-3246 | where every cycle crosses a loop edge that the engine counts, there is an order in which all edges that count nothing point forward: the copied ones of automatic tasks (3476-3483) and the plain ones |
| CountedCycles.NoLoopCopied | server/workflow-engine.ts:3476-3483 | acceptance is enough for that if no automatically executed task leaves through a declared loop |
| Executions.ExecutionOrdered | server/workflow-engine.ts:3246-3335 | then in every state of every execution what was taken up lies behind each live entry that continues its path, and nothing was taken up twice |
| Executions.NextKeepsOrdered | server/workflow-engine.ts:3246-3986 | advancing with the advanced or the copied cursor, parking, unparking, forking, arriving at a join and finishing all keep that order |
| Executions.DurableKeysAreUnique | server/workflow-engine.ts:3300-3325 | then two visits of one execution, in whatever branches, never share node and durable key, with the key version that the engine gives the run |
| Executions.TakeHead | server/workflow-engine.ts:3255-3335 | the head is new among the entries taken up, and no other live entry is on its path |
| RepeatedVisits.NothingIsSkippedIff | server/workflow-engine.ts:3261-3270 | over all executions of an accepted definition, whose steps other than forks have one successor, the check for entries already executed never fires if and only if every cycle crosses a loop edge that is counted |
| RepeatedVisits.UncountedRepeats | server/workflow-engine.ts:3476-3483 | otherwise an execution without forks comes to an entry it has taken up before, after any number of rounds if it is resumed in between |
| AutomaticLoop.AutomaticLoopRepeats | server/workflow-engine.ts:3476-3483 | a concrete accepted definition, with a return bounded by one iteration out of an automatically executed task, that goes round as often as it is resumed, under one node, path and cursor |
| AutomaticLoop.ExampleCountedIff | server/workflow-engine.ts:3476-3483 | with the way to the task a declared loop, too, the copied return does no harm: the condition is one on cycles, not on single edges |
| ExecutionBounds.VisitsAreBounded | server/workflow-engine.ts:3246-3986 | where every cycle is counted, an execution takes up no more entries, over all its branches, than a full tree of the loops' budget has |
| ExecutionBounds.BoundedIff | server/workflow-engine.ts:3246-3986 | some number bounds the visits of all executions if and only if every cycle is counted |
| JoinCursors.RecordKeepsOthers | server/workflow-parallel-join.ts:14-18 | recording an arriving cursor leaves what the frame holds for every other branch, and every other frame, as it was |
| JoinCursors.ArrivalsAreRecorded | server/workflow-parallel-join.ts:14-20 | in every state of every execution with loops of an accepted definition a frame holds for each arrived branch exactly the cursor that it arrived with, and for no other branch any |
| JoinCursors.JoinableIff | server/workflow-parallel-join.ts:7-39 | in such executions the head's join can be prepared if and only if it stands at the join of its innermost frame or has been released before: no cursor is ever missing or invalid |
| JoinCursors.ReleasedIsMergeOfArrivals | server/workflow-parallel-join.ts:31-40 | the cursor released at the last arrival is the merge of exactly the cursors with which the expected branches arrived, one each |
| JoinCursors.ExecutionInside | server/workflow-parallel-join.ts:7-39 | in every state of every execution, whatever its cycles, the lineages are conserved, and entries and frames carry valid cursors within the limits |
| LoopRun.MergeIsStep | server/workflow-parallel-join.ts:35-40 | the merge that a released join leaves on the continuing entry is a step of a run |
| Executions.ReleasedIsRaised | server/workflow-parallel-join.ts:35-40 | the entry a join releases carries a cursor above the arriving one and within the limits |
| ParallelBarrier.ArriveOnValid | server/workflow-parallel-barrier.ts:15-33 | arriving keeps validity and only unknown branches fail: the already-released error is dead |
| ParallelBarrier.ArrivalLaw | server/workflow-parallel-barrier.ts:15-33 | in any sequence of arrivals, a repeat is a duplicate that changes nothing, the first completing arrival releases, every other waits |
| ParallelBarrier.ReleasedExactlyOnce | server/workflow-parallel-barrier.ts:15-33 | the barrier is released exactly when all branches have arrived, by exactly one of the arrivals |
| ParallelBarrier.CoversByCount | server/workflow-parallel-barrier.ts:40-58 | distinct arrivals cover the expected branches exactly when there are as many |
| ParallelBarrier.RestorableIffReached | server/workflow-parallel-barrier.ts:40-58 | restoring accepts exactly the barriers that creation and known arrivals lead to, and returns them as they are |
| ParallelCheckpoint.Restore | server/workflow-parallel-checkpoint.ts:50-144 | accepts exactly the checkpoints that are valid for the execution queue, and returns their normal form |
| ParallelCheckpoint.RestoreIsStable | server/workflow-parallel-checkpoint.ts:50-144 | what restoring returns is valid and restores to itself |
| ParallelCheckpoint.RestoreKeepsMeaning | server/workflow-parallel-checkpoint.ts:50-144 | restoring keeps nodes, paths, participants, markers, barriers and snapshots, and the counts of every cursor, which it sorts |
| ParallelCheckpoint.Resume | server/workflow-parallel-checkpoint.ts:22-48 | appends one entry per successor, and succeeds exactly when the extended checkpoint is valid for the extended queue |
| ParallelCheckpoint.ResumeAccepts | server/workflow-parallel-checkpoint.ts:22-48 | the extension is valid exactly when every appended entry is |
| ParallelCheckpoint.ForkState | server/workflow-parallel-state.ts:12-31 | each branch gets the parent path extended by its own token of the new frame |
| ParallelCheckpoint.ForkPaths | server/workflow-parallel-state.ts:12-31 | old token paths stay valid and every branch path is valid in the forked state |
| ParallelCheckpoint.ForkKeepsFrames | server/workflow-parallel-state.ts:12-31 | a fork keeps the frames valid if and only if none of its three ids is blank and the frame's is not reserved |
| ParallelCheckpoint.ForkedFrameIsLost | server/workflow-parallel-state.ts:19-21 | two concrete frame ids, white space and the name constructor, that the fork accepts and no restore ever does |
| ParallelCheckpoint.ForkKeepsValid | server/workflow-engine.ts:3936-3968 | what a fork makes of a valid checkpoint, snapshots and new entries included, is restorable if and only if its ids are fine and no older frame lacks its snapshots |
| ParallelCheckpoint.ForkWithoutScopesIsLost | server/workflow-engine.ts:3951-3956 | a restorable checkpoint with a frame and without snapshots, of which no fork is restorable |
| ParallelCheckpoint.ForkedScopesOk | server/workflow-parallel-scope.ts:20-34 | the forked snapshots agree with the forked frames if and only if there were snapshots before, or no frames |
| ParallelCheckpoint.PrepareJoin | server/workflow-parallel-join.ts:7-47 | for any checkpoint: records the cursor, arrives at the barrier, and either drops the entry or leaves one merged entry at the parent path; errors exactly when not joinable, and on valid checkpoints only with five of the errors |
| ParallelCheckpoint.JoinKeepsValid | server/workflow-parallel-join.ts:7-47 | a join leaves a valid checkpoint for the shortened or unchanged queue |
| ParallelCheckpoint.ReleasedJoinIsStable | server/workflow-parallel-join.ts:10-12 | running a released join again returns the same checkpoint |
| ParallelLineage.JoinConserves | server/workflow-parallel-join.ts:7-47 | an arrival or a release keeps the balance between waiting branches and live lineages |
| ParallelLineage.ForkConserves | server/workflow-parallel-state.ts:12-31 | a fork replaces one lineage by exactly one per branch |
| ParallelLineage.NextKeepsGood | server/workflow-parallel-state.ts:12-50 | every step of the engine (advance, park, unpark, fork, join, finish) keeps: each unarrived branch of an unreleased frame has exactly one live lineage |
| ParallelLineage.RunConserves | server/workflow-parallel-state.ts:12-50 | the same over every run |
| ParallelLineage.RunKeepsValid | server/workflow-parallel-state.ts:12-50 | in every state of every run the checkpoint is one that restoring accepts for its own queue |
| ParallelLineage.FanOutConservesIff | server/workflow-parallel-state.ts:12-50 | a step outside a fork conserves the lineages if and only if it queues exactly one successor |
| ParallelLineage.NoDuplicateArrival | server/workflow-parallel-state.ts:33-50 | in a run no branch arrives at its barrier twice |
| ParallelLineage.OpenFrameHasLiveBranch | server/workflow-parallel-state.ts:33-50 | below every unreleased frame some branch is still queued or parked |
| ParallelLineage.LivePathsApart | server/workflow-parallel-state.ts:12-50 | no two queued or parked entries of a conserved state are on one path, nor one inside the other's |
| ParallelLineage.NothingLost | server/workflow-parallel-state.ts:33-50 | a run with nothing queued or parked has released all its frames and finished its root |
| ParallelScope.BranchesAreIsolated | server/workflow-parallel-scope.ts:35-57 | after any interleaving of turns, each branch's snapshot is the one it would have alone, and nothing fails |
| ParallelScope.MergeRecord | server/workflow-parallel-scope.ts:66-90 | the merged record holds, under every key: the base value if no branch changed it or none has it, the changers' common value, or the list of what each changer left, in branch order and null for a deletion |
| ParallelScope.MergedIsMerge | server/workflow-parallel-scope.ts:66-90 | that is what the program's collecting of changes, comparing and listing comes to, stated on the records alone |
| ParallelScope.ChangersAscend | server/workflow-parallel-scope.ts:73-79 | the changers that the merge looks at are all the branches, once each and in branch order, whose value under the key differs from the base |
| ParallelScope.UnchangedKeepsBase | server/workflow-parallel-scope.ts:73-78 | a key nobody changed keeps its base value |
| ParallelScope.AgreedChangeWinsIff | server/workflow-parallel-scope.ts:79-84 | when the changers agree their value wins, if and only if some branch still has the key; if all deleted it, the base value comes back |
| ParallelScope.ConflictsAreListed | server/workflow-parallel-scope.ts:79-84 | disagreeing changers are listed in branch order, a deletion as null |
| ParallelScope.ChangesMembers | server/workflow-parallel-scope.ts:73-79 | the changers' values are exactly the branch values that differ from the base |
| ParallelScope.ScopeStore.Fork | server/workflow-parallel-scope.ts:20-34 | every branch of the new frame starts from the context's outputs |
| ParallelScope.ScopeStore.Activate | server/workflow-parallel-scope.ts:35-45 | the context's outputs become the active branch's snapshot, or the missing snapshot is reported |
| ParallelScope.ScopeStore.Save | server/workflow-parallel-scope.ts:46-57 | only the active branch's snapshot is replaced |
| ParallelScope.ScopeStore.Merge | server/workflow-parallel-scope.ts:58-92 | both output records of the context become the three-way merge; the rest of the context stays |
| HumanCheckpoint.CompletionKeepsAlignment | server/workflow-human-checkpoint.ts:49-78 | a decision removes one entry from both queues or from neither, and the checkpoint stays restorable |
| HumanCheckpoint.CompletedIff | server/workflow-human-checkpoint.ts:49-78 | a decision is completed, taking its entry off both queues and clearing the current task, if and only if both heads are its node and its key is that of the head's visit |
| HumanCheckpoint.RepeatedDecisionIgnoredIff | server/workflow-human-checkpoint.ts:60-77 | a repeated decision completes a second entry if and only if the queue goes on with the same node under the same identity, for each identity version and without parallel state |
| HumanCheckpoint.RepeatedDecisionIsIgnored | server/workflow-human-checkpoint.ts:60-77 | in any run of the parallel protocol, with the identities that new runs are given, it completes nothing |
| HumanCheckpoint.RuntimeState.CompleteCurrent | server/workflow-human-checkpoint.ts:49-78 | the three runtime fields end up as the specification says, in every early return and on a thrown identity error |
| DataflowExecutor.SuccessIsOneEvaluation | server/p2-service.ts:1410-1810 | under any interleaving of claims, renewals, crashes, expiries, retries and cancellations, a successful run has for every node one artifact with the output of one uninterrupted evaluation |
| DataflowExecutor.SucceededNodesArePrefix | server/p2-service.ts:1438-1476 | in every reachable state the succeeded nodes are a prefix of the topological order, with one artifact each in that order |
| DataflowExecutor.ActKeepsInv | server/p2-service.ts:1381-2068 | every step keeps the executor's invariant |
| DataflowExecutor.OutcomeMoves | server/p2-service.ts:1410-2068 | a worker's action keeps the store right, changes rows only under the lease and leaves the worker consistent with the store |
| DataflowExecutor.LoadIsEvaluated | server/p2-service.ts:1381-1408 | the checkpoint read on resume is exactly the evaluated prefix |
| DataflowExecutor.FinishKeepsPrefix | server/p2-service.ts:1720-1795 | committing the next node extends the prefix by one correct artifact |
| DataflowExecutor.StatusesInLockStep | server/p2-service.ts:1882-1949 | job and run statuses move in lock step, attempts never exceed the limit, and the repair branch of a claim and the conflict branch of a cancellation are unreachable |
| DataflowExecutor.EndedIsFinal | server/p2-service.ts:1992-2056 | terminal job and run states are absorbing, with their artifacts |
| DataflowExecutor.LeaseIsExclusive | server/p2-service.ts:1882-1889 | no claim succeeds while any lease is good, nor at the second it expires, when no commit does either |
| DataflowExecutor.RetryBacksOff | server/p2-service.ts:2025-2026 | the retry delay starts at a second, doubles per attempt and is a minute from the seventh on |
| DataflowExecutor.SupersededForever | server/p2-service.ts:1933-1949 | a lease token that was superseded never becomes valid again |
| DataflowExecutor.ReclaimableExactly | server/p2-service.ts:1882-1889 | waiting makes a job claimable if and only if it is open and has attempts left |
| DataflowExecutor.AbandonedForever | server/p2-service.ts:1885-1886 | a job whose last attempt crashed stays leased and running for ever unless cancelled |
| DataflowExecutor.AbandonedIsReachable | server/p2-service.ts:1882-1886 | that state is reached from every admitted job, whatever its attempt limit (the source inserts 3, line 2206), by waiting, claims and crashes alone |
| DataflowExecutor.OneCrash | server/p2-service.ts:1882-1949 | a claim whose worker crashes costs one attempt and leaves the job to be claimed again after its lease |
| DataflowProgress.OpenRunSucceeds | server/p2-service.ts:1381-2014 | from every open state that keeps the invariant, however it came about, an explicit list of actions, one attempt of one worker left alone under a sound plan (wait, claim, load, the nodes that are left, completion), ends with run success, job completed and an artifact per node |
| DataflowProgress.UndisturbedRunSucceeds | server/p2-service.ts:1381-2014 | in particular every admitted run gets there at its first attempt, its artifacts the outputs of one evaluation |
| DataflowProgress.WaitingOpens | server/p2-service.ts:1882-1889 | every open job with attempts left can be claimed after waiting |
| DataflowProgress.OnlyGivingUpFails | server/p2-service.ts:2018-2062 | under a sound plan no list of actions without a worker giving up its job ever leads to a failed run or job |
| DataflowProgress.StatusCauses | server/p2-service.ts:1882-2062 | each status has its one cause: success the lease holder's report after the last node, failure a holder that gives up on its last attempt or a plan that fails its hash check, the queue one that gives up earlier, cancellation a cancellation, running a claim |
| DataflowProgress.GivingUpDelays | server/p2-service.ts:2018-2062 | a holder that gives up before its last attempt leaves the job queued, without a lease, for its delay of one second to a minute |
| DataflowProgress.RenewalExtends | server/p2-service.ts:1970-1980 | a renewal by the token's owner keeps its lease good, and every claim out, for less than a whole lease time from then on |
| DataflowDatabase.RunTables.ClaimJob | server/p2-service.ts:1873-1967 | the claim transaction's new rows and result, in every branch |
| DataflowDatabase.RunTables.Renew | server/p2-service.ts:1970-1980 | only the owner's lease of a leased job is extended |
| DataflowDatabase.RunTables.StartNode | server/p2-service.ts:1456-1483 | the node row is started or restarted under the fence, or nothing changes |
| DataflowDatabase.RunTables.FinishNode | server/p2-service.ts:1718-1801 | artifact and node row are committed together under the fence, or rolled back together |
| DataflowDatabase.RunTables.FailNode | server/p2-service.ts:1811-1838 | only the owner's running row is failed |
| DataflowDatabase.RunTables.CompleteJob | server/p2-service.ts:1992-2014 | job and run complete together or neither does |
| DataflowDatabase.RunTables.FailJob | server/p2-service.ts:2018-2062 | requeue with back-off while attempts remain, else fail; both rows together |
| DataflowDatabase.RunTables.RunDefinition | server/p2-service.ts:1438-1810 | the node loop, from whatever prefix crashed attempts left, ends with the outputs of one evaluation |
| DataflowDatabase.NextNodeCommits | server/p2-service.ts:1456-1801 | start and finish of the next node under a valid lease both commit and extend the prefix |
| DataflowDatabase.RunTables.AssertLease | server/dataflow-job-lease.ts:11-28 | cancelled and lost leases are told apart; a lease expiring now is lost |
| DataflowExecutor.StaleWorkerCommitsNothing | server/dataflow-job-lease.ts:11-28 | a worker whose token is superseded or whose lease has expired changes nothing with any commit |
| DataflowDatabase.RunTables.CancelRun | server/dataflow-run-control.ts:146-183 | job, run and running node rows are cancelled together; ended runs are left alone |
| DataflowExecutor.CancelKeepsStore | server/dataflow-run-control.ts:146-183 | a cancellation keeps the executor's invariant and never meets a status mismatch |
| DataflowPlan.ParentsComeFirst | server/p2-service.ts:1428-1438 | in the plan of an accepted data flow a node's parents come before it |
| DataflowPlan.ParentsAreIncoming | server/p2-service.ts:1421-1434 | a node's parents are exactly the sources of the edges that the plan lists as coming in |
| DataflowPlan.EveryInputIsFinal | server/p2-service.ts:1447-1449 | at its turn a node gets one input per incoming edge, each the final output of its source: the filter for missing inputs never drops one |
| DataflowPlan.SuccessfulRunIsConsistent | server/p2-service.ts:1410-2014 | end to end: after a successful run of a compiled flow there is one artifact per node, computed from its parents' artifacts |
| SourceTest.TestIsFinalised | server/p2-service.ts:589-749 | a source test is found due by at most attempts-left + 1 claims, and is finalised for good after the last of them, whatever workers do |
| SourceTest.OpenTestBecomesDue | server/p2-service.ts:606-607 | waiting makes a test due if and only if it has not ended |
| SourceTest.VerifiedMeansSucceeded | server/p2-service.ts:684-708 | the source is verified only by a success that is final |
| SourceTest.StatusCauses | server/p2-service.ts:589-749 | each status has its causes: success and the verified source the owner's success, failure the owner's lasting failure or the sweep after the last attempt, the queue a transient failure before that, a lease a claim |
| SourceTest.UndisturbedTestSucceeds | server/p2-service.ts:589-708 | an admitted test that one worker claims and passes is final and verifies its source at the first attempt |
| SourceTest.TestTable.ClaimTest | server/p2-service.ts:589-658 | sweep, selection and lease: the new row, and when a token is handed out |
| SourceTest.TestTable.FinishTest | server/p2-service.ts:694-740 | a result is accepted from the current token only |
| DataflowSchedule.ActKeepsInv | server/dataflow-schedule.ts:134-295 | every step keeps: an internal schedule is active exactly when its next instant is set, admission buckets are distinct and lie before it |
| DataflowSchedule.RunKeepsInv | server/dataflow-schedule.ts:134-295 | the same over every run; revisions never go back |
| DataflowSchedule.RevisionsGrowOnChange | server/dataflow-schedule.ts:149-233 | every committed change takes the next revision, admissions keep it, and the unique bucket key is never violated |
| DataflowSchedule.LosersAreRefused | server/dataflow-schedule.ts:94-97 | once a change is committed against a revision, every later one expecting it is refused, whatever happened in between |
| DataflowSchedule.AdmissionsAreCoalesced | server/dataflow-schedule.ts:285-294 | after an admission nothing is due until the calendar's next instant after now |
| DataflowSchedule.ScheduleTable.SaveNative | server/dataflow-schedule.ts:134-189 | the exact condition under which a draft is saved, the row it becomes, and that a refusal changes nothing |
| DataflowSchedule.ScheduleTable.ChangeNative | server/dataflow-schedule.ts:191-247 | the exact condition; activation sets the next instant, pause and deletion clear it, each sets its own status under the next revision; a refusal changes nothing |
| DataflowSchedule.ScheduleTable.QueueDue | server/p2-service.ts:2235-2284 | an entry is admitted exactly when still due under the same owner, skipped when superseded, put off on a transient failure, and paused when it failed for good |
| DataflowSchedule.LegacyIsSafeIff | server/p2-service.ts:2604-2763 | a blind update of the hosted path (draft, new task, activation, pause, deletion) keeps the invariant if and only if it turns no internal schedule on or off, and configurations numbered if and only if it changes no internal row |
| DataflowSchedule.LegacyLoserIsAccepted | server/p2-service.ts:2604-2763 | after such a change a save that expects the revision from before it is accepted exactly unless the schedule is active |
| DataflowSchedule.LegacyRaces | server/p2-service.ts:2643-2763 | interleavings in which a deletion, an activation and a pause of what was read as hosted break one or the other |
| DataflowSchedule.ActIsNumbered | server/dataflow-schedule.ts:134-247 | no native transaction replaces a configuration under its old revision |
| SqlBinding.Prepare | server/dataflow-sql-binding.ts:1-98 | the scanner terminates and returns the specified result; a bindable text is accepted exactly if its first word is select, it has no semicolon, no word that writes, no into and no locking phrase, and then the trimmed text with placeholders and the values are returned |
| SqlBinding.VerdictIff | server/dataflow-sql-binding.ts:89-97 | which of the two errors, or none: stated over maximal runs of name characters, which no literal, comment or parameter is part of, with nothing but blanks, literals and comments inside a phrase |
| SqlBinding.TrimIsExact | server/dataflow-sql-binding.ts:97-97 | trimming takes all white space off both ends and nothing else |
| SqlBinding.ScanToken | server/dataflow-sql-binding.ts:9-87 | one turn of the loop takes exactly the next token and appends what it stands for |
| SqlBinding.ScanQuoted | server/dataflow-sql-binding.ts:11-28 | the inner loop finds the end of the literal, escapes and doubled quotes included, or none |
| SqlBinding.CloseIsLiteralEnd | server/dataflow-sql-binding.ts:14-27 | that end is exactly the end of a literal of the grammar taken at full length |
| SqlBinding.BindIff | server/dataflow-sql-binding.ts:9-87 | scanning succeeds if and only if the text has a tokenisation without bare placeholders whose parameters are all given as scalars, and returns it |
| SqlBinding.TokensUnique | server/dataflow-sql-binding.ts:9-87 | a text has at most one tokenisation |
| SqlBinding.MarkedLexes | server/dataflow-sql-binding.ts:75-79 | replacing parameters by placeholders leaves every quoted or commented region where the scanner finds it again |
| SqlBinding.OriginalRestored | server/dataflow-sql-binding.ts:75-79 | putting the names back for the placeholders restores the statement |
| SqlBinding.SentLexes | server/dataflow-sql-binding.ts:75-97 | the trimmed statement has a tokenisation with the tokens of the checked one, placeholders standing for names |
| SqlBinding.SentRescans | server/dataflow-sql-binding.ts:75-97 | every rescan of the trimmed statement finds exactly the checked tokens, comments included, but for blanks at both ends and at the end of a last comment; and one placeholder per value |
| SqlBinding.MarkedCode | server/dataflow-sql-binding.ts:64-79 | the code that the read-only check saw is that of the text with placeholders; each parameter contributes its value at its place |
| SqlBinding.DropLastSpace | server/dataflow-sql-binding.ts:97-97 | cutting a trailing space off a text shortens its last comment or drops a blank, and nothing else |
| Pagination.CollectAuthorizedPage | server/workbench-pagination.ts:48-100 | the batched, limited scan returns the page that a definition without batches describes |
| Pagination.PagesShowEverything | server/workbench-pagination.ts:90-99 | following the cursors shows every authorised row after the first cursor once, in order, for any page size and scan limit |
| Pagination.PagesShowEachRowOnce | server/workbench-pagination.ts:90-99 | from the start: exactly the authorised rows, none twice |
| Pagination.NextIsLater | server/workbench-pagination.ts:92-98 | each next cursor is strictly later, fewer rows remain, and the page is exactly what lies between |
| KeyValue.CanonicalIffSame | server/dataflow-key-value.ts:1-10 | normal forms are equal if and only if the values are equal up to object key order, at every depth |
| RowOperations.RowKeyIffSame | server/dataflow-row-operations.ts:6-9 | row keys are equal if and only if the rows are the same up to key order |
| RowOperations.KeepFirsts | server/dataflow-row-operations.ts:6-33 | the filter keeps exactly the rows at which a key occurs first, and stops at the first row without a key |
| RowOperations.DistinctRows | server/dataflow-row-operations.ts:6-14 | distinct keeps exactly the rows with no earlier row that is the same |
| RowOperations.DistinctIsPairwise | server/dataflow-row-operations.ts:6-14 | comparing keys finds what comparing all pairs of rows would find |
| RowOperations.DeduplicateRows | server/dataflow-row-operations.ts:16-33 | deduplicate keeps exactly the rows with no earlier row that is the same in the business fields, or names the first row and field missing |
| RowOperations.DeduplicateIsPairwise | server/dataflow-row-operations.ts:16-33 | comparing business keys finds what comparing all pairs of rows in those fields would find |
| RowOperations.FirstsRepresentEveryKey | server/dataflow-row-operations.ts:6-33 | every row is represented by a kept row that is not later, and kept keys are distinct |
| RowOperations.BusinessKeyIffSame | server/dataflow-row-operations.ts:23-28 | business keys are equal if and only if all their fields are |
| RowOperations.GroupRows | server/dataflow-row-operations.ts:40-49 | every bucket holds exactly the rows of its key, in order; groups come in first-occurrence order |
| RowOperations.AggregateGroups | server/dataflow-row-operations.ts:35-49 | grouping by fields; no fields make one group, also of no rows |
| RowOperations.CountsAreConserved | server/dataflow-row-operations.ts:40-59 | what is counted per group adds up to the count over all rows |
| RowJoin.JoinRows | server/dataflow-join-rows.ts:7-68 | the result is the whole join in order or an error; never truncated |
| RowJoin.NestedLoopIsJoined | server/dataflow-join-rows.ts:31-67 | the join by keys is the join that compares every pair of rows column by column |
| RowJoin.Probe | server/dataflow-join-rows.ts:45-67 | the index probe equals the nested loop, and fails exactly when it has more rows than the limit |
| RowJoin.BucketsBy | server/dataflow-join-rows.ts:37-44 | the index holds, under every key, exactly the right rows with it, in order |
| RowJoin.NameColumns | server/dataflow-join-rows.ts:18-30 | columns are named one to one and off the left ones, or the join fails exactly when that is impossible |
| RowJoin.NothingOverwritten | server/dataflow-join-rows.ts:46-59 | each output row has every left column unchanged, every right column under its name with the match's value, or null where there is none, and nothing else |
| RowJoin.MatchesIffKeysEqual | server/dataflow-join-rows.ts:31-36 | keys are equal if and only if all key columns are present, not null and the same |
| RowSort.CompareIsTotalPreorder | server/dataflow-sort-rows.ts:29-38 | the comparator is antisymmetric, total and transitive for any fields and directions |
| RowSort.CompareKeys | server/dataflow-sort-rows.ts:29-38 | the loop returns the comparator's value for the rows' keys |
| RowSort.StableOrderUnique | server/dataflow-sort-rows.ts:25-44 | there is only one stable ordered arrangement of the rows |
| RowSort.SortRows | server/dataflow-sort-rows.ts:22-45 | every row once; where two rows first differ the earlier has the lower cell (absent, number, text, flag, list, record, then by value), or the higher one if that field descends; rows with the same cells stay in input order; or the first row with an unsupported cell and its first such field |
| RowSort.CompareIsInOrder | server/dataflow-sort-rows.ts:29-38 | the comparator on the precomputed keys says the same as the order on cells, and ties exactly the rows with the same cells |
| RowSort.DirectionsKeepTies | server/dataflow-sort-rows.ts:36-38 | with all directions reversed two rows with different keys swap places in the result, and tied rows stay in input order |
| IamPermissions.CollectUnits | server/iam-locked-permissions.ts:23-44 | the level-by-level walk collects exactly the units of the recursive table of depth 32 |
| IamPermissions.ReadPermissions | server/iam-locked-permissions.ts:6-85 | the locked reader grants exactly the permissions of the recursive query |
| IamPermissions.WithinIsTable | server/iam-service.ts:202-212 | a unit is within n levels if and only if the recursive table cut at depth n lists it |
| IamPermissions.RolesAgree | server/iam-service.ts:213-237 | direct, own-unit and inherited roles are the same on both sides |

## Left out

- Identifiers are integer ranks in code-unit order (not positive: blank after trimming; zero: empty), so
  untrimmed ids and the locale's order used by `normalizedDefinition` are not modelled, nor ids that
  JavaScript objects treat specially (integer-like keys that are enumerated first); of the frame ids that
  restoring refuses by name each is a rank of its own.
- Hashes are taken as injective, and JSON texts are compared as the values they denote.
- Node configuration rules, viewport, positions, state and milestone codes, router and model handles and
  service tasks of the compiler: these checks look at single nodes and only add reasons for rejection.
  The check of a route's uniqueness compares the triple itself, not the joined string.
- Compiler.Analyze: leaves out the rules on single nodes and on which node types an edge may connect, and
  stops after the node and edge lists have failed; the program goes on and may add more diagnostics, which
  changes the list but not whether it is empty.
- Compiler.CheckNodes: covers ids; names, types, positions and configurations are not modelled.
- Compiler.CheckEdges: leaves out which node types may be connected.
- Compiler.CheckFork: leaves out the option that refuses parallel routers in synchronous subflows.
- Compiler.Compile: settings and service tasks of the plan are not modelled.
- Compiler.PlanIgnoresInputOrder: the order of ids is strict; `localeCompare` can tie two different ids (a
  composed and a decomposed accent), which then keep their input order in the plan.
- PathChecks.Search: takes the worklist from the front, the program from the back; the set is the same.
- LoopRun.RunsAreBounded: speaks of one path of visits; how many paths fan out at a fork is not counted.
- Executions.DurableKeysAreUnique: as for runs of the parallel protocol, each step other than a fork has one
  successor. An entry that a crash makes the engine execute again counts as the one visit it is.
- RepeatedVisits.NothingIsSkippedIff: which edges automatic tasks leave along is a parameter, since their
  conditions are templates over the run's data. Which of the steps a node takes is not tied to its type, so
  the execution in `UncountedRepeats`, which has no forks, is one of the program if no broadcasting router
  lies on it, as in `AutomaticLoop`.
- RepeatedVisits.UncountedRepeats: an entry met again is taken up again, as after a resume; within one segment
  the program drops it. The cap on charged steps is modelled with `LoopRun.ChargedOncePerVisit` only.
- LoopRun.DurableKeysNeverCollide: copied cursors are not steps of its runs; `Executions` has them.
- ParallelLineage.RunConserves: takes as steps what the exported functions do, each step other than a
  fork having one successor, and forks and joins of one frame matching; that accepted graphs always nest
  them properly is not claimed. Of the engine's main loop only what it queues and takes up is modelled.
- ParallelScope.BranchesAreIsolated: a run without scopes, where nothing happens, is not represented;
  copies by JSON are values, so aliasing between snapshots cannot be expressed.
- DataflowExecutor.SuccessIsOneEvaluation: node computations are deterministic functions of inputs and
  earlier outputs; lineage edges, metrics, schemas and byte counts of artifacts are not modelled. Tokens
  are taken to be fresh. Time only has to move forward.
- DataflowDatabase.RunTables.RunDefinition: the returned terminal outputs and the list of executed nodes are
  not modelled, and a computation that fails is the separate transaction `FailNode`.
- DataflowExecutor.AbandonedForever: that every data flow run eventually ends is false of the code, so
  eventual finalisation is proved for source tests only.
- Recovering participants and role keys of human tasks (`restoreHumanCreationRuntime`), activating a
  visit in the runtime and restoring a parent run's visits: copies of fields without a protocol.
- Authorisation, sessions and resource checks around cancelling, admitting and saving are inputs of the
  transactions; deadlock retries and transport errors are not modelled.
- DataflowSchedule.RunKeepsInv: cron expressions are opaque and their calendar only has to move forward;
  the hosted scheduler appears only through its updates of the row.
- SourceTest.TestIsFinalised: the probe, the classification of its errors and the configuration hash are
  the two inputs `success` and `transient`.
- SqlBinding.Prepare: characters are Unicode scalars rather than UTF-16 units; parameter values are kinds.
- Pagination.CollectAuthorizedPage: the table and the permissions are fixed while pages are read, and
  cursors are ranks; encoding cursors as text is not modelled. Limits are at least 1.
- KeyValue.CanonicalIffSame: keys are strictly ordered. Two different keys of one object that
  `localeCompare` ties (a composed and a decomposed accent) keep their input order in the program, so equal
  objects that list them differently get different normal forms there. Values are JSON values; what
  `undefined`, dates or non-finite numbers become in a serialised key is not modelled.
- RowOperations.AggregateGroups: sums, averages, minima and maxima over floating point are left out;
  counts are covered by the conservation of counts.
- RowSort.SortRows: the library's stable sort is an insertion; texts, lists and records are ranks.
- Reading and checking the row operators' configuration values, and all of HTTP, connectors, encryption,
  language models, organisation and role administration, which would only add easy members.
