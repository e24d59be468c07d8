# MiniFleet, verified

A model in Dafny of the control plane of MiniFleet, a fleet of workers that build software from a written
intent, and of the token-bucket limiter of its `linksvc` example, with proofs of what they promise.

* **Task graph** (`TaskGraph`, `CycleFinder`, `Layering`, `Batches`, `CriticalPath`, `FleetMetrics`,
  `DepthLabels`, `Agreement`). Four independent algorithms run on one graph: a colouring search for cycles,
  layering into waves, a memoised longest path, and depth labels for the report. Each is proved correct, and
  all four are proved to describe the same graph.
* **Design** (`Architect`, `CycleBreaking`, `RepairExample`, `DesignReview`, `DesignMeaning`). Repair removes edges and the review
  refuses what is still cyclic. When breaking the reported cycles is enough is a theorem about the input.
* **Scheduler** (`FleetModel`, `Scheduler`, `IngestMeaning`, `Blame`, `VerifyMeaning`, `IntegrateMeaning`,
  `DispatchMeaning`, `FleetSafety`, `PlanKeeping`, `MergeOrder`, `FleetRepair`, `FleetBudget`, `RunHistory`,
  `Autopilot`, `AutopilotLoop`, `StopCauses`, `Progress`). `FleetModel` says what each operation makes of a run as a
  value; the class `Scheduler` performs it in place and is proved to do just that; the `Meaning` modules and `Blame`
  say what that is with the fields of the record alone; the other modules prove what every step keeps, what holds
  over whole runs, exactly when merges go out of order, why the autopilot stops, that it gets its work done, and
  when a passed verdict does not mean that it has.
* **Admission** (`Scopes`, `Ownership`, `Intent`, `Gates`, `GateRows`, `Ledger`, `LedgerMeaning`, `Acceptance`,
  `Worktree`, `Compile`, `CompileMeaning`, `Admission`). Checks made before a run, and what they are worth during
  it: disjoint scopes at planning time exclude conflicts at merge time, a passed run has met its budgets and proven
  its criteria.
* **Limiter** (`TokenBucket`, `LimiterRuns`). A rate bound over arbitrary call sequences and clocks, the exact
  set of tracked keys, and the exactness of the reported wait.

`Text`, `Filters`, `Options`, `Dictionary`, `Numerals` and `Model` hold shared vocabulary: ordered strings,
what a filter keeps, insertion-ordered dictionaries, decimal numerals, and the records that pass between the parts.

The outside world enters as parameters: what git answers (`GitWorld`), what gates observe (`Observation`), what
workers hand in (`Submission`), clock readings, pattern matching (`Glob`) and path functions (`Library`).
`dafny verify dfyconfig.toml` checks the project.

## Where code and documentation differ

The model follows the code.

* `ARCHITECTURE.md` says dependency cycles are fixed mechanically. Repair breaks only the cycles that the search
  reports, and may leave another one (`RepairExample.RepairCanLeaveACycle`); the review that follows then
  refuses the plan. `CycleBreaking.RepairBreaksCyclesApart` names inputs on which repair is enough, and
  `CycleBreaking.AnyRuleIsEnoughIff` when it is enough whichever member of a cycle gives way.
* `ARCHITECTURE.md` says every criterion is reachable from a gate. Repair sees to that in memory, but `plan` has
  stored the intent before: a criterion that names no gate is reported as unproven after every pass
  (`Acceptance.StoredCriterionProvenIff`). Only `evolve` stores the repaired form.
* `README.md` says repair is not yet closed-loop. The autopilot of `minifleet/cli.py` closes the loop, and is what
  `Autopilot` and `AutopilotLoop` model.
* `ingest` does not check that the task was dispatched. The autopilot and the `run` command call it only then; the
  `ingest` command takes any task. `MergeOrder.IngestStaysInOrderIff` says exactly which calls are harmless, and
  `MergeOrder.PendingIngestBreaksOrder` shows one that is not.
* Filling an empty scope makes a task ready whatever it depends on, and the invented path is not compared with
  validated scopes: `Admission.PlanStaysInOrderIff` and `Admission.PlannedDisjointIff` say exactly when that does
  no harm, `Admission.ScopelessExample` and `Admission.FilledScopeCanOverlap` show harm.
* The wait the limiter reports is honoured exactly for a burst of at least one token
  (`LimiterRuns.WaitHonouredIff`); the constructor accepts any positive burst.

## Model

| member | source | states |
|---|---|---|
| `CycleFinder.FindCyclesExact` | minifleet/architect.py:196-217 | every reported list is a simple cycle of dependency edges, and nothing is reported exactly when the graph has no cycle, unknown ids and self-loops included |
| `CycleFinder.FindAllCycles` | minifleet/architect.py:196-217 | the colouring search with its shared colours, stack and report refines the search function, for any insertion order |
| `CycleFinder.Finder.VisitNode` | minifleet/architect.py:202-212 | one recursive visit in place, terminating on every graph; its effect on colours, stack and report |
| `CycleFinder.VisitSound` | minifleet/architect.py:202-212 | a visit keeps the stack a path of grey nodes and reports only real cycles |
| `CycleFinder.VisitSettles` | minifleet/architect.py:202-212 | a visit finishes its node and settles every edge that leaves it: the target is finished, or the edge closed a reported cycle |
| `CycleFinder.VisitCertified` | minifleet/architect.py:202-212 | the finished nodes can always be ranked above their dependencies, but for the edges that closed a reported cycle |
| `CycleFinder.EveryCycleHoldsClosing` | minifleet/architect.py:196-217 | completeness: not every cycle is reported, but every cycle of the graph runs through an edge that closed a reported one |
| `TaskGraph.RankedHasNoCycle` | minifleet/architect.py:196-217 | a numbering that descends along every dependency rules out cycles |
| `TaskGraph.NoSinkHasCycle` | minifleet/architect.py:220-237 | a non-empty set of tasks in which each depends on another of the set holds a cycle |
| `Layering.LayeringExistsIff` | minifleet/architect.py:220-237 | a graph can be layered exactly when every dependency is declared and there is no cycle |
| `Layering.WaveIsLongestChain` | minifleet/architect.py:223-237 | the wave of a task is the length of its longest dependency chain |
| `Layering.WalksAreShort` | minifleet/architect.py:223-237 | no walk from a task of the first k waves is longer than k |
| `Layering.StuckMeansCycle` | minifleet/architect.py:226-232 | on a graph without dangling dependencies, an empty wave before the end proves a cycle |
| `Layering.LayersUnique` | minifleet/architect.py:223-237 | the number of waves is determined by the graph |
| `Batches.PlanExact` | minifleet/architect.py:220-237 | waves are returned exactly for acyclic graphs with declared dependencies; the i-th list is the i-th wave, sorted and without repetition; the error names exactly the tasks no wave can take |
| `Batches.TopologicalBatches` | minifleet/architect.py:220-237 | the loop that shrinks the remaining tasks and grows the done set computes that plan |
| `Batches.CollectWave` | minifleet/architect.py:226-226 | filtering what remains yields the next wave |
| `CriticalPath.PathMemo.Longest` | minifleet/fleetmetrics.py:34-47 | the recursion over a shared memo keeps every stored value the weight of a real chain that repeats no task and, without cycles, the largest one, whatever was evaluated before |
| `CriticalPath.NewAttained` | minifleet/fleetmetrics.py:41-46 | a freshly computed value is attained by a chain within the evaluated tasks |
| `CriticalPath.NewDominates` | minifleet/fleetmetrics.py:41-46 | without cycles no chain from the task weighs more than the value |
| `FleetMetrics.CriticalPathSeconds` | minifleet/fleetmetrics.py:13-51 | the result before rounding is the weight of a real dependency chain and, without cycles, the maximum over all chains; in terms of the time stamps: at least the time each task took, nothing when none took time, within the run when tasks waited for their dependencies, the whole run when they form one chain without gaps |
| `FleetMetrics.NoScheduleIsFaster` | minifleet/fleetmetrics.py:24-51 | no schedule that starts each task after its dependencies finish completes before the critical path |
| `FleetMetrics.SomeScheduleIsAsFast` | minifleet/fleetmetrics.py:24-51 | without cycles some schedule completes exactly at the critical path |
| `FleetMetrics.UnitCriticalPathIsWaveCount` | minifleet/fleetmetrics.py:34-49 | with one time unit per task the critical path is the number of layers |
| `DepthLabels.DepthMemo.Compute` | minifleet/report.py:268-276 | on an accepted graph the memoised depth is one less than the longest chain; an undeclared id is the only failure |
| `DepthLabels.LabelDepths` | minifleet/report.py:278-279 | labelling all tasks puts each on the level of its wave |
| `DepthLabels.DepthIsWave` | minifleet/report.py:266-279 | every stored depth is the index of the wave of its task |
| `Agreement.SearchAndLayeringAgree` | minifleet/architect.py:196-237 | layering succeeds exactly when the cycle search reports nothing and no dependency dangles |
| `Agreement.WaveHoldsChainLength` | minifleet/architect.py:223-237 | the i-th list holds exactly the tasks whose longest chain has i + 1 members |
| `Agreement.WavesPartition` | minifleet/architect.py:223-237 | every task is in exactly one wave |
| `Agreement.LabelIsBatch` | minifleet/report.py:274-282 | the level drawn for a task is the position of its wave in the plan |
| `Agreement.UnitTimeIsWaveCount` | minifleet/fleetmetrics.py:48-51 | critical path with unit durations equals the number of waves of the plan |
| `Model.Find` | minifleet/model.py:265-270 | looking a task up by id finds the first task that carries it |
| `Model.BuildDependencyDict` | minifleet/architect.py:197-197 | the dictionary the graph algorithms start from |
| `Model.GraphKeys` | minifleet/architect.py:197-197 | its keys are the ids of the tasks, and every entry is the dependency list of a task with that id |
| `Model.LastRecordWins` | minifleet/architect.py:197-197 | of several records with one id the last one is the entry |
| `Architect.RepairAt` | minifleet/architect.py:128-155 | what repair does to one task: scope filled, edges on reported cycles dropped for the victim only, unknown dependencies dropped, all else kept |
| `Architect.RepairedEdge` | minifleet/architect.py:138-155 | an edge survives repair exactly when it was there, leads to a task, and was not dropped for a reported cycle |
| `DesignMeaning.RepairKeeps` | minifleet/architect.py:138-156 | dependencies that stay keep their order and multiplicity: those that name a task, unless a reported cycle of which the task is the smallest member holds them |
| `DesignMeaning.VictimIsSmallest` | minifleet/architect.py:138-147 | the member of a cycle that gives way is the one with the smallest id |
| `Architect.RepairOnlyRemovesEdges` | minifleet/architect.py:138-155 | repair never adds a dependency |
| `Architect.RepairBreaksReportedCycles` | minifleet/architect.py:138-147 | no cycle that was reported survives repair |
| `Architect.CycleSurvivesIff` | minifleet/architect.py:138-147 | a cycle of the given tasks survives repair exactly when no reported cycle cuts it |
| `CycleBreaking.RepairBreaksCyclesApart` | minifleet/architect.py:138-147 | where no edge lies on two different simple cycles, repair alone leaves no cycle |
| `CycleBreaking.RepairBreaksMatched` | minifleet/architect.py:138-147 | more generally, repair leaves no cycle when every simple cycle has the members of a reported one |
| `CycleBreaking.AnyRuleIsEnoughIff` | minifleet/architect.py:138-147 | that condition is exact across rules: breaking the reported cycles is enough whichever member gives way exactly when every simple cycle has the members of a reported one |
| `CycleBreaking.RepairIsSmallestRule` | minifleet/architect.py:141-144 | the repair of the source leaves exactly the cycles of the rule that the smallest id gives way |
| `Architect.RepairCloses` | minifleet/architect.py:149-155 | after repair every dependency is a task |
| `RepairExample.DiamondReport` | minifleet/architect.py:196-217 | on v to a to u to v with a second way v to b to u, the search reports one of the two cycles |
| `RepairExample.DiamondStaysCyclic` | minifleet/architect.py:138-147 | repair then leaves the other cycle, for any four ids of which a is smallest on the first cycle |
| `RepairExample.RepairCanLeaveACycle` | minifleet/architect.py:138-147 | a concrete plan that repair alone leaves cyclic |
| `DesignReview.Repair` | minifleet/architect.py:104-155 | the four repair passes in place compute the repaired plan, probe gates included |
| `DesignReview.RepairCoversCriteria` | minifleet/architect.py:107-126 | after repair every criterion names a gate: a probe the plan declares where the intent named none, and known references stay known |
| `DesignReview.ReviewScopes` | minifleet/architect.py:167-172 | a problem is reported exactly when two tasks with different ids claim the same path |
| `DesignReview.ReviewReferences` | minifleet/architect.py:174-187 | a problem is reported exactly when a task or a criterion names a gate or contract the plan lacks |
| `DesignReview.Check` | minifleet/architect.py:158-193 | the review passes exactly acyclic plans with unshared paths, known references and at least one gate |
| `DesignReview.Design` | minifleet/architect.py:37-63 | repair followed by review: an accepted plan is the repaired draft, acyclic, closed under dependencies, and can always be layered |
| `DesignMeaning.PlanStandsFor` | minifleet/architect.py:72-88 | each component becomes the task that stands for it, field by field, with an invented path and made ready at once when it claims no files; it depends on the tasks of the components it named, in their order, as far as these exist and no reported cycle makes it give them up |
| `DesignMeaning.PlanHasGates` | minifleet/architect.py:107-126 | the plan has the gates of the intent and then one required file probe for each criterion that named none, in order; contracts stay, and such a criterion names its probe |
| `DesignReview.PlanRun` | minifleet/cli.py:133-135 | a stored criterion is the one of the accepted plan exactly when it named a gate: what design probes is stored without its probe |
| `DesignReview.EvolveRun` | minifleet/cli.py:305-331 | after an accepted design every stored criterion names gates and the plan declares them; a refused design stores nothing |
| `TokenBucket.NewLimiter` | examples/linksvc/linksvc/ratelimit.py:26-44 | construction succeeds exactly for positive rate, burst and key limit, and starts empty |
| `TokenBucket.Limiter.Allow` | examples/linksvc/linksvc/ratelimit.py:47-68 | decision, wait and new buckets of one request, the key limit kept |
| `TokenBucket.Limiter.Store` | examples/linksvc/linksvc/ratelimit.py:94-100 | storing a bucket moves its key to the end and evicts from the front |
| `TokenBucket.EvictOldest` | examples/linksvc/linksvc/ratelimit.py:99-100 | the eviction loop keeps exactly the last entries |
| `TokenBucket.RememberOk` | examples/linksvc/linksvc/ratelimit.py:94-100 | the stored key is always kept, no other kept bucket changes, and the key limit holds |
| `TokenBucket.AfterAllowOk` | examples/linksvc/linksvc/ratelimit.py:54-68 | a request charges its own key at most one token, stamps it with the clock, and touches no other bucket it keeps |
| `TokenBucket.Limiter.RetryAfter` | examples/linksvc/linksvc/ratelimit.py:70-80 | without changing anything: zero exactly for an unknown key or one that holds a token, and otherwise the time in which the rate refills exactly what is missing |
| `TokenBucket.Limiter.TrackedKeys` | examples/linksvc/linksvc/ratelimit.py:82-84 | the number of tracked keys, never above the limit |
| `TokenBucket.Limiter.Reset` | examples/linksvc/linksvc/ratelimit.py:86-91 | exactly the named key, or every key, is forgotten; each other bucket stays as it was |
| `LimiterRuns.RateBound` | examples/linksvc/linksvc/ratelimit.py:54-68 | for any calls, clock readings and starting state: grants to a key are at most the tokens in hand, plus one burst for each time the bucket was lost, plus rate times the positive clock increments between its requests |
| `LimiterRuns.MonotoneRateBound` | examples/linksvc/linksvc/ratelimit.py:54-68 | on a clock that never runs backwards a key that is never lost gets at most burst plus rate times elapsed time |
| `LimiterRuns.CreditBound` | examples/linksvc/linksvc/ratelimit.py:54-68 | refills and fresh buckets of a run add at most that allowance |
| `LimiterRuns.TrackedAreMostRecent` | examples/linksvc/linksvc/ratelimit.py:94-100 | without resets the tracked keys are the most recently requested distinct keys, in order of last request |
| `LimiterRuns.TrackedIff` | examples/linksvc/linksvc/ratelimit.py:94-100 | a key is tracked exactly while fewer than max_keys other keys were requested since its own last request |
| `LimiterRuns.GrantedIffReady` | examples/linksvc/linksvc/ratelimit.py:54-65 | a tracked key is granted exactly from the time its bucket holds a whole token |
| `LimiterRuns.RefusalKeepsReadyAt` | examples/linksvc/linksvc/ratelimit.py:67-68 | a refused request does not move that time and reports the distance to it |
| `LimiterRuns.PollingChangesNothing` | examples/linksvc/linksvc/ratelimit.py:54-68 | however often a key polls before its time, nothing is granted and the time does not move |
| `LimiterRuns.ReportedWaitIsExact` | examples/linksvc/linksvc/ratelimit.py:54-68 | after a refusal at t with wait w, and any polling, a request is granted exactly from t + w on |
| `LimiterRuns.WaitHonouredIff` | examples/linksvc/linksvc/ratelimit.py:63-68 | the wait is honoured exactly when burst is at least one token; below that no request of any run is granted |
| `LimiterRuns.ForecastIsExact` | examples/linksvc/linksvc/ratelimit.py:70-80 | retry_after predicts allow exactly for tracked keys or a burst of at least one token |
| `Scopes.IsWithin` | minifleet/scheduler.py:471-481 | the loop over scope patterns decides whether some pattern admits the path |
| `Scopes.AdmitsIff` | minifleet/scheduler.py:471-481 | a wildcard-free pattern admits exactly itself and the paths below it |
| `Scopes.OverlapIff` | minifleet/model.py:359-374 | two wildcard-free scopes overlap exactly when some path is admitted by both |
| `Scopes.AdmittedPathOverlaps` | minifleet/model.py:359-374 | whatever patterns match, a path that a pattern admits overlaps it when claimed as a scope |
| `Scopes.WildcardOverlapMissed` | minifleet/model.py:369-374 | with wildcards the overlap test misses a pair that shares a file |
| `Ownership.OwnershipConflicts` | minifleet/worktree.py:218-229 | each contested path is reported under exactly the pairs, smaller name first, of the first branch that touches it and another that does; nothing is reported exactly when the branches are pairwise disjoint |
| `Intent.ValidateScopes` | minifleet/intent.py:131-140 | a problem is reported exactly when scopes of two components overlap, although the loop remembers only one owner for each path |
| `Intent.ValidateReferences` | minifleet/intent.py:118-129 | a problem is reported exactly when a component names an unknown component, criterion or gate |
| `Intent.CountingIds` | minifleet/intent.py:115-117 | counting distinct ids detects exactly the repeated ids |
| `Intent.ValidateComponents` | minifleet/intent.py:115-140 | no problem exactly when ids are unique, every reference is known and scopes are disjoint |
| `Gates.GateRunner.RunGate` | minifleet/gates.py:123-148 | a budget without a measurement is an error, and otherwise passes exactly when the value meets it, operator by operator; a gate of unknown kind is an error; only a command changes the store, to what it published on top of what was there |
| `Gates.GateRunner.RunAll` | minifleet/scheduler.py:359-359 | running gates in order, each seeing the store its predecessors left |
| `GateRows.PassRows` | minifleet/gates.py:123-267 | a pass gives one row for each gate, in order, and each tells what its gate reports given what was published before it |
| `GateRows.StoreIsKnown` | minifleet/gates.py:69-75 | at any point of a pass the store holds the latest published value of each metric, and what it held before for the others |
| `Gates.StoreSettles` | minifleet/scheduler.py:355-358 | once the first budget is reached the store no longer changes |
| `Gates.JudgePassesIff` | minifleet/gates.py:276-290 | the verdict is a pass exactly when the last evidence of every required gate passed |
| `VerifyMeaning.JudgeMeans` | minifleet/gates.py:276-290 | the verdict over any rows: exactly the required gates without a row are missing, otherwise exactly those whose last row did not pass fail it, with that status, otherwise it passes |
| `Gates.LatestOfConcat` | minifleet/gates.py:279-279 | later evidence replaces earlier evidence of the same gate and keeps the rest |
| `Gates.PassMeansBudgetsMet` | minifleet/scheduler.py:355-364 | a pass means every required budget was measured and the value left in the store meets it, operator by operator, in whatever order gates are listed, if only the ids of the budgets differ |
| `Ledger.Traceability` | minifleet/ledger.py:64-103 | the rows rest on the last evidence of each gate |
| `LedgerMeaning.RowTells` | minifleet/ledger.py:64-103 | for any log: who claims the criterion, for each of its gates the status of the latest row or that there is none, and the standing: unproven, verified, failed, incomplete |
| `Ledger.ProvenIff` | minifleet/ledger.py:84-92 | a criterion is verified exactly when it names a gate and the last evidence of all its gates passed |
| `Ledger.PassProvesCriteria` | minifleet/ledger.py:67-92 | a passing pass proves every criterion that rests on required gates, whatever failed earlier in the log |
| `Acceptance.PassedRunMeetsBudgets` | minifleet/scheduler.py:352-364 | if verify reports a pass, every required system budget holds of the final store, in the relation its operator names, which is one of the five; if only the ids of the budgets differ |
| `Acceptance.DeclaredIdsSuffice` | minifleet/intent.py:72-74 | distinct declared gate ids, which validation demands, give that, although repair adds gates whose ids may repeat them |
| `Acceptance.PassedRunMeetsDeclaredBudgets` | minifleet/scheduler.py:352-364 | the same in a run of a designed plan with validated gate ids |
| `Acceptance.ProbeCanRepeatId` | minifleet/architect.py:110-118 | a concrete plan with distinct declared ids in which a probe repeats the id of a budget |
| `Acceptance.PassedRunProvesCriteria` | minifleet/scheduler.py:352-364 | if verify reports a pass, traceability over the whole log shows each criterion on required system gates as verified |
| `Acceptance.StoredCriterionProvenIff` | minifleet/report.py:53-55 | after a pass a criterion on required system gates is reported verified exactly when its stored form names a gate, that is when the intent did or the intent was stored after design; otherwise it is reported unproven |
| `Acceptance.ProbeIsRequired` | minifleet/architect.py:110-122 | the probe given to a criterion without a gate is a required system gate of the plan |
| `Acceptance.RepeatedBudgetHides` | minifleet/gates.py:279-279 | with two budgets of one id a missed one can hide behind a met one, which is why budget ids must differ |
| `Scheduler.Scheduler.Refresh` | minifleet/scheduler.py:73-87 | in place: exactly the pending tasks with merged dependencies become ready |
| `Scheduler.Scheduler.PreparePackets` | minifleet/scheduler.py:97-130 | refresh, then a branch and a sandbox for every ready task |
| `Scheduler.Scheduler.Dispatch` | minifleet/scheduler.py:132-159 | refused when the budget is spent; otherwise the first ready tasks are handed out and counted |
| `DispatchMeaning.DispatchMeans` | minifleet/scheduler.py:97-164 | nothing happens once the count has reached the budget; otherwise tasks are refreshed, every ready one gets branch and sandbox, and the first ready ones in the order of the design, all or as many as the limit, are handed out, named and counted |
| `DispatchMeaning.RunCountsHandedOut` | minifleet/scheduler.py:139-164 | over any run the count is the number of tasks that turned to dispatched |
| `DispatchMeaning.BudgetCapsRun` | minifleet/scheduler.py:137-151 | a run that always dispatches under a budget exceeds it by less than one wave of all tasks |
| `Scheduler.Scheduler.Ingest` | minifleet/scheduler.py:182-214 | in place what IngestMeaning tells: one attempt spent; work outside the scope fails, otherwise the task gates decide; an unknown id changes nothing |
| `IngestMeaning.IngestMeans` | minifleet/scheduler.py:192-214 | one row for each gate of the design that is scoped to tasks and named by the task, in order; verified exactly when every file is admitted by some pattern of the scope and every row passed, an error or a skip being no pass; the files recorded are those submitted; out of scope nothing is run or recorded |
| `IngestMeaning.IngestTouchesOne` | minifleet/scheduler.py:188-212 | ingest counts one attempt and changes no other task, no part of the plan, and nothing of the run but evidence and measurements |
| `Scheduler.Scheduler.GiveUp` | minifleet/cli.py:520-524 | the first task of that id is failed with its attempts unchanged, and every other task stays as it was |
| `Scheduler.Scheduler.CollectBranches` | minifleet/scheduler.py:318-321 | the verified branches with their changed files |
| `Scheduler.Scheduler.HasConflicts` | minifleet/scheduler.py:318-322 | integration sees a conflict exactly when two verified branches changed one file |
| `Scheduler.Scheduler.MergeVerified` | minifleet/scheduler.py:329-340 | checkout, layering and merging under one handler: what is merged when any of them fails |
| `Scheduler.Scheduler.MergeWaves` | minifleet/scheduler.py:332-340 | the nested merge loops equal one walk along the plan, and stop at the first merge that fails |
| `Scheduler.Scheduler.Integrate` | minifleet/scheduler.py:310-349 | conflict, error midway and success, each with the whole new state |
| `IntegrateMeaning.IntegrateMeans` | minifleet/scheduler.py:310-349 | two branches of verified work that share a file: only status and verdict change; no checkout, or a cyclic plan: the same with an error; otherwise verified tasks are merged and logged along an order that has every dependency first, up to the first merge that fails, which leaves an error, or all of them, and dependents are refreshed |
| `Scheduler.Scheduler.ImplicateComponent` | minifleet/scheduler.py:435-452 | one target of a failing gate: reopened, escalated or unattributed |
| `Scheduler.Scheduler.AttributeFailures` | minifleet/scheduler.py:400-465 | the nested loops over evidence and targets, then a refresh |
| `Scheduler.Scheduler.Verify` | minifleet/scheduler.py:352-392 | budgets last, verdict, attribution of a failure, the verdict marked as attributed |
| `VerifyMeaning.VerifyRuns` | minifleet/scheduler.py:357-360 | verify runs every system gate, measuring ones first and budgets after, each kind in the order of the design, and keeps all rows and measurements |
| `VerifyMeaning.VerifyMeans` | minifleet/scheduler.py:361-376 | the run passes, its tasks unchanged, exactly when no required system gate ended red; otherwise the verdict names those that did, exactly the tasks they blame are reopened or given up, dependents refreshed, and the verdict counts as attributed |
| `Scheduler.Scheduler.CollectFailing` | minifleet/scheduler.py:284-297 | the latest failing row of each gate, unless the verdict was attributed already |
| `Scheduler.Scheduler.ReopenFailed` | minifleet/scheduler.py:263-279 | in place: exactly the failed tasks are reopened, or escalated when their attempts are used up |
| `Scheduler.Scheduler.RepairFailed` | minifleet/scheduler.py:252-307 | failed tasks reopened or escalated, then attribution, then refresh; the three reports it returns |
| `VerifyMeaning.RepairMeans` | minifleet/scheduler.py:263-302 | repair reopens, or gives up when attempts are used up, exactly the failed tasks and those blamed by the last row of a gate in the whole log while the verdict is unanswered; it changes nothing else of the run |
| `VerifyMeaning.RepairReports` | minifleet/scheduler.py:303-307 | its reports name exactly these tasks, by attempts left |
| `VerifyMeaning.RepairReportsOrphans` | minifleet/scheduler.py:307-307 | and exactly the rows it asked about that blame nobody |
| `RunHistory.VerdictAnsweredOnce` | minifleet/scheduler.py:371-374 | in any run, from a verification until another verdict is given, repair blames nobody a second time |
| `RunHistory.FailedIntegrationIsUnanswered` | minifleet/scheduler.py:324-346 | a verdict given by a failing integration is unanswered unless it is the one answered last |
| `RunHistory.RunKeepsEvidence` | minifleet/scheduler.py:205-205 | over any run the evidence log only grows |
| `FleetSafety.IngestKeepsInv` | minifleet/scheduler.py:182-214 | ingesting keeps the run in order whenever the task was dispatched, the work is refused, or the dependencies were merged |
| `FleetSafety.IngestKeepsInvIff` | minifleet/scheduler.py:187-190 | ingest does not check the state: in any state it keeps the run in order exactly when a file is out of scope, a task gate does not pass, or the dependencies have been merged |
| `FleetSafety.IntegrateKeepsInv` | minifleet/scheduler.py:329-345 | integration keeps the run in order, also when a merge fails midway |
| `FleetSafety.StepKeepsInvIff` | minifleet/scheduler.py:73-465 | a scheduler step keeps the run in order exactly when it is no ingest of another kind |
| `FleetSafety.RunSafety` | minifleet/scheduler.py:73-465 | over every run: merge log closed under dependencies at each prefix, merges never outnumber attempts, started tasks have merged dependencies, accepted files lie in scope |
| `FleetSafety.MergedAfterDependencies` | minifleet/scheduler.py:332-340 | a merged task has every dependency strictly before it in the merge log |
| `FleetSafety.RunMergesInOrder` | minifleet/scheduler.py:329-345 | over every run, with reopened tasks, repeated merges and failing integrations: whenever a task was merged, each dependency had been merged before; a run may start with ready tasks that depend on nothing and ingest what was never dispatched |
| `MergeOrder.MergesTooEarly` | minifleet/scheduler.py:332-340 | a verified task with a dependency that was never merged and is not about to be is merged out of order by the next integration |
| `MergeOrder.IngestStaysInOrderIff` | minifleet/scheduler.py:182-214 | for an acyclic plan: after an ingest in any state, all later runs merge in order exactly when the work is refused or the dependencies have been merged |
| `MergeOrder.PendingIngestBreaksOrder` | minifleet/cli.py:226-231 | a concrete run: ingesting a pending task and integrating merges it before its dependency |
| `FleetRepair.AttributionExact` | minifleet/scheduler.py:415-457 | exactly the implicated tasks are reopened, or left failed once attempts are used up; other states and all attempts are unchanged |
| `Blame.AttributionBlames` | minifleet/scheduler.py:423-457 | a task is implicated exactly when some row did not pass, is required if asked, and the first gate of its id names a component whose first task it is; the reports name exactly these tasks, by attempts left |
| `Blame.AttributionReportsOrphans` | minifleet/scheduler.py:428-442 | unattributed are exactly the ids of such rows whose gate is undeclared or names nobody, and gate and component for targets without a task |
| `Blame.RedIsAnswered` | minifleet/scheduler.py:423-442 | every such row implicates a task or is reported |
| `Blame.AttributionBriefs` | minifleet/scheduler.py:443-450 | an implicated task carries, of each gate that blames it, the last such row and nothing older, keeps the rows of other gates, and loses its sandbox |
| `FleetRepair.AttributionOrderIndependent` | minifleet/scheduler.py:415-465 | the outcome does not depend on the order of the evidence, and no task is both reopened and escalated |
| `FleetRepair.RepairIdempotent` | minifleet/scheduler.py:252-307 | a second repair with the same budget changes no state and no attempts |
| `FleetRepair.RepairLeavesOnlyExhausted` | minifleet/scheduler.py:263-279 | no task is left failed with attempts to spare |
| `FleetRepair.RepairNeverReopensExhausted` | minifleet/repair.py:71-91 | a task whose attempts are used up stays failed |
| `FleetBudget.IngestSpends` | minifleet/scheduler.py:190-190 | ingesting spends exactly one remaining attempt and stays within the limit of the task |
| `FleetBudget.SparesKeepsBudget` | minifleet/scheduler.py:263-279 | steps that ingest nothing spend nothing and reopen no exhausted task |
| `FleetBudget.RemainingBounds` | minifleet/scheduler.py:190-190 | remaining attempts lie between zero and tasks times limit |
| `FleetBudget.RefusedDispatchCostsNothing` | minifleet/cli.py:520-524 | a dispatch that is not submitted costs no attempt and repair opens the task again: attempts alone do not bound such a loop |
| `AutopilotLoop.Run` | minifleet/cli.py:505-560 | the loop in place is exactly the loop as a function: final state, rounds and reason to stop; started sane it stays sane, what it keeps follows, and every stop has its cause |
| `AutopilotLoop.OneRound` | minifleet/cli.py:506-560 | one turn: time, dispatch, work, integrate, verify, repair, and why the loop stops after it |
| `StopCauses.EveryStopHasItsCause` | minifleet/cli.py:505-560 | from any state: time is up in that round; dispatches are spent with work ready; integration left a conflict or an error; the verdict passed; nothing is ready after a failed verdict, and some task has used up its attempts or, otherwise, none is failed; or all rounds are used up with work ready |
| `StopCauses.TimeUpStops` | minifleet/cli.py:506-509 | a loop that comes to a round whose time is up stops there, with exactly the state and the rounds it had before it |
| `StopCauses.SpentBudgetStops` | minifleet/cli.py:511-515 | a loop that comes to a round with the dispatch budget spent and work ready stops there, with exactly the state and the rounds it had |
| `Autopilot.DriveOk` | minifleet/cli.py:505-560 | the run stays in order, no task is ingested beyond its limit, and when every dispatch is submitted the rounds are bounded by the remaining attempts whatever max_rounds allows |
| `Autopilot.WorkAllOk` | minifleet/cli.py:516-525 | every result of a wave meets a dispatched task, one attempt each when all were submitted |
| `AutopilotLoop.WorkThrough` | minifleet/cli.py:516-525 | the loop over the results |
| `Autopilot.WorkInOrder` | minifleet/cli.py:516-525 | results are taken in the order of the wave |
| `Autopilot.ReadyIsChosen` | minifleet/cli.py:511-515 | ready work is dispatched unless the dispatch budget is spent |
| `Autopilot.ChosenIsWaiting` | minifleet/cli.py:511-518 | a wave names different tasks, all of them dispatched |
| `Autopilot.FreshRunInBudget` | minifleet/cli.py:498-500 | a fresh run has at most tasks times max(1, max_attempts) attempts to spend |
| `Progress.PlannedRoundsBounded` | minifleet/cli.py:505-560 | for a fresh acyclic plan, tasks made ready by repair included, in which every dispatch is submitted, rounds are at most tasks times max(1, max_attempts) |
| `Progress.StageTally` | minifleet/cli.py:505-560 | when every task lands within its tries, after r rounds nothing beyond the first r waves is merged, and all of the waves whose tries are over are |
| `Progress.WaveByWave` | minifleet/scheduler.py:73-87 | when every first try lands, before round r exactly the first r waves are merged and exactly the tasks of the next wave are ready |
| `Progress.RoundAdvances` | minifleet/cli.py:511-560 | when git works, no gate blames a component and each task lands within its tries, a round leads to the stage of the next round, and goes on exactly while work is ready, unless the verdict passes |
| `Progress.AutopilotCompletes` | minifleet/cli.py:505-560 | when each task is accepted within its tries, refused and unsubmitted ones in between, a fresh plan takes at most that many rounds a wave, and the autopilot stops with every task merged or at the first verdict that passes |
| `Progress.PassedIsDoneIff` | minifleet/cli.py:543-544 | everything merged takes at least as many rounds as waves; when every first try lands, everything is merged exactly if there were as many rounds as waves |
| `Progress.LatePassIsDone` | minifleet/cli.py:543-544 | if no verdict can pass before the time of the last wave is over, the run ends with everything merged |
| `Progress.EarlyPassLeavesWork` | minifleet/cli.py:543-544 | a verdict that passes in a round before that of the last wave ends the run with a passed verdict and work left |
| `Progress.PassWithWorkLeft` | minifleet/cli.py:543-544 | a concrete run of two waves that passes after one round, the second task not merged |
| `Admission.PlannedAt` | minifleet/architect.py:72-88 | each component becomes one task with its own id and its own scope; only a component without files starts ready |
| `Admission.PlanStaysInOrderIff` | minifleet/architect.py:128-136 | for an intent that repair makes acyclic: every run of its plan merges in order exactly when each component that claims no files loses all its dependencies, as unknown or to break a reported cycle |
| `Admission.AcyclicStaysInOrderIff` | minifleet/architect.py:128-136 | for an intent that was acyclic, with known dependencies: exactly when no component that claims no files depends on another |
| `Admission.ScopelessExample` | minifleet/architect.py:131-133 | a concrete intent of two components whose plan has a run that merges out of order |
| `Admission.PlannedDisjointIff` | minifleet/architect.py:131-133 | the scopes of the planned tasks are plain and disjoint exactly when the validated ones are, and each invented path is plain and clear of every other scope |
| `Admission.FilledScopeCanOverlap` | minifleet/architect.py:131-133 | the scope repair invents can overlap one that was validated |
| `PlanKeeping.TraceKeepsPlan` | minifleet/scheduler.py:73-465 | no operation, in whatever order they are called, changes ids, dependencies, scopes or gates of a task |
| `PlanKeeping.TraceKeepsScoped` | minifleet/scheduler.py:192-214 | in whatever order operations are called, accepted work lies in the scope of its task |
| `PlanKeeping.TraceKeepsWaves` | minifleet/scheduler.py:332-332 | in every state of every run the waves are those of the plan: integration reports a cyclic graph exactly when the plan was cyclic or dangling |
| `Admission.AcceptedFilesDisjoint` | minifleet/scheduler.py:192-198 | a path accepted for one task is refused for every other when scopes are disjoint |
| `Admission.NoConflictAtMerge` | minifleet/scheduler.py:318-322 | disjoint scopes at planning time mean no ownership conflict at merge time |
| `MergeOrder.MergeAlongMergesAll` | minifleet/scheduler.py:332-340 | when git does its part, a walk along an order that names every verified task merges all of them and leaves other states alone |
| `Admission.IntegrationFailsOnlyOnGit` | minifleet/scheduler.py:310-349 | with an acyclic plan and disjoint scopes, integration succeeds and merges every verified task unless git itself fails |
| `Admission.AdmittedRunIntegrates` | minifleet/scheduler.py:310-349 | end to end: validated components whose invented scopes fit, and an accepted design, give a run in which, whatever is called in whatever order, integration merges every verified task or fails on git |
| `Worktree.AttemptBranch` | minifleet/worktree.py:127-151 | the branch handed out is never spent; the current one is kept unless it is spent, then the first free attempt name is taken |
| `Worktree.SpentIsProperAncestor` | minifleet/worktree.py:119-147 | a branch is spent exactly when parent links lead from the base to its tip in one step or more |
| `Worktree.FirstFreeAttempt` | minifleet/worktree.py:148-151 | the counting loop ends for every finite set of branches, at the first free name |
| `Worktree.AttemptNameInjective` | minifleet/worktree.py:149-151 | attempt names of one component differ |
| `Numerals.DecimalReads` | minifleet/worktree.py:149-151 | the number in a branch name is written in digits, without leading zeros, and stands for the attempt |
| `Worktree.MergeSpends` | minifleet/worktree.py:207-215 | a merge that makes a commit spends the merged branch |
| `Worktree.SpentForever` | minifleet/worktree.py:119-125 | nothing that happens later makes a spent branch usable again, short of committing on it |
| `Worktree.AttemptAfterMerge` | minifleet/worktree.py:127-151 | a merged branch is never handed out for a later attempt |
| `Compile.DeliverablesAreConserved` | minifleet/compile.py:112-173 | the files of all components are the deliverables, with multiplicities, and those the layout gate checks; no component is left without a file |
| `Compile.ComponentsFromDeliverables` | minifleet/compile.py:112-173 | the loops compute that assignment, or fail on an unknown owner |
| `CompileMeaning.ReadsAll` | minifleet/compile.py:120-133 | a line made of path, description, dependencies and owner is read back as those |
| `CompileMeaning.ReadsDepends` | minifleet/compile.py:120-133 | the same without an owner |
| `CompileMeaning.ReadsOwner` | minifleet/compile.py:120-133 | the same without dependencies |
| `CompileMeaning.PartitionMeans` | minifleet/compile.py:121-131 | a text is cut at the first occurrence of a separator, and pasting the parts gives it back |
| `CompileMeaning.SplitMeans` | minifleet/compile.py:131-131 | dependencies are the pieces between commas, trimmed, empty ones left out |
| `CompileMeaning.ComponentsDeliver` | minifleet/compile.py:138-162 | the modules become the first components, in the order of the lines, each with its path and the dependencies of its line; no other component depends on anything |
| `CompileMeaning.ComponentsAreNamed` | minifleet/compile.py:181-188 | a component is called by the stem of its first file, or when earlier ones were, by directory and stem or by number |
| `CompileMeaning.CompilesIff` | minifleet/compile.py:163-167 | compiling fails exactly when a file names an owner that is no component |
| `Compile.AttachedToOwner` | minifleet/compile.py:161-165 | a file that names its component ends up in the scope of one with that id |
| `Compile.TestJoinsItsModule` | minifleet/compile.py:195-203 | a test file joins exactly the first component that owns a file of the stem it tests, and stands alone when there is none |
| `Compile.LayoutPathsAreParsed` | minifleet/compile.py:371-376 | the paths of the layout gate are the parsed paths |

## Left out

- Scopes.OverlapIff: states the overlap test for scopes without wildcard characters only; with wildcards the code misses pairs (`Scopes.WildcardOverlapMissed`), and what a pattern matches is a parameter.
- Scopes.AdmitsIff: the same for one pattern; the match of a pattern with wildcards is the parameter itself.
- Admission.NoConflictAtMerge: assumes that the diff of a verified branch is what was submitted for it; the code takes the diff against the current head, which may include other merges.
- Admission.IntegrationFailsOnlyOnGit: assumes the same of diffs; exceptions other than a failing checkout, merge or layering are not modelled.
- Acceptance.PassedRunMeetsBudgets: assumes that the ids of budgets differ, which validation ensures (`Acceptance.DeclaredIdsSuffice`); `Acceptance.RepeatedBudgetHides` shows why.
- CycleBreaking.RepairBreaksCyclesApart: a sufficient condition; for one given order of ids and declarations repair can be enough beyond it, and the exact condition is stated across all rules for who gives way (`CycleBreaking.AnyRuleIsEnoughIff`).
- FleetSafety.RunSafety: is about runs of allowed steps from an ordered start; which other ingests and starts break the merge order is stated exactly by `MergeOrder.IngestStaysInOrderIff` and `Admission.PlanStaysInOrderIff`.
- MergeOrder.IngestStaysInOrderIff: assumes that every scope leaves some path out, as plain scopes do (`MergeOrder.PlainLeavesOut`), and that the plan is acyclic, as design ensures.
- Admission.PlanStaysInOrderIff: for task gates that observe something; a budget or a gate of unknown kind on a task may keep it from ever being accepted.
- Progress.AutopilotCompletes: with gates that blame a component a failing verdict reopens merged tasks, and with a dispatch budget or a wall-clock limit the loop may stop early; there only the bound of `Autopilot.DriveOk` is stated. The tries a task may need are one number for all tasks and rounds.
- FleetMetrics.CriticalPathSeconds: the value before it is rounded to milliseconds.
- DepthLabels.DepthMemo.Compute: on a cyclic graph, which design never accepts, only termination and failure are stated.
- DepthLabels.LabelDepths: the same for the levels drawn.
- Ownership.OwnershipConflicts: the order in which the code lists the pairs, that of their first conflict, is not modelled.
- Task objects are values in a sequence that the scheduler object reassigns; sharing of one task object between lists is not captured, and two tasks with one id are looked up by first occurrence.
- Verdicts are structured values instead of strings: two different failures whose texts coincide, because a gate id holds a comma or an equals sign, are told apart here. Messages, notes, titles and time stamps are left out.
- Of the run's event list, only the ids of `task.merged` events and the number of dispatched tasks are kept.
- Git, subprocesses, worktree directories, file writes and persistence; commits are numbers with parent sets.
- Exceptions from committing or diffing during ingest, and from preparing packets.
- The dispatch budget as a strict cap: a whole wave goes out once the count is below it, and `DispatchMeaning.BudgetCapsRun` states what is left of the cap.
- Threads, locks and wall-clock time; clock readings are parameters, reals stand for floats.
- Validation of budgets, limits, gate fields and the references of criteria, which only compares fields one by one.
- The text of repair packets, task packets, diagnoses and reports; HTML, Markdown and JSON.
- Metric parsing, JSON paths and file checks of gates: what they observe is a parameter.
- The rest of the compiler: sections, budgets, probes, harness, policy gates, acceptance parsing; string stripping and path functions are parameters.
- `evolve`, `run`, `deploy`, the other dispatchers and the model refiner: I/O around the operations modelled here.
- The tinyfs example and the storage, analytics and HTTP parts of linksvc, which delegate their guarantees to other systems.
- The quarantine variants: short branch-by-branch functions.
