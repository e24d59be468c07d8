/** What every step of a run keeps, and what therefore holds over whole runs. */
module FleetSafety {
  import opened Text
  import opened Options
  import opened Batches
  import opened Scopes
  import opened Gates
  import opened Model
  import opened FleetModel

  /** Past the dependency check of refresh. */
  predicate Started(s: TaskState) {
    s == Ready || s == Dispatched || s == Submitted || s == Verified || s == Merged
  }

  /** Waiting for, or in the middle of, an attempt. */
  predicate Open(s: TaskState) {
    s == Pending || s == Ready || s == Dispatched
  }

  /** A started task's dependencies have all been merged at some time. */
  ghost predicate Ordered(t: Task, log: seq<string>) {
    Started(t.state) ==> Elements(t.dependsOn) <= Elements(log)
  }

  /** Merges are paid for by attempts: a task was merged at most as often as it was ingested. */
  ghost predicate Counted(t: Task, log: seq<string>) {
    multiset(log)[t.id] + (if t.state == Verified then 1 else 0) <= t.attempts
  }

  /** Accepted work stays inside its write scope. */
  ghost predicate Scoped(glob: Glob, t: Task) {
    t.state == Verified || t.state == Merged ==> Inside(glob, t.submittedFiles, t.owns)
  }

  ghost predicate TaskOk(glob: Glob, t: Task, log: seq<string>) {
    && Ordered(t, log) && Counted(t, log) && Scoped(glob, t)
    && (t.state == Merged ==> t.id in log)
  }

  ghost predicate TasksOk(glob: Glob, tasks: seq<Task>, log: seq<string>) {
    forall i :: 0 <= i < |tasks| ==> TaskOk(glob, tasks[i], log)
  }

  /** The entry at position k was merged when all its dependencies were already in the log. */
  ghost predicate EntryOk(tasks: seq<Task>, log: seq<string>, k: nat)
    requires k < |log|
  {
    exists i :: 0 <= i < |tasks| && tasks[i].id == log[k] && Elements(tasks[i].dependsOn) <= Elements(log[..k])
  }

  /** Every prefix of the merge log is closed under dependencies. */
  ghost predicate LogOk(tasks: seq<Task>, log: seq<string>) {
    forall k :: 0 <= k < |log| ==> EntryOk(tasks, log, k)
  }

  ghost predicate Inv(glob: Glob, f: Fleet) {
    UniqueIds(f.tasks) && TasksOk(glob, f.tasks, f.mergeLog) && LogOk(f.tasks, f.mergeLog)
  }

  /** A run starts with nothing merged, and with no task past pending unless it is ready and depends on nothing. */
  ghost predicate Initial(f: Fleet) {
    && UniqueIds(f.tasks) && f.mergeLog == []
    && forall t :: t in f.tasks ==> !Started(t.state) || (t.state == Ready && t.dependsOn == [])
  }

  // ---- steps that merge nothing and attempt nothing ----

  /** t' is t after a step that neither merges nor ingests it. */
  ghost predicate Moves(t: Task, t': Task, log: seq<string>) {
    && t'.id == t.id && t'.dependsOn == t.dependsOn && t'.owns == t.owns && t'.componentId == t.componentId
        && t'.gateIds == t.gateIds
    && t'.attempts == t.attempts && t'.submittedFiles == t.submittedFiles
    && (t'.state == t.state || t'.state == Pending || t'.state == Failed
        || ((t'.state == Ready || t'.state == Dispatched) && Elements(t.dependsOn) <= Elements(log)))
  }

  ghost predicate AllMove(ts: seq<Task>, ts': seq<Task>, log: seq<string>) {
    |ts'| == |ts| && forall i :: 0 <= i < |ts| ==> Moves(ts[i], ts'[i], log)
  }

  lemma MovedOk(glob: Glob, t: Task, t': Task, log: seq<string>)
    requires Moves(t, t', log) && TaskOk(glob, t, log)
    ensures TaskOk(glob, t', log)
  {
  }

  ghost predicate SameSkeleton(ts: seq<Task>, ts': seq<Task>) {
    |ts'| == |ts| && forall i :: 0 <= i < |ts| ==> ts'[i].id == ts[i].id && ts'[i].dependsOn == ts[i].dependsOn
  }

  lemma SkeletonKeepsLog(ts: seq<Task>, ts': seq<Task>, log: seq<string>)
    requires SameSkeleton(ts, ts') && LogOk(ts, log)
    ensures LogOk(ts', log)
  {
    forall k | 0 <= k < |log| ensures EntryOk(ts', log, k) {
      assert EntryOk(ts, log, k);
      var i :| 0 <= i < |ts| && ts[i].id == log[k] && Elements(ts[i].dependsOn) <= Elements(log[..k]);
      assert ts'[i].id == log[k];
    }
  }

  lemma SkeletonKeepsIds(ts: seq<Task>, ts': seq<Task>)
    requires SameSkeleton(ts, ts') && UniqueIds(ts)
    ensures UniqueIds(ts')
  {
    forall i, j | 0 <= i < j < |ts'| ensures ts'[i].id != ts'[j].id {
      assert ts[i].id != ts[j].id;
    }
  }

  lemma MovesKeepInv(glob: Glob, f: Fleet, f': Fleet)
    requires Inv(glob, f) && f'.mergeLog == f.mergeLog && AllMove(f.tasks, f'.tasks, f.mergeLog)
    ensures Inv(glob, f')
  {
    SkeletonKeepsIds(f.tasks, f'.tasks);
    SkeletonKeepsLog(f.tasks, f'.tasks, f.mergeLog);
    forall i | 0 <= i < |f'.tasks| ensures TaskOk(glob, f'.tasks[i], f.mergeLog) {
      MovedOk(glob, f.tasks[i], f'.tasks[i], f.mergeLog);
    }
  }

  lemma MovesCompose(ts: seq<Task>, ts': seq<Task>, ts'': seq<Task>, log: seq<string>)
    requires AllMove(ts, ts', log) && AllMove(ts', ts'', log)
    ensures AllMove(ts, ts'', log)
  {
    forall i | 0 <= i < |ts| ensures Moves(ts[i], ts''[i], log) {
      assert Moves(ts[i], ts'[i], log) && Moves(ts'[i], ts''[i], log);
    }
  }

  /** Every merged task is in the log. */
  ghost predicate Logged(ts: seq<Task>, log: seq<string>) {
    forall i :: 0 <= i < |ts| && ts[i].state == Merged ==> ts[i].id in log
  }

  lemma LoggedMoves(ts: seq<Task>, ts': seq<Task>, log: seq<string>)
    requires Logged(ts, log) && AllMove(ts, ts', log)
    ensures Logged(ts', log)
  {
    forall i | 0 <= i < |ts'| && ts'[i].state == Merged ensures ts'[i].id in log {
      assert Moves(ts[i], ts'[i], log);
    }
  }

  lemma RefreshMoves(ts: seq<Task>, log: seq<string>)
    requires Logged(ts, log)
    ensures AllMove(ts, Refreshed(ts), log)
  {
    var merged := MergedIds(ts);
    forall x | x in merged ensures x in Elements(log) {
      var t :| t in ts && t.state == Merged && t.id == x;
      var i :| 0 <= i < |ts| && ts[i] == t;
    }
    assert merged <= Elements(log);
    forall i | 0 <= i < |ts| ensures Moves(ts[i], Refreshed(ts)[i], log) {
    }
  }

  /** A ready task may be handed out: its dependencies were checked when it became ready. */
  ghost predicate ReadyOk(ts: seq<Task>, log: seq<string>) {
    forall i :: 0 <= i < |ts| && ts[i].state == Ready ==> Elements(ts[i].dependsOn) <= Elements(log)
  }

  lemma InvGivesReadyOk(glob: Glob, f: Fleet)
    requires Inv(glob, f)
    ensures ReadyOk(f.tasks, f.mergeLog) && Logged(f.tasks, f.mergeLog)
  {
    forall i | 0 <= i < |f.tasks| ensures TaskOk(glob, f.tasks[i], f.mergeLog) {
    }
  }

  lemma ReadyOkMoves(ts: seq<Task>, ts': seq<Task>, log: seq<string>)
    requires ReadyOk(ts, log) && AllMove(ts, ts', log)
    ensures ReadyOk(ts', log)
  {
    forall i | 0 <= i < |ts'| && ts'[i].state == Ready ensures Elements(ts'[i].dependsOn) <= Elements(log) {
      assert Moves(ts[i], ts'[i], log);
    }
  }

  lemma HandOutMoves(ts: seq<Task>, n: nat, log: seq<string>)
    requires ReadyOk(ts, log)
    ensures AllMove(ts, HandOut(ts, n), log)
  {
    forall i | 0 <= i < |ts| ensures Moves(ts[i], HandOut(ts, n)[i], log) {
    }
  }

  lemma DispatchMoves(glob: Glob, f: Fleet, p: DispatchPlan)
    requires Inv(glob, f)
    ensures AllMove(f.tasks, Dispatch(f, p).tasks, f.mergeLog)
  {
    InvGivesReadyOk(glob, f);
    RefreshMoves(f.tasks, f.mergeLog);
    var r := Refreshed(f.tasks);
    ReadyOkMoves(f.tasks, r, f.mergeLog);
    var q := PrepareAll(r, p.branchFor);
    assert AllMove(r, q, f.mergeLog) by {
      forall i | 0 <= i < |r| ensures Moves(r[i], q[i], f.mergeLog) {}
    }
    MovesCompose(f.tasks, r, q, f.mergeLog);
    ReadyOkMoves(r, q, f.mergeLog);
    var n := WaveLimit(f, p);
    HandOutMoves(q, n, f.mergeLog);
    MovesCompose(f.tasks, q, HandOut(q, n), f.mergeLog);
    assert AllMove(f.tasks, f.tasks, f.mergeLog) by {
      forall i | 0 <= i < |f.tasks| ensures Moves(f.tasks[i], f.tasks[i], f.mergeLog) {}
    }
  }

  lemma GiveUpMoves(f: Fleet, id: string)
    ensures AllMove(f.tasks, GiveUp(f, id).tasks, f.mergeLog)
  {
    forall i | 0 <= i < |f.tasks| ensures Moves(f.tasks[i], GiveUp(f, id).tasks[i], f.mergeLog) {}
  }

  lemma TargetMoves(a: Attribution, item: Evidence, component: string, maxAttempts: int, log: seq<string>)
    ensures AllMove(a.tasks, AttributeTarget(a, item, component, maxAttempts).tasks, log)
  {
    var b := AttributeTarget(a, item, component, maxAttempts);
    forall i | 0 <= i < |a.tasks| ensures Moves(a.tasks[i], b.tasks[i], log) {}
  }

  lemma NoMove(ts: seq<Task>, log: seq<string>)
    ensures AllMove(ts, ts, log)
  {
  }

  lemma {:induction false} TargetsMove(a: Attribution, item: Evidence, targets: seq<string>, maxAttempts: int,
                                       log: seq<string>)
    ensures AllMove(a.tasks, AttributeTargets(a, item, targets, maxAttempts).tasks, log)
    decreases |targets|
  {
    if targets == [] {
      NoMove(a.tasks, log);
    } else {
      var before := targets[..|targets| - 1];
      var b := AttributeTargets(a, item, before, maxAttempts);
      TargetsMove(a, item, before, maxAttempts, log);
      TargetMoves(b, item, targets[|targets| - 1], maxAttempts, log);
      MovesCompose(a.tasks, b.tasks, AttributeTargets(a, item, targets, maxAttempts).tasks, log);
    }
  }

  lemma RowMoves(a: Attribution, gates: seq<Gate>, item: Evidence, required: Option<set<string>>, maxAttempts: int,
                 log: seq<string>)
    ensures AllMove(a.tasks, AttributeRow(a, gates, item, required, maxAttempts).tasks, log)
  {
    NoMove(a.tasks, log);
    var g := FindGate(gates, item.gateId);
    if g.Some? { TargetsMove(a, item, g.value.attributedTo, maxAttempts, log); }
  }

  lemma {:induction false} RowsMove(ts: seq<Task>, gates: seq<Gate>, rows: seq<Evidence>, required: Option<set<string>>,
                                    maxAttempts: int, log: seq<string>)
    ensures AllMove(ts, AttributeRows(ts, gates, rows, required, maxAttempts).tasks, log)
    decreases |rows|
  {
    if rows == [] {
      NoMove(ts, log);
    } else {
      var before := rows[..|rows| - 1];
      var a := AttributeRows(ts, gates, before, required, maxAttempts);
      RowsMove(ts, gates, before, required, maxAttempts, log);
      RowMoves(a, gates, rows[|rows| - 1], required, maxAttempts, log);
      MovesCompose(ts, a.tasks, AttributeRows(ts, gates, rows, required, maxAttempts).tasks, log);
    }
  }

  lemma VerifyMoves(glob: Glob, f: Fleet, observe: nat -> Observation, maxAttempts: int)
    requires Inv(glob, f)
    ensures AllMove(f.tasks, Verify(f, observe, maxAttempts).tasks, f.mergeLog)
  {
    InvGivesReadyOk(glob, f);
    NoMove(f.tasks, f.mergeLog);
    var evidence := EvidenceOf(BudgetsLast(SystemGates(f.gates)), f.metrics, observe, "");
    var required := Some(RequiredIds(SystemGates(f.gates)));
    var a := AttributeRows(f.tasks, f.gates, evidence, required, maxAttempts);
    RowsMove(f.tasks, f.gates, evidence, required, maxAttempts, f.mergeLog);
    LoggedMoves(f.tasks, a.tasks, f.mergeLog);
    RefreshMoves(a.tasks, f.mergeLog);
    MovesCompose(f.tasks, a.tasks, Refreshed(a.tasks), f.mergeLog);
  }

  lemma ReopenMoves(ts: seq<Task>, maxAttempts: int, log: seq<string>)
    ensures AllMove(ts, ReopenAll(ts, maxAttempts), log)
  {
    forall i | 0 <= i < |ts| ensures Moves(ts[i], ReopenAll(ts, maxAttempts)[i], log) {}
  }

  lemma RepairMoves(glob: Glob, f: Fleet, maxAttempts: int)
    requires Inv(glob, f)
    ensures AllMove(f.tasks, RepairFailed(f, maxAttempts).tasks, f.mergeLog)
  {
    InvGivesReadyOk(glob, f);
    var r := ReopenAll(f.tasks, maxAttempts);
    var a := Repaired(f, maxAttempts);
    ReopenMoves(f.tasks, maxAttempts, f.mergeLog);
    RowsMove(r, f.gates, FailingNow(f), None, maxAttempts, f.mergeLog);
    MovesCompose(f.tasks, r, a.tasks, f.mergeLog);
    LoggedMoves(f.tasks, a.tasks, f.mergeLog);
    RefreshMoves(a.tasks, f.mergeLog);
    MovesCompose(f.tasks, a.tasks, Refreshed(a.tasks), f.mergeLog);
  }

  // ---- ingest ----

  /** The work stays in scope and every task gate passes. */
  predicate Accepts(glob: Glob, f: Fleet, i: nat, s: Submission)
    requires i < |f.tasks|
  {
    && Inside(glob, s.files, f.tasks[i].owns)
    && AllPass(EvidenceOf(TaskGates(f.gates, f.tasks[i]), f.metrics, s.observe, f.tasks[i].id))
  }

  /** The work is refused, or the dependencies of the task have been merged. */
  predicate IngestInOrder(glob: Glob, f: Fleet, i: nat, s: Submission)
    requires i < |f.tasks|
  {
    Accepts(glob, f, i, s) ==> Elements(f.tasks[i].dependsOn) <= Elements(f.mergeLog)
  }

  lemma {:induction false} SameTaskGates(gates: seq<Gate>, t: Task, u: Task)
    requires t.gateIds == u.gateIds
    ensures TaskGates(gates, t) == TaskGates(gates, u)
  {
    if gates != [] { SameTaskGates(gates[1..], t, u); }
  }

  lemma IngestedState(glob: Glob, f: Fleet, i: nat, s: Submission)
    requires i < |f.tasks|
    ensures IngestAt(glob, f, i, s).tasks[i].state == if Accepts(glob, f, i, s) then Verified else Failed
  {
    var t := f.tasks[i].(attempts := f.tasks[i].attempts + 1, sandbox := true);
    SameTaskGates(f.gates, t, f.tasks[i]);
  }

  /** Nothing in ingest checks the state of the task. In any state it keeps the run in order exactly when the
      work is refused or the dependencies have been merged. */
  lemma IngestKeepsInvIff(glob: Glob, f: Fleet, i: nat, s: Submission)
    requires Inv(glob, f) && i < |f.tasks|
    ensures Inv(glob, IngestAt(glob, f, i, s)) <==> IngestInOrder(glob, f, i, s)
  {
    var f' := IngestAt(glob, f, i, s);
    assert TaskOk(glob, f.tasks[i], f.mergeLog);
    IngestedState(glob, f, i, s);
    if IngestInOrder(glob, f, i, s) {
      SkeletonKeepsIds(f.tasks, f'.tasks);
      SkeletonKeepsLog(f.tasks, f'.tasks, f.mergeLog);
      SortedInside(glob, s.files, f.tasks[i].owns);
      forall j | 0 <= j < |f'.tasks| ensures TaskOk(glob, f'.tasks[j], f.mergeLog) {
        assert TaskOk(glob, f.tasks[j], f.mergeLog);
      }
    } else {
      assert !TaskOk(glob, f'.tasks[i], f.mergeLog);
    }
  }

  /** A dispatched task may be ingested whatever it hands in: its dependencies were checked before. */
  lemma IngestKeepsInv(glob: Glob, f: Fleet, id: string, s: Submission)
    requires Inv(glob, f)
    requires var i := Find(f.tasks, id); i < |f.tasks| ==>
        f.tasks[i].state == Dispatched || IngestInOrder(glob, f, i, s)
    ensures Inv(glob, Ingest(glob, f, id, s)) && Ingest(glob, f, id, s).mergeLog == f.mergeLog
  {
    var i := Find(f.tasks, id);
    if i < |f.tasks| {
      assert TaskOk(glob, f.tasks[i], f.mergeLog);
      IngestKeepsInvIff(glob, f, i, s);
    }
  }

  lemma SortedInside(glob: Glob, files: seq<string>, owns: seq<string>)
    ensures Inside(glob, files, owns) ==> Inside(glob, Sort(files), owns)
  {
    SortKeepsElements(files);
    forall p | p in Sort(files) ensures p in files {
      assert p in Elements(Sort(files));
    }
  }

  // ---- integrate ----

  lemma {:induction false} MergeKeepsOk(glob: Glob, ts: seq<Task>, log: seq<string>, order: seq<string>, w: GitWorld)
    requires UniqueIds(ts) && TasksOk(glob, ts, log) && LogOk(ts, log)
    ensures var m := MergeAlong(ts, log, order, w);
            UniqueIds(m.tasks) && TasksOk(glob, m.tasks, m.log) && LogOk(m.tasks, m.log)
    decreases |order|
  {
    if order != [] {
      var i := Find(ts, order[0]);
      if i == |ts| || ts[i].state != Verified {
        MergeKeepsOk(glob, ts, log, order[1..], w);
      } else if w.mergeOk(order[0]) {
        var ts' := ts[i := ts[i].(state := Merged)];
        MergeOneOk(glob, ts, log, i);
        MergeKeepsOk(glob, ts', log + [order[0]], order[1..], w);
      }
    }
  }

  lemma MergeOneOk(glob: Glob, ts: seq<Task>, log: seq<string>, i: nat)
    requires i < |ts| && ts[i].state == Verified
    requires UniqueIds(ts) && TasksOk(glob, ts, log) && LogOk(ts, log)
    ensures var ts', log' := ts[i := ts[i].(state := Merged)], log + [ts[i].id];
            UniqueIds(ts') && TasksOk(glob, ts', log') && LogOk(ts', log')
  {
    var ts', log' := ts[i := ts[i].(state := Merged)], log + [ts[i].id];
    SkeletonKeepsIds(ts, ts');
    forall j | 0 <= j < |ts'| ensures TaskOk(glob, ts'[j], log') {
      LongerLogOk(glob, ts[j], log, ts[i].id);
      if j != i {
        assert ts[j].id != ts[i].id by { assert UniqueIds(ts); }
        assert TaskOk(glob, ts[j], log');
      } else {
        assert log'[|log|] == ts[i].id;
      }
    }
    assert TaskOk(glob, ts[i], log);
    LongerLog(ts, ts', log, i);
  }

  lemma LongerLogOk(glob: Glob, t: Task, log: seq<string>, id: string)
    requires TaskOk(glob, t, log)
    ensures t.id != id ==> TaskOk(glob, t, log + [id])
    ensures t.id == id && t.state == Verified ==> Counted(t.(state := Merged), log + [id])
    ensures Ordered(t, log + [id])
  {
    assert Elements(log + [id]) == Elements(log) + {id};
    assert multiset(log + [id]) == multiset(log) + multiset{id};
    assert t.state == Merged ==> t.id in log + [id];
  }

  lemma LongerLog(ts: seq<Task>, ts': seq<Task>, log: seq<string>, i: nat)
    requires LogOk(ts, log) && SameSkeleton(ts, ts') && i < |ts| && Elements(ts[i].dependsOn) <= Elements(log)
    ensures LogOk(ts', log + [ts[i].id])
  {
    var log' := log + [ts[i].id];
    SkeletonKeepsLog(ts, ts', log);
    forall k | 0 <= k < |log'| ensures EntryOk(ts', log', k) {
      if k < |log| {
        assert EntryOk(ts', log, k);
        assert log'[..k] == log[..k];
      } else {
        assert log'[..k] == log;
        assert ts'[i].id == log'[k];
      }
    }
  }

  /** A merge that fails midway leaves everything merged before it in order. */
  lemma IntegrateKeepsInv(glob: Glob, f: Fleet, w: GitWorld)
    requires Inv(glob, f)
    ensures Inv(glob, Integrate(f, w))
  {
    var (result, m) := IntegrationOutcome(f, w);
    if IsDisjoint(VerifiedBranches(f.tasks, w)) && w.checkoutOk && PlanOf(DependencyDict(f.tasks)).Waves? {
      MergeKeepsOk(glob, f.tasks, f.mergeLog, Flatten(PlanOf(DependencyDict(f.tasks)).batches), w);
    }
    if result == Integrated {
      var g := f.(status := Integrating, tasks := m.tasks, mergeLog := m.log);
      InvGivesReadyOk(glob, g);
      RefreshMoves(m.tasks, m.log);
      MovesKeepInv(glob, g, Integrate(f, w));
    }
  }

  // ---- runs ----

  datatype Step =
    | DoRefresh
    | DoDispatch(plan: DispatchPlan)
    | DoIngest(id: string, submission: Submission)
    | DoGiveUp(id: string)
    | DoIntegrate(world: GitWorld)
    | DoVerify(observe: nat -> Observation, maxAttempts: int)
    | DoRepair(maxAttempts: int)

  function Perform(glob: Glob, f: Fleet, step: Step): Fleet {
    match step
    case DoRefresh => f.(tasks := Refreshed(f.tasks))
    case DoDispatch(p) => Dispatch(f, p)
    case DoIngest(id, s) => Ingest(glob, f, id, s)
    case DoGiveUp(id) => GiveUp(f, id)
    case DoIntegrate(w) => Integrate(f, w)
    case DoVerify(observe, m) => Verify(f, observe, m)
    case DoRepair(m) => RepairFailed(f, m)
  }

  /** What is ingested was dispatched, or is refused, or had its dependencies merged; every other operation may be
      called at any time. */
  ghost predicate Allowed(glob: Glob, f: Fleet, step: Step) {
    step.DoIngest? ==>
      var i := Find(f.tasks, step.id);
      i < |f.tasks| ==> f.tasks[i].state == Dispatched || IngestInOrder(glob, f, i, step.submission)
  }

  /** Any sequence of operations. */
  ghost predicate IsTrace(glob: Glob, states: seq<Fleet>, steps: seq<Step>) {
    |states| == |steps| + 1 && forall i: nat {:trigger Performed(glob, states, steps, i)} :: i < |steps| ==>
        Performed(glob, states, steps, i)
  }

  ghost predicate Performed(glob: Glob, states: seq<Fleet>, steps: seq<Step>, i: nat)
    requires |states| == |steps| + 1 && i < |steps|
  {
    states[i + 1] == Perform(glob, states[i], steps[i])
  }

  /** A sequence of allowed operations. */
  ghost predicate IsRun(glob: Glob, states: seq<Fleet>, steps: seq<Step>) {
    IsTrace(glob, states, steps) && forall i: nat {:trigger AllowedAt(glob, states, steps, i)} :: i < |steps| ==>
        AllowedAt(glob, states, steps, i)
  }

  ghost predicate AllowedAt(glob: Glob, states: seq<Fleet>, steps: seq<Step>, i: nat)
    requires |states| == |steps| + 1 && i < |steps|
  {
    Allowed(glob, states[i], steps[i])
  }

  lemma StepKeepsInv(glob: Glob, f: Fleet, step: Step)
    requires Inv(glob, f) && Allowed(glob, f, step)
    ensures Inv(glob, Perform(glob, f, step))
  {
    var f' := Perform(glob, f, step);
    match step
    case DoRefresh =>
      InvGivesReadyOk(glob, f);
      RefreshMoves(f.tasks, f.mergeLog);
      MovesKeepInv(glob, f, f');
    case DoDispatch(p) =>
      DispatchMoves(glob, f, p);
      MovesKeepInv(glob, f, f');
    case DoIngest(id, s) =>
      IngestKeepsInv(glob, f, id, s);
    case DoGiveUp(id) =>
      GiveUpMoves(f, id);
      MovesKeepInv(glob, f, f');
    case DoIntegrate(w) =>
      IntegrateKeepsInv(glob, f, w);
    case DoVerify(observe, m) =>
      VerifyMoves(glob, f, observe, m);
      MovesKeepInv(glob, f, f');
    case DoRepair(m) =>
      RepairMoves(glob, f, m);
      MovesKeepInv(glob, f, f');
  }

  /** A step keeps the run in order exactly when it is allowed. */
  lemma StepKeepsInvIff(glob: Glob, f: Fleet, step: Step)
    requires Inv(glob, f)
    ensures Inv(glob, Perform(glob, f, step)) <==> Allowed(glob, f, step)
  {
    if Allowed(glob, f, step) {
      StepKeepsInv(glob, f, step);
    } else {
      IngestKeepsInvIff(glob, f, Find(f.tasks, step.id), step.submission);
    }
  }

  lemma InitialInv(glob: Glob, f: Fleet)
    requires Initial(f)
    ensures Inv(glob, f)
  {
    forall i | 0 <= i < |f.tasks| ensures TaskOk(glob, f.tasks[i], f.mergeLog) {
      assert f.tasks[i] in f.tasks;
    }
  }

  lemma NextKeepsInv(glob: Glob, states: seq<Fleet>, steps: seq<Step>, k: nat)
    requires IsRun(glob, states, steps) && k < |steps| && Inv(glob, states[k])
    ensures Inv(glob, states[k + 1])
  {
    assert Performed(glob, states, steps, k) && AllowedAt(glob, states, steps, k);
    StepKeepsInv(glob, states[k], steps[k]);
  }

  lemma {:induction false} RunKeepsInv(glob: Glob, states: seq<Fleet>, steps: seq<Step>, k: nat)
    requires IsRun(glob, states, steps) && Inv(glob, states[0]) && k <= |steps|
    ensures Inv(glob, states[k])
  {
    if k > 0 {
      RunKeepsInv(glob, states, steps, k - 1);
      NextKeepsInv(glob, states, steps, k - 1);
    }
  }

  /** Over every run, every state is in order: in particular each prefix of the merge log is closed under
      dependencies, merges never outnumber attempts, and accepted files lie in their task's scope. */
  lemma RunSafety(glob: Glob, states: seq<Fleet>, steps: seq<Step>, k: nat)
    requires IsRun(glob, states, steps) && Initial(states[0]) && k <= |steps|
    ensures Inv(glob, states[k])
  {
    InitialInv(glob, states[0]);
    RunKeepsInv(glob, states, steps, k);
  }

  /** A merged task has every dependency strictly before it in the log. */
  lemma MergedAfterDependencies(glob: Glob, f: Fleet, k: nat, i: nat, d: string)
    requires Inv(glob, f) && k < |f.mergeLog| && i < |f.tasks| && f.tasks[i].id == f.mergeLog[k]
        && d in f.tasks[i].dependsOn
    ensures exists j :: 0 <= j < k && f.mergeLog[j] == d
  {
    assert EntryOk(f.tasks, f.mergeLog, k);
    var m :| 0 <= m < |f.tasks| && f.tasks[m].id == f.mergeLog[k]
        && Elements(f.tasks[m].dependsOn) <= Elements(f.mergeLog[..k]);
    assert m == i by { assert UniqueIds(f.tasks); }
    assert d in Elements(f.tasks[i].dependsOn);
    assert d in f.mergeLog[..k];
  }

  /** Over every run, with reopened tasks, repeated merges and integrations that fail midway: whenever a task
      was merged, each of its dependencies had been merged before. */
  lemma RunMergesInOrder(glob: Glob, states: seq<Fleet>, steps: seq<Step>, n: nat, k: nat, i: nat, d: string)
    requires IsRun(glob, states, steps) && Initial(states[0]) && n <= |steps|
    requires k < |states[n].mergeLog| && i < |states[n].tasks|
    requires states[n].tasks[i].id == states[n].mergeLog[k] && d in states[n].tasks[i].dependsOn
    ensures exists j :: 0 <= j < k && states[n].mergeLog[j] == d
  {
    RunSafety(glob, states, steps, n);
    MergedAfterDependencies(glob, states[n], k, i, d);
  }
}
