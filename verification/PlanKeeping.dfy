/** What no operation of the scheduler touches: the plan, and the files of accepted work. */
module PlanKeeping {
  import opened Options
  import opened TaskGraph
  import opened Batches
  import opened Scopes
  import opened Gates
  import opened Model
  import opened Architect
  import opened FleetModel
  import opened FleetSafety

  /** ids, dependencies, scopes and gates stay. */
  ghost predicate SamePlan(ts: seq<Task>, us: seq<Task>) {
    |us| == |ts| && forall i :: 0 <= i < |ts| ==> SamePlanAt(ts[i], us[i])
  }

  ghost predicate SamePlanAt(t: Task, u: Task) {
    u.id == t.id && u.dependsOn == t.dependsOn && u.owns == t.owns && u.gateIds == t.gateIds
  }

  predicate WorkAccepted(s: TaskState) {
    s == Verified || s == Merged
  }

  /** The plan stays, and nothing becomes accepted that was not. */
  ghost predicate Keeps(ts: seq<Task>, us: seq<Task>) {
    |us| == |ts| && forall i :: 0 <= i < |ts| ==> KeepsAt(ts[i], us[i])
  }

  ghost predicate KeepsAt(t: Task, u: Task) {
    SamePlanAt(t, u) && (WorkAccepted(u.state) ==> WorkAccepted(t.state) && u.submittedFiles == t.submittedFiles)
  }

  lemma KeepsCompose(ts: seq<Task>, us: seq<Task>, vs: seq<Task>)
    requires Keeps(ts, us) && Keeps(us, vs)
    ensures Keeps(ts, vs)
  {
    forall i | 0 <= i < |ts| ensures KeepsAt(ts[i], vs[i]) {
      assert KeepsAt(ts[i], us[i]) && KeepsAt(us[i], vs[i]);
    }
  }

  lemma MovesKeep(ts: seq<Task>, us: seq<Task>, log: seq<string>)
    requires AllMove(ts, us, log)
    ensures Keeps(ts, us)
  {
    forall i | 0 <= i < |ts| ensures KeepsAt(ts[i], us[i]) {
      assert Moves(ts[i], us[i], log);
    }
  }

  lemma RefreshKeeps(ts: seq<Task>)
    ensures Keeps(ts, Refreshed(ts))
  {
    forall i | 0 <= i < |ts| ensures KeepsAt(ts[i], Refreshed(ts)[i]) {}
  }

  lemma {:induction false} MergingKeeps(ts: seq<Task>, log: seq<string>, order: seq<string>, w: GitWorld)
    ensures Keeps(ts, MergeAlong(ts, log, order, w).tasks)
    decreases |order|
  {
    if order != [] {
      var i := Find(ts, order[0]);
      if i == |ts| || ts[i].state != Verified {
        MergingKeeps(ts, log, order[1..], w);
      } else if w.mergeOk(order[0]) {
        var us := ts[i := ts[i].(state := Merged)];
        MergingKeeps(us, log + [order[0]], order[1..], w);
        assert Keeps(ts, us);
        KeepsCompose(ts, us, MergeAlong(ts, log, order, w).tasks);
      }
    }
  }

  lemma IntegrateKeeps(f: Fleet, w: GitWorld)
    ensures Keeps(f.tasks, Integrate(f, w).tasks)
  {
    var plan := PlanOf(DependencyDict(f.tasks));
    if IsDisjoint(VerifiedBranches(f.tasks, w)) && w.checkoutOk && plan.Waves? {
      var m := MergeAlong(f.tasks, f.mergeLog, Flatten(plan.batches), w);
      MergingKeeps(f.tasks, f.mergeLog, Flatten(plan.batches), w);
      RefreshKeeps(m.tasks);
      KeepsCompose(f.tasks, m.tasks, Refreshed(m.tasks));
    }
  }

  lemma DispatchKeeps(f: Fleet, p: DispatchPlan)
    ensures Keeps(f.tasks, Dispatch(f, p).tasks)
  {
    var q := Prepared(f, p);
    forall i | 0 <= i < |f.tasks| ensures KeepsAt(f.tasks[i], q[i]) {
      assert q[i] == Prepare(Refreshed(f.tasks)[i], p.branchFor);
    }
    HandOutKeeps(q, WaveLimit(f, p));
    KeepsCompose(f.tasks, q, HandOut(q, WaveLimit(f, p)));
    NothingKeeps(f.tasks);
  }

  lemma HandOutKeeps(ts: seq<Task>, n: nat)
    ensures Keeps(ts, HandOut(ts, n))
  {
    forall i | 0 <= i < |ts| ensures KeepsAt(ts[i], HandOut(ts, n)[i]) {}
  }

  lemma NothingKeeps(ts: seq<Task>)
    ensures Keeps(ts, ts)
  {
  }

  lemma VerifyKeeps(f: Fleet, observe: nat -> Observation, maxAttempts: int)
    ensures Keeps(f.tasks, Verify(f, observe, maxAttempts).tasks)
  {
    var evidence := EvidenceOf(BudgetsLast(SystemGates(f.gates)), f.metrics, observe, "");
    var required := Some(RequiredIds(SystemGates(f.gates)));
    var a := AttributeRows(f.tasks, f.gates, evidence, required, maxAttempts);
    RowsMove(f.tasks, f.gates, evidence, required, maxAttempts, f.mergeLog);
    MovesKeep(f.tasks, a.tasks, f.mergeLog);
    RefreshKeeps(a.tasks);
    KeepsCompose(f.tasks, a.tasks, Refreshed(a.tasks));
  }

  lemma RepairKeeps(f: Fleet, maxAttempts: int)
    ensures Keeps(f.tasks, RepairFailed(f, maxAttempts).tasks)
  {
    var r, a := ReopenAll(f.tasks, maxAttempts), Repaired(f, maxAttempts);
    ReopenMoves(f.tasks, maxAttempts, f.mergeLog);
    RowsMove(r, f.gates, FailingNow(f), None, maxAttempts, f.mergeLog);
    MovesCompose(f.tasks, r, a.tasks, f.mergeLog);
    MovesKeep(f.tasks, a.tasks, f.mergeLog);
    RefreshKeeps(a.tasks);
    KeepsCompose(f.tasks, a.tasks, Refreshed(a.tasks));
  }

  lemma StepKeeps(glob: Glob, f: Fleet, step: Step)
    requires !step.DoIngest?
    ensures Keeps(f.tasks, Perform(glob, f, step).tasks)
  {
    match step
    case DoRefresh => RefreshKeeps(f.tasks);
    case DoDispatch(p) => DispatchKeeps(f, p);
    case DoGiveUp(id) =>
      GiveUpMoves(f, id);
      MovesKeep(f.tasks, GiveUp(f, id).tasks, f.mergeLog);
    case DoIntegrate(w) => IntegrateKeeps(f, w);
    case DoVerify(observe, m) => VerifyKeeps(f, observe, m);
    case DoRepair(m) => RepairKeeps(f, m);
  }

  // ---- the plan ----

  lemma SamePlanCompose(ts: seq<Task>, us: seq<Task>, vs: seq<Task>)
    requires SamePlan(ts, us) && SamePlan(us, vs)
    ensures SamePlan(ts, vs)
  {
    forall i | 0 <= i < |ts| ensures SamePlanAt(ts[i], vs[i]) {
      assert SamePlanAt(ts[i], us[i]) && SamePlanAt(us[i], vs[i]);
    }
  }

  lemma IngestKeepsPlan(glob: Glob, f: Fleet, id: string, s: Submission)
    ensures SamePlan(f.tasks, Ingest(glob, f, id, s).tasks)
  {
    forall i | 0 <= i < |f.tasks| ensures SamePlanAt(f.tasks[i], Ingest(glob, f, id, s).tasks[i]) {}
  }

  lemma StepKeepsPlan(glob: Glob, f: Fleet, step: Step)
    ensures SamePlan(f.tasks, Perform(glob, f, step).tasks)
  {
    if step.DoIngest? {
      IngestKeepsPlan(glob, f, step.id, step.submission);
    } else {
      StepKeeps(glob, f, step);
      forall i | 0 <= i < |f.tasks| ensures SamePlanAt(f.tasks[i], Perform(glob, f, step).tasks[i]) {
        assert KeepsAt(f.tasks[i], Perform(glob, f, step).tasks[i]);
      }
    }
  }

  lemma NextKeepsPlan(glob: Glob, states: seq<Fleet>, steps: seq<Step>, k: nat)
    requires IsTrace(glob, states, steps) && k < |steps|
    ensures SamePlan(states[k].tasks, states[k + 1].tasks)
  {
    assert Performed(glob, states, steps, k);
    StepKeepsPlan(glob, states[k], steps[k]);
  }

  /** Nothing that is ever done to a run touches ids, dependencies, scopes or gates. */
  lemma {:induction false} TraceKeepsPlan(glob: Glob, states: seq<Fleet>, steps: seq<Step>, k: nat)
    requires IsTrace(glob, states, steps) && k <= |steps|
    ensures SamePlan(states[0].tasks, states[k].tasks)
  {
    if k > 0 {
      TraceKeepsPlan(glob, states, steps, k - 1);
      NextKeepsPlan(glob, states, steps, k - 1);
      SamePlanCompose(states[0].tasks, states[k - 1].tasks, states[k].tasks);
    }
  }

  lemma SamePlanSameDict(ts: seq<Task>, us: seq<Task>)
    requires SamePlan(ts, us)
    ensures DependencyDict(us) == DependencyDict(ts)
  {
    forall i | 0 <= i < |ts| ensures us[i].id == ts[i].id && us[i].dependsOn == ts[i].dependsOn {
      assert SamePlanAt(ts[i], us[i]);
    }
    SameDependencies(us, ts);
  }

  lemma SamePlanSameIds(ts: seq<Task>, us: seq<Task>)
    requires SamePlan(ts, us) && UniqueIds(ts)
    ensures UniqueIds(us)
  {
    forall i | 0 <= i < |ts| ensures us[i].id == ts[i].id {
      assert SamePlanAt(ts[i], us[i]);
    }
  }

  /** Whatever is done to a run, and whatever state it started in, the waves of integration are the ones of the
      accepted plan: integration never finds it cyclic. */
  lemma TraceKeepsWaves(glob: Glob, states: seq<Fleet>, steps: seq<Step>, k: nat)
    requires IsTrace(glob, states, steps) && k <= |steps|
    ensures PlanOf(DependencyDict(states[k].tasks)) == PlanOf(DependencyDict(states[0].tasks))
    ensures Closed(GraphOf(states[0].tasks)) && !HasCycle(GraphOf(states[0].tasks))
       <==> PlanOf(DependencyDict(states[k].tasks)).Waves?
  {
    TraceKeepsPlan(glob, states, steps, k);
    SamePlanSameDict(states[0].tasks, states[k].tasks);
    PlanExact(DependencyDict(states[0].tasks));
  }

  // ---- accepted work ----

  /** All accepted work lies in the scope of its task. */
  ghost predicate AllScoped(glob: Glob, ts: seq<Task>) {
    forall i :: 0 <= i < |ts| ==> Scoped(glob, ts[i])
  }

  lemma KeepsScoped(glob: Glob, ts: seq<Task>, us: seq<Task>)
    requires Keeps(ts, us) && AllScoped(glob, ts)
    ensures AllScoped(glob, us)
  {
    forall i | 0 <= i < |us| ensures Scoped(glob, us[i]) {
      assert KeepsAt(ts[i], us[i]) && Scoped(glob, ts[i]);
    }
  }

  lemma IngestKeepsScoped(glob: Glob, f: Fleet, id: string, s: Submission)
    requires AllScoped(glob, f.tasks)
    ensures AllScoped(glob, Ingest(glob, f, id, s).tasks)
  {
    var i := Find(f.tasks, id);
    if i < |f.tasks| {
      SortedInside(glob, s.files, f.tasks[i].owns);
      forall j | 0 <= j < |f.tasks| ensures Scoped(glob, IngestAt(glob, f, i, s).tasks[j]) {
        assert Scoped(glob, f.tasks[j]);
      }
    }
  }

  lemma StepKeepsScoped(glob: Glob, f: Fleet, step: Step)
    requires AllScoped(glob, f.tasks)
    ensures AllScoped(glob, Perform(glob, f, step).tasks)
  {
    if step.DoIngest? {
      IngestKeepsScoped(glob, f, step.id, step.submission);
    } else {
      StepKeeps(glob, f, step);
      KeepsScoped(glob, f.tasks, Perform(glob, f, step).tasks);
    }
  }

  lemma NextKeepsScoped(glob: Glob, states: seq<Fleet>, steps: seq<Step>, k: nat)
    requires IsTrace(glob, states, steps) && k < |steps| && AllScoped(glob, states[k].tasks)
    ensures AllScoped(glob, states[k + 1].tasks)
  {
    assert Performed(glob, states, steps, k);
    StepKeepsScoped(glob, states[k], steps[k]);
  }

  /** In whatever order operations are called, accepted work lies in the scope of its task. */
  lemma {:induction false} TraceKeepsScoped(glob: Glob, states: seq<Fleet>, steps: seq<Step>, k: nat)
    requires IsTrace(glob, states, steps) && k <= |steps| && AllScoped(glob, states[0].tasks)
    ensures AllScoped(glob, states[k].tasks)
  {
    if k > 0 {
      TraceKeepsScoped(glob, states, steps, k - 1);
      NextKeepsScoped(glob, states, steps, k - 1);
    }
  }
}
