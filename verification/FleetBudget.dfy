/** Attempts are bounded, and every attempt uses some of what remains. */
module FleetBudget {
  import opened Options
  import Batches
  import FleetRepair
  import opened Scopes
  import opened Gates
  import opened Model
  import opened FleetModel
  import opened FleetSafety

  /** Attempts a task can get: max_attempts, but at least the first one. */
  function Limit(maxAttempts: int): nat {
    if maxAttempts < 1 then 1 else maxAttempts
  }

  /** An open task still has an attempt left. */
  predicate InBudget(t: Task, maxAttempts: int) {
    t.attempts <= Limit(maxAttempts) && (Open(t.state) ==> t.attempts < Limit(maxAttempts))
  }

  ghost predicate AllInBudget(ts: seq<Task>, maxAttempts: int) {
    forall i :: 0 <= i < |ts| ==> InBudget(ts[i], maxAttempts)
  }

  /** Attempts the fleet can still make. */
  function Remaining(ts: seq<Task>, maxAttempts: int): int {
    if ts == [] then 0
    else Remaining(ts[..|ts| - 1], maxAttempts) + Limit(maxAttempts) - ts[|ts| - 1].attempts
  }

  ghost predicate SameAttempts(ts: seq<Task>, us: seq<Task>) {
    |us| == |ts| && forall i :: 0 <= i < |ts| ==> us[i].attempts == ts[i].attempts
  }

  lemma {:induction false} SameAttemptsSameRemaining(ts: seq<Task>, us: seq<Task>, maxAttempts: int)
    requires SameAttempts(ts, us)
    ensures Remaining(us, maxAttempts) == Remaining(ts, maxAttempts)
  {
    if ts != [] {
      var n := |ts| - 1;
      assert forall i :: 0 <= i < n ==> us[..n][i] == us[i] && ts[..n][i] == ts[i];
      SameAttemptsSameRemaining(ts[..n], us[..n], maxAttempts);
    }
  }

  lemma {:induction false} RemainingBounds(ts: seq<Task>, maxAttempts: int)
    requires AllInBudget(ts, maxAttempts)
    ensures 0 <= Remaining(ts, maxAttempts) <= |ts| * Limit(maxAttempts)
  {
    if ts != [] {
      var n := |ts| - 1;
      assert forall i :: 0 <= i < n ==> ts[..n][i] == ts[i];
      RemainingBounds(ts[..n], maxAttempts);
      assert |ts| * Limit(maxAttempts) == n * Limit(maxAttempts) + Limit(maxAttempts);
    }
  }

  lemma {:induction false} OneMoreAttempt(ts: seq<Task>, i: nat, t: Task, maxAttempts: int)
    requires i < |ts| && t.attempts == ts[i].attempts + 1
    ensures Remaining(ts[i := t], maxAttempts) == Remaining(ts, maxAttempts) - 1
  {
    var n := |ts| - 1;
    if i < n {
      assert ts[i := t][..n] == ts[..n][i := t];
      OneMoreAttempt(ts[..n], i, t, maxAttempts);
    } else {
      assert ts[i := t][..n] == ts[..n];
    }
  }

  /** us is ts after a step that ingests nothing, and reopens no task whose attempts are used up. */
  ghost predicate Spares(ts: seq<Task>, us: seq<Task>, maxAttempts: int) {
    |us| == |ts| && forall i :: 0 <= i < |ts| ==> SparesAt(ts[i], us[i], maxAttempts)
  }

  ghost predicate SparesAt(t: Task, u: Task, maxAttempts: int) {
    u.id == t.id && u.attempts == t.attempts && (Open(u.state) ==> Open(t.state) || t.attempts < Limit(maxAttempts))
  }

  lemma SparesKeepsBudget(ts: seq<Task>, us: seq<Task>, maxAttempts: int)
    requires Spares(ts, us, maxAttempts) && AllInBudget(ts, maxAttempts)
    ensures AllInBudget(us, maxAttempts) && Remaining(us, maxAttempts) == Remaining(ts, maxAttempts)
  {
    forall i | 0 <= i < |ts| ensures InBudget(us[i], maxAttempts) && us[i].attempts == ts[i].attempts {
      assert SparesAt(ts[i], us[i], maxAttempts) && InBudget(ts[i], maxAttempts);
    }
    SameAttemptsSameRemaining(ts, us, maxAttempts);
  }

  lemma SparesCompose(ts: seq<Task>, us: seq<Task>, vs: seq<Task>, maxAttempts: int)
    requires Spares(ts, us, maxAttempts) && Spares(us, vs, maxAttempts)
    ensures Spares(ts, vs, maxAttempts)
  {
    forall i | 0 <= i < |ts| ensures SparesAt(ts[i], vs[i], maxAttempts) {
      assert SparesAt(ts[i], us[i], maxAttempts) && SparesAt(us[i], vs[i], maxAttempts);
    }
  }

  lemma SparesSelf(ts: seq<Task>, maxAttempts: int)
    ensures Spares(ts, ts, maxAttempts)
  {
  }

  lemma RefreshSpares(ts: seq<Task>, maxAttempts: int)
    ensures Spares(ts, Refreshed(ts), maxAttempts)
  {
    forall i | 0 <= i < |ts| ensures SparesAt(ts[i], Refreshed(ts)[i], maxAttempts) {}
  }

  lemma DispatchSpares(f: Fleet, p: DispatchPlan, maxAttempts: int)
    ensures Spares(f.tasks, Dispatch(f, p).tasks, maxAttempts)
  {
    SparesSelf(f.tasks, maxAttempts);
    var r := Refreshed(f.tasks);
    var q := PrepareAll(r, p.branchFor);
    var h := HandOut(q, WaveLimit(f, p));
    forall i | 0 <= i < |f.tasks| ensures SparesAt(f.tasks[i], h[i], maxAttempts) {
      assert q[i] == Prepare(r[i], p.branchFor) && r[i] == Promote(f.tasks[i], MergedIds(f.tasks));
    }
  }

  lemma GiveUpSpares(f: Fleet, id: string, maxAttempts: int)
    ensures Spares(f.tasks, GiveUp(f, id).tasks, maxAttempts)
  {
    forall i | 0 <= i < |f.tasks| ensures SparesAt(f.tasks[i], GiveUp(f, id).tasks[i], maxAttempts) {}
  }

  lemma {:induction false} MergeSpares(ts: seq<Task>, log: seq<string>, order: seq<string>, w: GitWorld,
                                       maxAttempts: int)
    ensures Spares(ts, MergeAlong(ts, log, order, w).tasks, maxAttempts)
    decreases |order|
  {
    SparesSelf(ts, maxAttempts);
    if order != [] {
      var i := Find(ts, order[0]);
      if i == |ts| || ts[i].state != Verified {
        MergeSpares(ts, log, order[1..], w, maxAttempts);
      } else if w.mergeOk(order[0]) {
        var us := ts[i := ts[i].(state := Merged)];
        MergeSpares(us, log + [order[0]], order[1..], w, maxAttempts);
        assert Spares(ts, us, maxAttempts);
        SparesCompose(ts, us, MergeAlong(ts, log, order, w).tasks, maxAttempts);
      }
    }
  }

  lemma IntegrateSpares(f: Fleet, w: GitWorld, maxAttempts: int)
    ensures Spares(f.tasks, Integrate(f, w).tasks, maxAttempts)
  {
    SparesSelf(f.tasks, maxAttempts);
    var plan := Batches.PlanOf(DependencyDict(f.tasks));
    if IsDisjoint(VerifiedBranches(f.tasks, w)) && w.checkoutOk && plan.Waves? {
      var m := MergeAlong(f.tasks, f.mergeLog, Flatten(plan.batches), w);
      MergeSpares(f.tasks, f.mergeLog, Flatten(plan.batches), w, maxAttempts);
      RefreshSpares(m.tasks, maxAttempts);
      SparesCompose(f.tasks, m.tasks, Refreshed(m.tasks), maxAttempts);
    }
  }

  lemma TargetSpares(a: Attribution, item: Evidence, component: string, maxAttempts: int)
    ensures Spares(a.tasks, AttributeTarget(a, item, component, maxAttempts).tasks, maxAttempts)
  {
    var b := AttributeTarget(a, item, component, maxAttempts);
    forall i | 0 <= i < |a.tasks| ensures SparesAt(a.tasks[i], b.tasks[i], maxAttempts) {}
  }

  lemma {:induction false} TargetsSpare(a: Attribution, item: Evidence, targets: seq<string>, maxAttempts: int)
    ensures Spares(a.tasks, AttributeTargets(a, item, targets, maxAttempts).tasks, maxAttempts)
    decreases |targets|
  {
    if targets == [] {
      SparesSelf(a.tasks, maxAttempts);
    } else {
      var b := AttributeTargets(a, item, targets[..|targets| - 1], maxAttempts);
      TargetsSpare(a, item, targets[..|targets| - 1], maxAttempts);
      TargetSpares(b, item, targets[|targets| - 1], maxAttempts);
      SparesCompose(a.tasks, b.tasks, AttributeTargets(a, item, targets, maxAttempts).tasks, maxAttempts);
    }
  }

  lemma RowSpares(a: Attribution, gates: seq<Gate>, item: Evidence, required: Option<set<string>>, maxAttempts: int)
    ensures Spares(a.tasks, AttributeRow(a, gates, item, required, maxAttempts).tasks, maxAttempts)
  {
    SparesSelf(a.tasks, maxAttempts);
    var g := FindGate(gates, item.gateId);
    if g.Some? { TargetsSpare(a, item, g.value.attributedTo, maxAttempts); }
  }

  lemma {:induction false} RowsSpare(ts: seq<Task>, gates: seq<Gate>, rows: seq<Evidence>,
                                     required: Option<set<string>>, maxAttempts: int)
    ensures Spares(ts, AttributeRows(ts, gates, rows, required, maxAttempts).tasks, maxAttempts)
    decreases |rows|
  {
    if rows == [] {
      SparesSelf(ts, maxAttempts);
    } else {
      var a := AttributeRows(ts, gates, rows[..|rows| - 1], required, maxAttempts);
      RowsSpare(ts, gates, rows[..|rows| - 1], required, maxAttempts);
      RowSpares(a, gates, rows[|rows| - 1], required, maxAttempts);
      SparesCompose(ts, a.tasks, AttributeRows(ts, gates, rows, required, maxAttempts).tasks, maxAttempts);
    }
  }

  lemma VerifySpares(f: Fleet, observe: nat -> Observation, maxAttempts: int)
    ensures Spares(f.tasks, Verify(f, observe, maxAttempts).tasks, maxAttempts)
  {
    SparesSelf(f.tasks, maxAttempts);
    var evidence := EvidenceOf(BudgetsLast(SystemGates(f.gates)), f.metrics, observe, "");
    var required := Some(RequiredIds(SystemGates(f.gates)));
    var a := AttributeRows(f.tasks, f.gates, evidence, required, maxAttempts);
    RowsSpare(f.tasks, f.gates, evidence, required, maxAttempts);
    RefreshSpares(a.tasks, maxAttempts);
    SparesCompose(f.tasks, a.tasks, Refreshed(a.tasks), maxAttempts);
  }

  lemma RepairSpares(f: Fleet, maxAttempts: int)
    ensures Spares(f.tasks, RepairFailed(f, maxAttempts).tasks, maxAttempts)
  {
    var r := ReopenAll(f.tasks, maxAttempts);
    var a := Repaired(f, maxAttempts);
    assert Spares(f.tasks, r, maxAttempts) by {
      forall i | 0 <= i < |f.tasks| ensures SparesAt(f.tasks[i], r[i], maxAttempts) {}
    }
    RowsSpare(r, f.gates, FailingNow(f), None, maxAttempts);
    SparesCompose(f.tasks, r, a.tasks, maxAttempts);
    RefreshSpares(a.tasks, maxAttempts);
    SparesCompose(f.tasks, a.tasks, Refreshed(a.tasks), maxAttempts);
  }

  /** Ingesting a dispatched task stays in budget and uses exactly one attempt. */
  lemma IngestSpends(glob: Glob, f: Fleet, id: string, s: Submission, maxAttempts: int)
    requires AllInBudget(f.tasks, maxAttempts)
    requires Find(f.tasks, id) < |f.tasks| && f.tasks[Find(f.tasks, id)].state == Dispatched
    ensures AllInBudget(Ingest(glob, f, id, s).tasks, maxAttempts)
    ensures Remaining(Ingest(glob, f, id, s).tasks, maxAttempts) == Remaining(f.tasks, maxAttempts) - 1
  {
    var i, f' := Find(f.tasks, id), Ingest(glob, f, id, s);
    assert f'.tasks == f.tasks[i := f'.tasks[i]];
    OneMoreAttempt(f.tasks, i, f'.tasks[i], maxAttempts);
    forall j | 0 <= j < |f'.tasks| ensures InBudget(f'.tasks[j], maxAttempts) {
      assert InBudget(f.tasks[j], maxAttempts);
    }
  }

  /** A dispatch that is not submitted costs no attempt, and repair opens the task again: only max_rounds,
      the dispatch budget or the wall clock can end such a sequence. */
  lemma RefusedDispatchCostsNothing(f: Fleet, id: string, maxAttempts: int)
    requires var i := Find(f.tasks, id); i < |f.tasks| && f.tasks[i].attempts < maxAttempts
    ensures var i, g := Find(f.tasks, id), RepairFailed(GiveUp(f, id), maxAttempts);
            && Remaining(g.tasks, maxAttempts) == Remaining(f.tasks, maxAttempts)
            && |g.tasks| == |f.tasks| && Open(g.tasks[i].state)
  {
    GivenUpRemains(f, id, maxAttempts);
    GivenUpReopens(f, id, maxAttempts);
  }

  lemma GivenUpReopens(f: Fleet, id: string, maxAttempts: int)
    requires var i := Find(f.tasks, id); i < |f.tasks| && f.tasks[i].attempts < maxAttempts
    ensures var i, g := Find(f.tasks, id), RepairFailed(GiveUp(f, id), maxAttempts);
            |g.tasks| == |f.tasks| && Open(g.tasks[i].state)
  {
    FleetRepair.RepairedAt(GiveUp(f, id), maxAttempts, Find(f.tasks, id));
  }

  lemma GivenUpRemains(f: Fleet, id: string, maxAttempts: int)
    ensures var g := RepairFailed(GiveUp(f, id), maxAttempts);
            |g.tasks| == |f.tasks| && Remaining(g.tasks, maxAttempts) == Remaining(f.tasks, maxAttempts)
  {
    var given := GiveUp(f, id);
    var us := RepairFailed(given, maxAttempts).tasks;
    GiveUpSpares(f, id, maxAttempts);
    RepairSpares(given, maxAttempts);
    SparesCompose(f.tasks, given.tasks, us, maxAttempts);
    forall j | 0 <= j < |f.tasks| ensures us[j].attempts == f.tasks[j].attempts {
      assert SparesAt(f.tasks[j], us[j], maxAttempts);
    }
    SameAttemptsSameRemaining(f.tasks, us, maxAttempts);
  }
}
