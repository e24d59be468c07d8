/** What a passed run is worth: budgets met, criteria proven (minifleet/scheduler.py verify, gates.py, ledger.py). */
module Acceptance {
  import opened Text
  import opened Gates
  import opened Ledger
  import opened Model
  import opened FleetModel
  import opened DesignReview

  // ---- budgets ----

  /** The value keeps the budget: it stands in the relation to the threshold that the operator names, which is one
      of the five. */
  ghost predicate Kept(g: Gate, value: real) {
    && (g.op == "<=" ==> value <= g.threshold) && (g.op == "<" ==> value < g.threshold)
    && (g.op == ">=" ==> value >= g.threshold) && (g.op == ">" ==> value > g.threshold)
    && (g.op == "==" ==> value == g.threshold)
    && (g.op == "<=" || g.op == "<" || g.op == ">=" || g.op == ">" || g.op == "==")
  }

  lemma MetIsKept(g: Gate, value: real)
    ensures Meets(value, g.op, g.threshold) <==> Kept(g, value)
  {
    var le, lt, ge, gt, eq := "<=", "<", ">=", ">", "==";
    assert le[0] == '<' && lt[0] == '<' && ge[0] == '>' && gt[0] == '>' && eq[0] == '=';
    assert |le| == 2 && |lt| == 1 && |ge| == 2 && |gt| == 1;
  }

  /** Whatever order the design lists its probes and budgets in, a passed run measured every required budget,
      and the value left in the metric store meets the threshold. */
  lemma PassedRunMeetsBudgets(f: Fleet, observe: nat -> Observation, maxAttempts: int, g: Gate)
    requires UniqueGates(WhereBudget(SystemGates(f.gates), true))
    requires g in SystemGates(f.gates) && g.required && g.kind == Budget
    requires Verify(f, observe, maxAttempts).status == Passed
    ensures var metrics := Verify(f, observe, maxAttempts).metrics;
            g.metric in metrics && Kept(g, metrics[g.metric])
  {
    PassMeansBudgetsMet(SystemGates(f.gates), f.metrics, observe, "", g);
    MetIsKept(g, Verify(f, observe, maxAttempts).metrics[g.metric]);
  }

  lemma {:induction false} SystemMembers(gs: seq<Gate>, g: Gate)
    ensures g in SystemGates(gs) <==> g in gs && g.scope == System
  {
    if gs != [] {
      assert gs == [gs[0]] + gs[1..];
      SystemMembers(gs[1..], g);
    }
  }

  lemma {:induction false} SystemConcat(a: seq<Gate>, b: seq<Gate>)
    ensures SystemGates(a + b) == SystemGates(a) + SystemGates(b)
  {
    if a == [] {
      assert a + b == b;
    } else {
      assert a + b == [a[0]] + (a[1..] + b);
      SystemFirst(a[0], a[1..] + b);
      SystemConcat(a[1..], b);
      Regroup(SystemGates([a[0]]), SystemGates(a[1..]), SystemGates(b));
      SystemFirst(a[0], a[1..]);
      assert a == [a[0]] + a[1..];
    }
  }

  lemma SystemFirst(g: Gate, rest: seq<Gate>)
    ensures SystemGates([g] + rest) == SystemGates([g]) + SystemGates(rest)
  {
    assert ([g] + rest)[1..] == rest && [g][1..] == [];
  }

  lemma Regroup<T>(a: seq<T>, b: seq<T>, c: seq<T>)
    ensures (a + b) + c == a + (b + c)
  {
  }

  lemma {:induction false} SystemUnique(gs: seq<Gate>)
    requires UniqueGates(gs)
    ensures UniqueGates(SystemGates(gs))
  {
    if gs != [] {
      SystemUnique(gs[1..]);
      var rest := SystemGates(gs[1..]);
      forall j | 0 <= j < |rest| ensures rest[j].id != gs[0].id {
        SystemMembers(gs[1..], rest[j]);
        var k :| 0 <= k < |gs[1..]| && gs[1..][k] == rest[j];
        assert gs[k + 1].id != gs[0].id;
      }
    }
  }

  lemma {:induction false} ProbesAreFiles(a: seq<Criterion>, g: Gate)
    requires g in Probes(a)
    ensures g.kind == Files && g.scope == System && g.required
  {
    if a[0].gates != [] || g != ProbeGate(a[0]) { ProbesAreFiles(a[1..], g); }
  }

  /** The probes that repair adds are no budgets. */
  lemma SameBudgets(p: Plan)
    ensures WhereBudget(SystemGates(RepairPlan(p).gates), true) == WhereBudget(SystemGates(p.gates), true)
  {
    var probes := SystemGates(Probes(p.acceptance));
    SystemConcat(p.gates, Probes(p.acceptance));
    WhereBudgetConcat(SystemGates(p.gates), probes, true);
    if WhereBudget(probes, true) != [] {
      var g := WhereBudget(probes, true)[0];
      WhereBudgetMembers(probes, true, g);
      SystemMembers(Probes(p.acceptance), g);
      ProbesAreFiles(p.acceptance, g);
    }
  }

  /** Distinct ids of the declared gates are enough, although repair adds gates whose ids may repeat them. */
  lemma DeclaredIdsSuffice(p: Plan)
    requires UniqueGates(p.gates)
    ensures UniqueGates(WhereBudget(SystemGates(RepairPlan(p).gates), true))
  {
    SameBudgets(p);
    SystemUnique(p.gates);
    WhereBudgetUnique(SystemGates(p.gates), true);
  }

  /** In a run of a designed plan whose declared gate ids differ, as validation demands, a pass means that every
      required system budget is met. */
  lemma PassedRunMeetsDeclaredBudgets(p: Plan, f: Fleet, observe: nat -> Observation, maxAttempts: int, g: Gate)
    requires UniqueGates(p.gates) && f.gates == RepairPlan(p).gates
    requires g in p.gates && g.scope == System && g.required && g.kind == Budget
    requires Verify(f, observe, maxAttempts).status == Passed
    ensures var metrics := Verify(f, observe, maxAttempts).metrics;
            g.metric in metrics && Kept(g, metrics[g.metric])
  {
    DeclaredIdsSuffice(p);
    SystemMembers(f.gates, g);
    PassedRunMeetsBudgets(f, observe, maxAttempts, g);
  }

  /** A probe can repeat the id of a declared budget, and validation does not see it. */
  lemma ProbeCanRepeatId()
    ensures var p := Plan([], [Gate("G-probe-C", Budget, System, true, "m", "<=", 1.0, [])], [], [Criterion("C", [])]);
            UniqueGates(p.gates) && !UniqueGates(RepairPlan(p).gates)
  {
    var budget, c := Gate("G-probe-C", Budget, System, true, "m", "<=", 1.0, []), Criterion("C", []);
    var gates := RepairPlan(Plan([], [budget], [], [c])).gates;
    assert Probes([c]) == [ProbeGate(c)] + Probes([c][1..]);
    assert gates[0] == budget && gates[1] == ProbeGate(c);
    assert "G-probe-" + "C" == "G-probe-C";
  }

  /** Two budgets of one id: the later row hides the earlier, so distinct budget ids are needed above. */
  lemma RepeatedBudgetHides(observe: nat -> Observation)
    ensures var missed := Gate("G", Budget, System, true, "m", "<=", 1.0, []);
            var met := Gate("G", Budget, System, true, "n", "<=", 1.0, []);
            var before := map["m" := 2.0, "n" := 0.0];
            && Judge(EvidenceOf(BudgetsLast([missed, met]), before, observe, ""), {"G"}) == AllGreen
            && !Kept(missed, before["m"])
  {
    var missed := Gate("G", Budget, System, true, "m", "<=", 1.0, []);
    var met := Gate("G", Budget, System, true, "n", "<=", 1.0, []);
    var before := map["m" := 2.0, "n" := 0.0];
    var gs := [missed, met];
    var rest := [met];
    assert gs[1..] == rest && rest[1..] == [];
    assert WhereBudget(rest, true) == [met] + WhereBudget([], true);
    assert WhereBudget(rest, false) == [] + WhereBudget([], false);
    assert BudgetsLast(gs) == gs;
    assert "m" != "n" by { assert "m"[0] != "n"[0]; }
    var e1 := EvidenceUpTo(gs, before, observe, "", 1);
    var e2 := EvidenceUpTo(gs, before, observe, "", 2);
    assert StoreAt(gs, before, observe, 1) == before;
    assert e2[..1] == e1 && e2[1] == Evidence("G", Pass, "");
    JudgePassesIff(e2, {"G"});
  }

  // ---- criteria ----

  /** A passed run proves every criterion that rests on required system gates, over the whole evidence log. */
  lemma PassedRunProvesCriteria(f: Fleet, observe: nat -> Observation, maxAttempts: int, c: Criterion)
    requires Verify(f, observe, maxAttempts).status == Passed
    requires c.gates != [] && Elements(c.gates) <= RequiredIds(SystemGates(f.gates))
    ensures RowFor(c, f.tasks, Latest(Verify(f, observe, maxAttempts).evidence)).standing == Proven
  {
    var latest := EvidenceOf(BudgetsLast(SystemGates(f.gates)), f.metrics, observe, "");
    PassProvesCriteria(f.evidence, latest, RequiredIds(SystemGates(f.gates)), c, f.tasks);
  }

  /** Whatever the evidence, a criterion that names no gate stands unproven. */
  lemma GatelessIsUnproven(c: Criterion, tasks: seq<Task>, byGate: map<string, Status>)
    ensures RowFor(c, tasks, byGate).standing == Unproven <==> c.gates == []
  {
  }

  /** The probe that repair gives a criterion without a gate is a required system gate of the plan. */
  lemma ProbeIsRequired(p: Plan, i: nat)
    requires i < |p.acceptance| && p.acceptance[i].gates == []
    ensures |RepairPlan(p).acceptance| == |p.acceptance|
    ensures RepairPlan(p).acceptance[i].gates == [ProbeId(p.acceptance[i])]
    ensures Elements(RepairPlan(p).acceptance[i].gates) <= RequiredIds(SystemGates(RepairPlan(p).gates))
  {
    ProbedAt(p.acceptance, i);
    var g := ProbeGate(p.acceptance[i]);
    assert g in RepairPlan(p).gates;
    SystemMembers(RepairPlan(p).gates, g);
    assert g.id in RequiredIds(SystemGates(RepairPlan(p).gates));
  }

  /** After a pass, a criterion whose gates are required system gates is reported as verified exactly when the
      stored criterion names a gate: when the intent did, or when the intent was stored after design added the
      probe. A planned run stores it before, and reports a criterion without a gate as unproven after every pass. */
  lemma StoredCriterionProvenIff(p: Plan, stored: Stored, f: Fleet, observe: nat -> Observation, maxAttempts: int,
                                 i: nat)
    requires i < |p.acceptance| && f.gates == RepairPlan(p).gates
    requires Verify(f, observe, maxAttempts).status == Passed
    requires Elements(p.acceptance[i].gates) <= RequiredIds(SystemGates(f.gates))
    ensures |StoredCriteria(p, stored)| == |p.acceptance|
    ensures var standing := RowFor(StoredCriteria(p, stored)[i], f.tasks,
        Latest(Verify(f, observe, maxAttempts).evidence)).standing;
            && (standing == Proven <==> p.acceptance[i].gates != [] || stored == AfterDesign)
            && (standing == Unproven <==> p.acceptance[i].gates == [] && stored == BeforeDesign)
  {
    RepairCoversCriteria(p, i);
    if p.acceptance[i].gates == [] { ProbeIsRequired(p, i); }
    var c := StoredCriteria(p, stored)[i];
    if c.gates != [] {
      PassedRunProvesCriteria(f, observe, maxAttempts, c);
    } else {
      GatelessIsUnproven(c, f.tasks, Latest(Verify(f, observe, maxAttempts).evidence));
    }
  }
}
