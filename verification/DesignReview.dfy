/** From components to a dispatchable plan: repair, review, accept or refuse (minifleet/architect.py). */
module DesignReview {
  import opened Text
  import opened TaskGraph
  import opened CycleFinder
  import opened Batches
  import opened Model
  import opened Architect

  datatype Spec = Spec(components: seq<Component>, acceptance: seq<Criterion>, gates: seq<Gate>, contracts: seq<string>)

  datatype Plan = Plan(tasks: seq<Task>, gates: seq<Gate>, contracts: seq<string>, acceptance: seq<Criterion>)

  datatype Problem =
    | CyclesRemain(cycles: seq<seq<string>>)
    | ScopeOwnedTwice(path: string, first: string, second: string)
    | UnknownGate(task: string, gate: string)
    | CriterionUncovered(criterion: string)
    | UnknownContract(task: string)
    | NoGates

  datatype Outcome = Accepted(plan: Plan) | Refused(problems: seq<Problem>)

  // ---- repair ----

  function ProbeId(c: Criterion): string {
    "G-probe-" + c.id
  }

  function ProbeGate(c: Criterion): Gate {
    Gate(ProbeId(c), Files, System, true, "", "<=", 0.0, [])
  }

  /** One probe gate for each criterion that names no gate. */
  function Probes(acceptance: seq<Criterion>): seq<Gate> {
    if acceptance == [] then []
    else (if acceptance[0].gates == [] then [ProbeGate(acceptance[0])] else []) + Probes(acceptance[1..])
  }

  function Probed(acceptance: seq<Criterion>): seq<Criterion> {
    if acceptance == [] then []
    else
      [if acceptance[0].gates == [] then acceptance[0].(gates := [ProbeId(acceptance[0])]) else acceptance[0]]
      + Probed(acceptance[1..])
  }

  function RepairPlan(p: Plan): Plan {
    Plan(RepairTasks(p.tasks), p.gates + Probes(p.acceptance), p.contracts, Probed(p.acceptance))
  }

  lemma {:induction false} ProbesSnoc(a: seq<Criterion>, c: Criterion)
    ensures Probes(a + [c]) == Probes(a) + if c.gates == [] then [ProbeGate(c)] else []
    ensures Probed(a + [c]) == Probed(a) + [if c.gates == [] then c.(gates := [ProbeId(c)]) else c]
  {
    if a != [] {
      assert (a + [c])[1..] == a[1..] + [c];
      ProbesSnoc(a[1..], c);
    }
  }

  lemma {:induction false} ProbedAt(a: seq<Criterion>, i: nat)
    requires i < |a|
    ensures |Probed(a)| == |a|
    ensures a[i].gates != [] ==> Probed(a)[i] == a[i]
    ensures a[i].gates == [] ==> Probed(a)[i] == a[i].(gates := [ProbeId(a[i])]) && ProbeGate(a[i]) in Probes(a)
  {
    if i > 0 { ProbedAt(a[1..], i - 1); } else if |a| > 1 { ProbedAt(a[1..], 0); }
  }

  /** After repair every criterion names a gate; a criterion without one got a probe that the plan declares,
      and known references stay known. */
  lemma RepairCoversCriteria(p: Plan, i: nat)
    requires i < |p.acceptance|
    ensures var r := RepairPlan(p);
            && |r.acceptance| == |p.acceptance| && r.acceptance[i].id == p.acceptance[i].id
                && r.acceptance[i].gates != []
            && (p.acceptance[i].gates != [] ==> r.acceptance[i] == p.acceptance[i])
            && (Elements(p.acceptance[i].gates) <= GateIds(p.gates) ==>
                Elements(r.acceptance[i].gates) <= GateIds(r.gates))
  {
    ProbedAt(p.acceptance, i);
    var r, c := RepairPlan(p), p.acceptance[i];
    if c.gates == [] {
      assert ProbeGate(c) in r.gates && ProbeGate(c).id == ProbeId(c);
    }
    forall id | id in GateIds(p.gates) ensures id in GateIds(r.gates) {
      var g :| g in p.gates && g.id == id;
      assert g in r.gates;
    }
  }

  method ProbeCriteria(p: Plan) returns (gates: seq<Gate>, acceptance: seq<Criterion>)
    ensures gates == p.gates + Probes(p.acceptance) && acceptance == Probed(p.acceptance)
  {
    gates, acceptance := p.gates, [];
    for i := 0 to |p.acceptance|
      invariant gates == p.gates + Probes(p.acceptance[..i]) && acceptance == Probed(p.acceptance[..i])
    {
      var c := p.acceptance[i];
      ProbesSnoc(p.acceptance[..i], c);
      assert p.acceptance[..i] + [c] == p.acceptance[..i + 1];
      if c.gates == [] {
        gates := gates + [ProbeGate(c)];
        c := c.(gates := [ProbeId(c)]);
      }
      acceptance := acceptance + [c];
    }
    assert p.acceptance[..|p.acceptance|] == p.acceptance;
  }

  method FillAllScopes(given: seq<Task>) returns (tasks: seq<Task>)
    ensures tasks == FillScopes(given)
  {
    tasks := given;
    for i := 0 to |tasks|
      invariant |tasks| == |given|
      invariant forall j :: 0 <= j < i ==> tasks[j] == FillScope(given[j])
      invariant forall j :: i <= j < |tasks| ==> tasks[j] == given[j]
    {
      if tasks[i].owns == [] {
        tasks := tasks[i := FillScope(tasks[i])];
      }
    }
    ScopesDoNotMatter(given);
  }

  method BreakAllCycles(given: seq<Task>) returns (tasks: seq<Task>)
    ensures tasks == BreakCycles(given, FindCycles(DependencyDict(given)))
  {
    tasks := given;
    var dict := BuildDependencyDict(tasks);
    var cycles := FindAllCycles(dict);
    for k := 0 to |cycles|
      invariant BreakCycles(tasks, cycles[k..]) == BreakCycles(given, cycles)
    {
      assert cycles[k..][0] == cycles[k] && cycles[k..][1..] == cycles[k + 1..];
      tasks := BreakCycle(tasks, cycles[k]);
    }
  }

  method DropAllUnknown(given: seq<Task>) returns (tasks: seq<Task>)
    ensures tasks == DropUnknown(given, Ids(given))
  {
    tasks := given;
    var known := Ids(given);
    for i := 0 to |tasks|
      invariant |tasks| == |given|
      invariant forall j :: 0 <= j < i ==> tasks[j] == given[j].(dependsOn := KnownOnly(given[j].dependsOn, known))
      invariant forall j :: i <= j < |tasks| ==> tasks[j] == given[j]
    {
      tasks := tasks[i := tasks[i].(dependsOn := KnownOnly(tasks[i].dependsOn, known))];
    }
    AllDropUnknown(given, known, tasks);
  }

  method Repair(p: Plan) returns (r: Plan)
    ensures r == RepairPlan(p)
  {
    var gates, acceptance := ProbeCriteria(p);
    var scoped := FillAllScopes(p.tasks);
    var broken := BreakAllCycles(scoped);
    var tasks := DropAllUnknown(broken);
    r := Plan(tasks, gates, p.contracts, acceptance);
  }

  lemma AllDropUnknown(broken: seq<Task>, known: set<string>, tasks: seq<Task>)
    requires |tasks| == |broken|
    requires forall j :: 0 <= j < |tasks| ==> tasks[j] == broken[j].(dependsOn := KnownOnly(broken[j].dependsOn, known))
    ensures tasks == DropUnknown(broken, known)
  {
    forall j | 0 <= j < |tasks|
      ensures |DropUnknown(broken, known)| == |tasks| && tasks[j] == DropUnknown(broken, known)[j]
    {
      DropUnknownAt(broken, known, j);
    }
    if tasks == [] { assert DropUnknown(broken, known) == []; }
  }

  // ---- what the run record keeps ----

  /** The criteria a run stores: `plan` writes them down before design, `evolve` after. */
  datatype Stored = BeforeDesign | AfterDesign

  function StoredCriteria(p: Plan, stored: Stored): seq<Criterion> {
    if stored == AfterDesign then RepairPlan(p).acceptance else p.acceptance
  }

  // ---- review ----

  /** No path is claimed by two tasks with different ids. */
  ghost predicate NoSharedScope(tasks: seq<Task>) {
    forall i, j, p :: 0 <= i < |tasks| && 0 <= j < |tasks| && p in tasks[i].owns && p in tasks[j].owns
      ==> tasks[i].id == tasks[j].id
  }

  function GateIds(gates: seq<Gate>): set<string> {
    set g | g in gates :: g.id
  }

  ghost predicate Reviewed(p: Plan) {
    && !HasCycle(GraphOf(p.tasks))
    && NoSharedScope(p.tasks)
    && (forall t :: t in p.tasks ==> Elements(t.gateIds) <= GateIds(p.gates))
    && (forall c :: c in p.acceptance ==> Elements(c.gates) <= GateIds(p.gates))
    && (forall t :: t in p.tasks ==> Elements(t.contractIds) <= Elements(p.contracts))
    && p.gates != []
  }

  /** The claim at position b of task a comes before position k of task i. */
  ghost predicate Before(tasks: seq<Task>, a: nat, b: nat, i: nat, k: nat) {
    a < |tasks| && b < |tasks[a].owns| && (a < i || (a == i && b < k))
  }

  /** owners names, for each claimed path, a task that claimed it; without a clash, every such task. */
  ghost predicate OwnersAt(tasks: seq<Task>, i: nat, k: nat, owners: map<string, string>, clash: bool) {
    && (forall p :: p in owners ==>
          exists a: nat, b: nat :: Before(tasks, a, b, i, k) && tasks[a].owns[b] == p && tasks[a].id == owners[p])
    && (clash ==> !NoSharedScope(tasks))
    && (!clash ==> forall a: nat, b: nat :: Before(tasks, a, b, i, k) ==>
          tasks[a].owns[b] in owners && owners[tasks[a].owns[b]] == tasks[a].id)
  }

  lemma ClaimPath(tasks: seq<Task>, i: nat, k: nat, owners: map<string, string>, clash: bool)
    requires i < |tasks| && k < |tasks[i].owns| && OwnersAt(tasks, i, k, owners, clash)
    ensures var p := tasks[i].owns[k];
            OwnersAt(tasks, i, k + 1, owners[p := tasks[i].id], clash || (p in owners && owners[p] != tasks[i].id))
  {
    var p := tasks[i].owns[k];
    var owners' := owners[p := tasks[i].id];
    forall q | q in owners'
      ensures exists a: nat, b: nat ::
                Before(tasks, a, b, i, k + 1) && tasks[a].owns[b] == q && tasks[a].id == owners'[q]
    {
      if q == p {
        assert Before(tasks, i, k, i, k + 1);
      } else {
        var a: nat, b: nat :| Before(tasks, a, b, i, k) && tasks[a].owns[b] == q && tasks[a].id == owners[q];
        assert Before(tasks, a, b, i, k + 1);
      }
    }
    if p in owners && owners[p] != tasks[i].id {
      var a: nat, b: nat :| Before(tasks, a, b, i, k) && tasks[a].owns[b] == p && tasks[a].id == owners[p];
      assert p in tasks[a].owns && p in tasks[i].owns;
    } else if !clash {
      forall a: nat, b: nat | Before(tasks, a, b, i, k + 1)
        ensures tasks[a].owns[b] in owners' && owners'[tasks[a].owns[b]] == tasks[a].id
      {
        if a != i || b != k { assert Before(tasks, a, b, i, k); }
      }
    }
  }

  lemma NextTask(tasks: seq<Task>, i: nat, owners: map<string, string>, clash: bool)
    requires i < |tasks| && OwnersAt(tasks, i, |tasks[i].owns|, owners, clash)
    ensures OwnersAt(tasks, i + 1, 0, owners, clash)
  {
    forall a: nat, b: nat | Before(tasks, a, b, i + 1, 0) ensures Before(tasks, a, b, i, |tasks[i].owns|) {
    }
    forall p | p in owners
      ensures exists a: nat, b: nat ::
                Before(tasks, a, b, i + 1, 0) && tasks[a].owns[b] == p && tasks[a].id == owners[p]
    {
      var a: nat, b: nat :| Before(tasks, a, b, i, |tasks[i].owns|) && tasks[a].owns[b] == p
          && tasks[a].id == owners[p];
      assert Before(tasks, a, b, i + 1, 0);
    }
  }

  lemma AllClaimed(tasks: seq<Task>, owners: map<string, string>)
    requires OwnersAt(tasks, |tasks|, 0, owners, false)
    ensures NoSharedScope(tasks)
  {
    forall i, j, p | 0 <= i < |tasks| && 0 <= j < |tasks| && p in tasks[i].owns && p in tasks[j].owns
      ensures tasks[i].id == tasks[j].id
    {
      var b :| 0 <= b < |tasks[i].owns| && tasks[i].owns[b] == p;
      var c :| 0 <= c < |tasks[j].owns| && tasks[j].owns[c] == p;
      assert Before(tasks, i, b, |tasks|, 0) && Before(tasks, j, c, |tasks|, 0);
    }
  }

  method ReviewScopes(tasks: seq<Task>) returns (problems: seq<Problem>)
    ensures problems == [] <==> NoSharedScope(tasks)
  {
    problems := [];
    var owners: map<string, string> := map[];
    assert forall a: nat, b: nat :: !Before(tasks, a, b, 0, 0);
    for i := 0 to |tasks|
      invariant OwnersAt(tasks, i, 0, owners, problems != [])
    {
      var owns := tasks[i].owns;
      for k := 0 to |owns|
        invariant OwnersAt(tasks, i, k, owners, problems != [])
      {
        ClaimPath(tasks, i, k, owners, problems != []);
        if owns[k] in owners && owners[owns[k]] != tasks[i].id {
          problems := problems + [ScopeOwnedTwice(owns[k], owners[owns[k]], tasks[i].id)];
        }
        owners := owners[owns[k] := tasks[i].id];
      }
      NextTask(tasks, i, owners, problems != []);
    }
    if problems == [] { AllClaimed(tasks, owners); }
  }

  method ReviewReferences(p: Plan) returns (problems: seq<Problem>)
    ensures problems == [] <==>
      && (forall t :: t in p.tasks ==> Elements(t.gateIds) <= GateIds(p.gates))
      && (forall c :: c in p.acceptance ==> Elements(c.gates) <= GateIds(p.gates))
      && (forall t :: t in p.tasks ==> Elements(t.contractIds) <= Elements(p.contracts))
  {
    problems := [];
    var known := GateIds(p.gates);
    for i := 0 to |p.tasks|
      invariant problems == [] <==> forall j :: 0 <= j < i ==> Elements(p.tasks[j].gateIds) <= known
    {
      var ids := p.tasks[i].gateIds;
      ghost var before := problems;
      for k := 0 to |ids|
        invariant problems == [] <==> before == [] && forall m :: 0 <= m < k ==> ids[m] in known
      {
        if ids[k] !in known {
          problems := problems + [UnknownGate(p.tasks[i].id, ids[k])];
        }
      }
    }
    ghost var first := problems;
    for i := 0 to |p.acceptance|
      invariant problems == [] <==> first == [] && forall j :: 0 <= j < i ==> Elements(p.acceptance[j].gates) <= known
    {
      if !(Elements(p.acceptance[i].gates) <= known) {
        problems := problems + [CriterionUncovered(p.acceptance[i].id)];
      }
    }
    ghost var second := problems;
    for i := 0 to |p.tasks|
      invariant problems == [] <==> second == [] && forall j :: 0 <= j < i ==>
          Elements(p.tasks[j].contractIds) <= Elements(p.contracts)
    {
      if !(Elements(p.tasks[i].contractIds) <= Elements(p.contracts)) {
        problems := problems + [UnknownContract(p.tasks[i].id)];
      }
    }
  }

  method Check(p: Plan) returns (problems: seq<Problem>)
    ensures problems == [] <==> Reviewed(p)
  {
    problems := [];
    var dict := BuildDependencyDict(p.tasks);
    var cycles := FindAllCycles(dict);
    FindCyclesExact(dict);
    if cycles != [] {
      problems := [CyclesRemain(cycles)];
    }
    var scopes := ReviewScopes(p.tasks);
    var references := ReviewReferences(p);
    problems := problems + scopes + references;
    if p.gates == [] {
      problems := problems + [NoGates];
    }
  }

  // ---- design ----

  function Draft(spec: Spec): Plan {
    Plan(TasksFor(spec.components), spec.gates, spec.contracts, spec.acceptance)
  }

  function TasksFor(components: seq<Component>): seq<Task> {
    if components == [] then [] else [TaskFor(components[0])] + TasksFor(components[1..])
  }

  /** A plan that leaves design can always be layered, so integration never finds it cyclic. */
  method Design(spec: Spec) returns (r: Outcome)
    ensures r.Accepted? <==> Reviewed(RepairPlan(Draft(spec)))
    ensures r.Accepted? ==> r.plan == RepairPlan(Draft(spec))
    ensures r.Accepted? ==> Closed(GraphOf(r.plan.tasks)) && !HasCycle(GraphOf(r.plan.tasks))
    ensures r.Accepted? ==> PlanOf(DependencyDict(r.plan.tasks)).Waves?
    ensures r.Refused? ==> r.problems != []
  {
    var plan := Repair(Draft(spec));
    var problems := Check(plan);
    RepairCloses(Draft(spec).tasks);
    PlanExact(DependencyDict(plan.tasks));
    if problems == [] {
      r := Accepted(plan);
    } else {
      r := Refused(problems);
    }
  }

  /** Criterion by criterion: what is stored before design is what design left in the plan exactly when the
      criterion named a gate. */
  ghost predicate StoredUnlessProbed(stored: seq<Criterion>, plan: Plan) {
    && |stored| == |plan.acceptance|
    && forall i :: 0 <= i < |stored| ==> (stored[i] == plan.acceptance[i] <==> stored[i].gates != [])
  }

  /** Every criterion names gates, and the plan declares them. */
  ghost predicate CriteriaCovered(stored: seq<Criterion>, gates: seq<Gate>) {
    forall c :: c in stored ==> c.gates != [] && Elements(c.gates) <= GateIds(gates)
  }

  lemma BeforeDesignIsUnprobed(p: Plan)
    ensures StoredUnlessProbed(StoredCriteria(p, BeforeDesign), RepairPlan(p))
  {
    forall i | 0 <= i < |p.acceptance|
      ensures |RepairPlan(p).acceptance| == |p.acceptance|
      ensures p.acceptance[i] == RepairPlan(p).acceptance[i] <==> p.acceptance[i].gates != []
    {
      RepairCoversCriteria(p, i);
    }
  }

  lemma AfterDesignIsCovered(p: Plan)
    requires Reviewed(RepairPlan(p))
    ensures CriteriaCovered(StoredCriteria(p, AfterDesign), RepairPlan(p).gates)
  {
    var r := RepairPlan(p);
    forall c | c in r.acceptance ensures c.gates != [] {
      var i :| 0 <= i < |r.acceptance| && r.acceptance[i] == c;
      ProbedLength(p.acceptance);
      RepairCoversCriteria(p, i);
    }
  }

  lemma ProbedLength(a: seq<Criterion>)
    ensures |Probed(a)| == |a|
  {
    if a != [] { ProbedAt(a, 0); }
  }

  /** The plan command: the run is created from the intent as it was read, and then designed. A criterion that
      design gave a probe is therefore stored without it. */
  method PlanRun(spec: Spec) returns (stored: seq<Criterion>, r: Outcome)
    ensures stored == StoredCriteria(Draft(spec), BeforeDesign)
    ensures r.Accepted? ==> r.plan == RepairPlan(Draft(spec)) && StoredUnlessProbed(stored, r.plan)
  {
    stored := spec.acceptance;
    r := Design(spec);
    BeforeDesignIsUnprobed(Draft(spec));
  }

  /** The evolve command: the intent is stored after design repaired it, so that every stored criterion has gates
      of the plan; a refused design stores nothing. */
  method EvolveRun(spec: Spec, before: seq<Criterion>) returns (stored: seq<Criterion>, r: Outcome)
    ensures r.Accepted? ==> stored == StoredCriteria(Draft(spec), AfterDesign) && r.plan == RepairPlan(Draft(spec))
    ensures r.Accepted? ==> CriteriaCovered(stored, r.plan.gates)
    ensures r.Refused? ==> stored == before
  {
    r := Design(spec);
    if r.Accepted? {
      AfterDesignIsCovered(Draft(spec));
      stored := r.plan.acceptance;
    } else {
      stored := before;
    }
  }
}
