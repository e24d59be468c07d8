/** From an admitted intent to a run: what validation and design review are worth during integration. */
module Admission {
  import opened Text
  import opened TaskGraph
  import opened CycleFinder
  import opened Batches
  import opened Scopes
  import opened Gates
  import opened Model
  import opened Intent
  import opened Architect
  import opened DesignReview
  import opened FleetModel
  import opened FleetSafety
  import opened PlanKeeping
  import opened MergeOrder
  import Autopilot

  ghost predicate PlainScopes(cs: seq<Component>) {
    forall i, p :: 0 <= i < |cs| && p in cs[i].owns ==> WildcardFree(p)
  }

  /** The tasks design makes of the components. */
  function PlannedTasks(cs: seq<Component>): seq<Task> {
    RepairTasks(TasksFor(cs))
  }

  lemma {:induction false} TasksForAt(cs: seq<Component>, i: nat)
    requires i < |cs|
    ensures |TasksFor(cs)| == |cs| && TasksFor(cs)[i] == TaskFor(cs[i])
  {
    if i > 0 { TasksForAt(cs[1..], i - 1); } else if |cs| > 1 { TasksForAt(cs[1..], 0); }
  }

  lemma TasksForAll(cs: seq<Component>)
    ensures |TasksFor(cs)| == |cs| && forall i :: 0 <= i < |cs| ==> TasksFor(cs)[i] == TaskFor(cs[i])
  {
    if cs != [] { TasksForAt(cs, 0); }
    forall i | 0 <= i < |cs| ensures TasksFor(cs)[i] == TaskFor(cs[i]) {
      TasksForAt(cs, i);
    }
  }

  lemma PrefixInjective(a: string, b: string)
    ensures "T-" + a == "T-" + b <==> a == b
  {
    assert ("T-" + a)[2..] == a && ("T-" + b)[2..] == b;
  }

  lemma TaskIdsUnique(cs: seq<Component>)
    requires UniqueComponents(cs)
    ensures UniqueIds(TasksFor(cs))
  {
    TasksForAll(cs);
    forall i, j | 0 <= i < j < |cs| ensures TasksFor(cs)[i].id != TasksFor(cs)[j].id {
      PrefixInjective(cs[i].id, cs[j].id);
    }
  }

  /** Each component becomes one pending task with its own id and, unless it claims nothing, its own scope. */
  lemma PlannedAt(cs: seq<Component>, i: nat)
    requires UniqueComponents(cs) && i < |cs|
    ensures |PlannedTasks(cs)| == |cs| && UniqueIds(PlannedTasks(cs))
    ensures var t := PlannedTasks(cs)[i];
            && t.id == "T-" + cs[i].id && t.attempts == 0 && t.owns != []
            && (cs[i].owns != [] ==> t.owns == cs[i].owns && t.state == Pending)
            && (cs[i].owns == [] ==> t.state == Ready)
  {
    TasksForAll(cs);
    TaskIdsUnique(cs);
    RepairKeepsUniqueIds(TasksFor(cs));
    RepairAt(TasksFor(cs), i, "");
  }

  /** A fresh run over a plan. */
  function FreshRun(tasks: seq<Task>, gates: seq<Gate>): Fleet {
    Fleet(tasks, gates, Planning, NoVerdict, NoVerdict, [], map[], [], 0)
  }

  /** Repair makes a task without a scope ready at once. A planned run therefore starts in order exactly when
      no such task has a dependency left. */
  lemma PlanStartsInOrderIff(glob: Glob, cs: seq<Component>, gates: seq<Gate>)
    requires UniqueComponents(cs)
    ensures |PlannedTasks(cs)| == |cs|
    ensures Inv(glob, FreshRun(PlannedTasks(cs), gates))
       <==> forall i :: 0 <= i < |cs| && cs[i].owns == [] ==> PlannedTasks(cs)[i].dependsOn == []
  {
    var f := FreshRun(PlannedTasks(cs), gates);
    TasksForAll(cs);
    TaskIdsUnique(cs);
    RepairKeepsUniqueIds(TasksFor(cs));
    forall i | 0 <= i < |cs|
      ensures TaskOk(glob, f.tasks[i], []) <==> (cs[i].owns == [] ==> f.tasks[i].dependsOn == [])
    {
      PlannedTaskOkIff(glob, cs, i);
    }
  }

  lemma PlannedTaskOkIff(glob: Glob, cs: seq<Component>, i: nat)
    requires UniqueComponents(cs) && i < |cs|
    ensures |PlannedTasks(cs)| == |cs|
    ensures var t := PlannedTasks(cs)[i]; TaskOk(glob, t, []) <==> (cs[i].owns == [] ==> t.dependsOn == [])
  {
    PlannedAt(cs, i);
    NoElements(PlannedTasks(cs)[i].dependsOn);
  }

  lemma NoElements(s: seq<string>)
    ensures Elements(s) <= Elements([]) <==> s == []
  {
    if s != [] { assert s[0] in Elements(s); }
  }

  /** Scopes of different tasks never overlap, and none has a wildcard. */
  ghost predicate TasksDisjoint(glob: Glob, ts: seq<Task>) {
    && (forall i, p :: 0 <= i < |ts| && p in ts[i].owns ==> WildcardFree(p))
    && forall i, j, p, q :: 0 <= i < |ts| && 0 <= j < |ts| && i != j && p in ts[i].owns && q in ts[j].owns ==>
        !ScopesOverlap(glob, p, q)
  }

  /** The scope of the task that is planned for a component. */
  function ScopeOf(c: Component): (owns: seq<string>)
    ensures owns != []
  {
    FillScope(TaskFor(c)).owns
  }

  /** Each scope that repair invents is plain, and overlaps the scope of no other component. */
  ghost predicate FilledScopesFit(glob: Glob, cs: seq<Component>) {
    forall i :: 0 <= i < |cs| && cs[i].owns == [] ==> FilledScopeFits(glob, cs, i, ScopeOf(cs[i])[0])
  }

  ghost predicate FilledScopeFits(glob: Glob, cs: seq<Component>, i: nat, p: string) {
    WildcardFree(p) && forall j, q :: 0 <= j < |cs| && j != i && q in ScopeOf(cs[j]) ==> !ScopesOverlap(glob, p, q)
  }

  lemma PlannedScopes(cs: seq<Component>)
    requires UniqueComponents(cs)
    ensures |PlannedTasks(cs)| == |cs| && forall i :: 0 <= i < |cs| ==> PlannedTasks(cs)[i].owns == ScopeOf(cs[i])
  {
    TasksForAll(cs);
    TaskIdsUnique(cs);
    RepairKeepsUniqueIds(TasksFor(cs));
    forall i | 0 <= i < |cs| ensures PlannedTasks(cs)[i].owns == ScopeOf(cs[i]) {
      RepairAt(TasksFor(cs), i, "");
    }
  }

  lemma TwoScopesApart(glob: Glob, cs: seq<Component>, i: nat, j: nat, p: string, q: string)
    requires UniqueComponents(cs) && ScopesDisjoint(glob, cs) && FilledScopesFit(glob, cs)
    requires i < |cs| && j < |cs| && i != j && p in ScopeOf(cs[i]) && q in ScopeOf(cs[j])
    ensures !ScopesOverlap(glob, p, q)
  {
    if cs[i].owns == [] {
      assert FilledScopeFits(glob, cs, i, ScopeOf(cs[i])[0]);
    } else if cs[j].owns == [] {
      assert FilledScopeFits(glob, cs, j, ScopeOf(cs[j])[0]);
      OverlapSymmetric(glob, p, q);
    } else {
      assert cs[i].id != cs[j].id by { if i < j { assert UniqueComponents(cs); } }
    }
  }

  /** The tasks of a plan have plain and disjoint scopes exactly when the components do, and each invented scope
      is plain and clear of every other scope. */
  lemma PlannedDisjointIff(glob: Glob, cs: seq<Component>)
    requires UniqueComponents(cs)
    ensures TasksDisjoint(glob, PlannedTasks(cs))
       <==> PlainScopes(cs) && ScopesDisjoint(glob, cs) && FilledScopesFit(glob, cs)
  {
    var ts := PlannedTasks(cs);
    PlannedScopes(cs);
    if TasksDisjoint(glob, ts) {
      forall i, p | 0 <= i < |cs| && p in cs[i].owns ensures WildcardFree(p) {
        assert p in ts[i].owns;
      }
      forall i, j, p, q | 0 <= i < |cs| && 0 <= j < |cs| && cs[i].id != cs[j].id && p in cs[i].owns && q in cs[j].owns
        ensures !ScopesOverlap(glob, p, q)
      {
        assert p in ts[i].owns && q in ts[j].owns;
      }
      forall i | 0 <= i < |cs| && cs[i].owns == [] ensures FilledScopeFits(glob, cs, i, ScopeOf(cs[i])[0]) {
        assert ScopeOf(cs[i])[0] in ts[i].owns;
      }
    }
    if PlainScopes(cs) && ScopesDisjoint(glob, cs) && FilledScopesFit(glob, cs) {
      ComponentsGiveDisjoint(glob, cs);
    }
  }

  lemma ComponentsGiveDisjoint(glob: Glob, cs: seq<Component>)
    requires UniqueComponents(cs) && PlainScopes(cs) && ScopesDisjoint(glob, cs) && FilledScopesFit(glob, cs)
    ensures TasksDisjoint(glob, PlannedTasks(cs))
  {
    var ts := PlannedTasks(cs);
    PlannedScopes(cs);
    forall i, p | 0 <= i < |ts| && p in ts[i].owns ensures WildcardFree(p) {
      if cs[i].owns == [] { assert FilledScopeFits(glob, cs, i, ScopeOf(cs[i])[0]); } else { assert p in cs[i].owns; }
    }
    forall i, j, p, q | 0 <= i < |ts| && 0 <= j < |ts| && i != j && p in ts[i].owns && q in ts[j].owns
      ensures !ScopesOverlap(glob, p, q)
    {
      TwoScopesApart(glob, cs, i, j, p, q);
    }
  }

  /** The scope repair invents is not checked against the scopes that were validated. */
  lemma FilledScopeCanOverlap(glob: Glob)
    ensures var x, y := Component("x", ["docs/"], [], [], [], []), Component("y", [], [], [], [], []);
            && ScopesDisjoint(glob, [x, y])
            && FillScope(TaskFor(y)).owns == ["docs/y.md"]
            && ScopesOverlap(glob, "docs/", "docs/y.md")
  {
    var y := Component("y", [], [], [], [], []);
    assert TaskFor(y).componentId == "y" && "docs/" + "y" + ".md" == "docs/y.md";
    assert Strip("docs/") == "docs";
    var b := Strip("docs/y.md");
    assert "docs/y.md"[8] == 'd';
    assert b == "docs/y.md";
    assert b[..5] == "docs" + "/";
  }

  // ---- runs that start from a plan ----

  /** Task gates whose outcome is observed; none is a budget or of an unknown kind. */
  ghost predicate TaskGatesObserve(gates: seq<Gate>) {
    forall g :: g in gates && g.scope == PerTask ==> g.kind == Command || g.kind == Files || g.kind == Json
  }

  lemma {:induction false} TaskGateMembers(gates: seq<Gate>, t: Task, g: Gate)
    requires g in TaskGates(gates, t)
    ensures g in gates && g.scope == PerTask
  {
    if g !in [gates[0]] || gates[0].id !in t.gateIds || gates[0].scope != PerTask { TaskGateMembers(gates[1..], t, g); }
  }

  /** An empty submission of a task whose gates all pass. */
  function Idle(): Submission {
    Submission([], k => Observation(Pass, map[]))
  }

  lemma IdleAccepted(glob: Glob, f: Fleet, i: nat)
    requires i < |f.tasks| && TaskGatesObserve(f.gates)
    ensures Accepts(glob, f, i, Idle())
  {
    var gs, id := TaskGates(f.gates, f.tasks[i]), f.tasks[i].id;
    var rows := EvidenceOf(gs, f.metrics, Idle().observe, id);
    forall k | 0 <= k < |rows| ensures rows[k].status == Pass {
      EvidenceAt(gs, f.metrics, Idle().observe, id, |gs|, k);
      assert gs[k] in gs;
      TaskGateMembers(f.gates, f.tasks[i], gs[k]);
    }
  }

  function WholeWave(): DispatchPlan {
    DispatchPlan(0.0, 0, id => id)
  }

  lemma ReadyIsDispatched(f: Fleet, i: nat)
    requires i < |f.tasks| && f.tasks[i].state == Ready
    ensures |Dispatch(f, WholeWave()).tasks| == |f.tasks| && Dispatch(f, WholeWave()).tasks[i].state == Dispatched
  {
    assert Prepared(f, WholeWave())[i].state == Ready;
    Autopilot.HandsOutReady(Prepared(f, WholeWave()), 0, |f.tasks|, i);
  }

  lemma {:induction false} PrefixedMembers(ids: seq<string>, d: string)
    ensures d in Prefixed(ids) <==> exists e :: e in ids && d == "T-" + e
  {
    if ids != [] {
      PrefixedMembers(ids[1..], d);
      assert ids == [ids[0]] + ids[1..];
      if d in Prefixed(ids) && d != "T-" + ids[0] {
        var e :| e in ids[1..] && d == "T-" + e;
        assert e in ids;
      }
    }
  }

  /** Repair drops the dependency on component e from the task of component i: there is no such component, or a
      reported cycle gives way there. */
  ghost predicate LosesEdge(cs: seq<Component>, i: nat, e: string)
    requires i < |cs|
  {
    e !in ComponentIds(cs) || Dropped(Reports(TasksFor(cs)), "T-" + cs[i].id, "T-" + e)
  }

  ghost predicate LosesAllEdges(cs: seq<Component>, i: nat)
    requires i < |cs|
  {
    forall e :: e in cs[i].dependsOn ==> LosesEdge(cs, i, e)
  }

  /** The dependencies of a planned task, read off the components. */
  lemma PlannedEdge(cs: seq<Component>, i: nat, d: string)
    requires UniqueComponents(cs) && i < |cs|
    ensures |PlannedTasks(cs)| == |cs|
    ensures d in PlannedTasks(cs)[i].dependsOn
       <==> exists e :: e in cs[i].dependsOn && d == "T-" + e && !LosesEdge(cs, i, e)
  {
    var ts := TasksFor(cs);
    TasksForAll(cs);
    TaskIdsUnique(cs);
    RepairAt(ts, i, d);
    PrefixedMembers(cs[i].dependsOn, d);
    forall e ensures e in ComponentIds(cs) <==> "T-" + e in Ids(ts) {
      KnownTask(cs, e);
    }
  }

  lemma PlannedEdges(cs: seq<Component>, i: nat)
    requires UniqueComponents(cs) && i < |cs|
    ensures |PlannedTasks(cs)| == |cs| && (PlannedTasks(cs)[i].dependsOn == [] <==> LosesAllEdges(cs, i))
  {
    PlannedEdge(cs, i, "");
    var deps := PlannedTasks(cs)[i].dependsOn;
    if deps != [] { PlannedEdge(cs, i, deps[0]); }
    forall e | e in cs[i].dependsOn && !LosesEdge(cs, i, e) ensures deps != [] {
      PlannedEdge(cs, i, "T-" + e);
    }
  }

  lemma KnownTask(cs: seq<Component>, e: string)
    ensures e in ComponentIds(cs) <==> "T-" + e in Ids(TasksFor(cs))
  {
    var ts := TasksFor(cs);
    TasksForAll(cs);
    if e in ComponentIds(cs) {
      var c :| c in cs && c.id == e;
      var j :| 0 <= j < |cs| && cs[j] == c;
      assert ts[j] in ts && ts[j].id == "T-" + e;
    }
    if "T-" + e in Ids(ts) {
      var t :| t in ts && t.id == "T-" + e;
      var j :| 0 <= j < |ts| && ts[j] == t;
      PrefixInjective(cs[j].id, e);
      assert cs[j] in cs;
    }
  }

  /** A planned task without a scope that has a dependency left can be merged before it. */
  lemma {:induction false} ScopelessMergesEarly(glob: Glob, cs: seq<Component>, gates: seq<Gate>, i: nat)
    requires UniqueComponents(cs) && !HasCycle(GraphOf(PlannedTasks(cs))) && TaskGatesObserve(gates)
    requires i < |cs| && cs[i].owns == [] && !LosesAllEdges(cs, i)
    ensures !StaysInOrder(glob, FreshRun(PlannedTasks(cs), gates))
  {
    var f := FreshRun(PlannedTasks(cs), gates);
    PlannedAt(cs, i);
    PlannedEdges(cs, i);
    AcyclicPlanHasWaves(cs);
    NothingAccepted(cs);
    ReadyMergesEarly(glob, f, i, f.tasks[i].dependsOn[0]);
  }

  lemma AcyclicPlanHasWaves(cs: seq<Component>)
    requires !HasCycle(GraphOf(PlannedTasks(cs)))
    ensures PlanOf(DependencyDict(PlannedTasks(cs))).Waves?
  {
    RepairCloses(TasksFor(cs));
    PlanExact(DependencyDict(PlannedTasks(cs)));
  }

  lemma NothingAccepted(cs: seq<Component>)
    requires UniqueComponents(cs)
    ensures forall j :: 0 <= j < |PlannedTasks(cs)| ==> !WorkAccepted(PlannedTasks(cs)[j].state)
  {
    TasksForAll(cs);
    if cs != [] { PlannedAt(cs, 0); }
    forall j | 0 <= j < |cs| ensures !WorkAccepted(PlannedTasks(cs)[j].state) {
      PlannedAt(cs, j);
    }
  }

  /** From a state with nothing merged or verified, a ready task with a dependency is merged before it. */
  lemma ReadyMergesEarly(glob: Glob, f: Fleet, i: nat, d: string)
    requires UniqueIds(f.tasks) && PlanOf(DependencyDict(f.tasks)).Waves? && TaskGatesObserve(f.gates)
    requires f.mergeLog == [] && forall j :: 0 <= j < |f.tasks| ==> !WorkAccepted(f.tasks[j].state)
    requires i < |f.tasks| && f.tasks[i].state == Ready && d in f.tasks[i].dependsOn
    ensures !StaysInOrder(glob, f)
  {
    var g := Dispatch(f, WholeWave());
    ReadyIsDispatched(f, i);
    DispatchKeeps(f, WholeWave());
    DispatchedSame(f, g);
    DispatchedMergesEarly(glob, g, i, d);
    if StaysInOrder(glob, f) { StaysAfter(glob, f, DoDispatch(WholeWave())); }
  }

  lemma DispatchedSame(f: Fleet, g: Fleet)
    requires Keeps(f.tasks, g.tasks) && UniqueIds(f.tasks)
    requires forall j :: 0 <= j < |f.tasks| ==> !WorkAccepted(f.tasks[j].state)
    ensures UniqueIds(g.tasks) && DependencyDict(g.tasks) == DependencyDict(f.tasks)
    ensures forall j :: 0 <= j < |g.tasks| ==>
        !WorkAccepted(g.tasks[j].state) && g.tasks[j].dependsOn == f.tasks[j].dependsOn
  {
    forall j | 0 <= j < |f.tasks|
      ensures SamePlanAt(f.tasks[j], g.tasks[j]) && !WorkAccepted(g.tasks[j].state)
    {
      assert KeepsAt(f.tasks[j], g.tasks[j]);
    }
    SamePlanSameDict(f.tasks, g.tasks);
    SamePlanSameIds(f.tasks, g.tasks);
  }

  lemma DispatchedMergesEarly(glob: Glob, f: Fleet, i: nat, d: string)
    requires UniqueIds(f.tasks) && PlanOf(DependencyDict(f.tasks)).Waves? && TaskGatesObserve(f.gates)
    requires f.mergeLog == [] && forall j :: 0 <= j < |f.tasks| ==> !WorkAccepted(f.tasks[j].state)
    requires i < |f.tasks| && f.tasks[i].state == Dispatched && d in f.tasks[i].dependsOn
    ensures !StaysInOrder(glob, f)
  {
    IdleAccepted(glob, f, i);
    FindUnique(f.tasks, i);
    AcceptedMergesTooEarly(glob, f, i, Idle(), d);
    IngestThenIntegrate(glob, f, f.tasks[i].id, Idle());
  }

  /** For an intent that repair makes acyclic: every run of its plan merges in order exactly when each component that
      claims no files loses all its dependencies, those that repair finds unknown or drops to break a cycle. */
  lemma PlanStaysInOrderIff(glob: Glob, cs: seq<Component>, gates: seq<Gate>)
    requires UniqueComponents(cs) && !HasCycle(GraphOf(PlannedTasks(cs))) && TaskGatesObserve(gates)
    ensures StaysInOrder(glob, FreshRun(PlannedTasks(cs), gates))
       <==> forall i :: 0 <= i < |cs| && cs[i].owns == [] ==> LosesAllEdges(cs, i)
  {
    if forall i :: 0 <= i < |cs| && cs[i].owns == [] ==> LosesAllEdges(cs, i) {
      PlanStartsInOrderIff(glob, cs, gates);
      forall i | 0 <= i < |cs| && cs[i].owns == [] ensures PlannedTasks(cs)[i].dependsOn == [] {
        PlannedEdges(cs, i);
      }
      OrderedStays(glob, FreshRun(PlannedTasks(cs), gates));
    } else {
      var i :| 0 <= i < |cs| && cs[i].owns == [] && !LosesAllEdges(cs, i);
      ScopelessMergesEarly(glob, cs, gates, i);
    }
  }

  lemma {:induction false} NothingDropped(cs: seq<Component>, i: nat)
    requires UniqueComponents(cs) && DependenciesKnown(cs) && !HasCycle(GraphOf(TasksFor(cs))) && i < |cs|
    ensures LosesAllEdges(cs, i) <==> cs[i].dependsOn == []
  {
    FindCyclesExact(DependencyDict(TasksFor(cs)));
    assert Reports(TasksFor(cs)) == [];
    if cs[i].dependsOn != [] { assert !LosesEdge(cs, i, cs[i].dependsOn[0]); }
  }

  /** When the intent was acyclic already, and its dependencies known, that is: no component that claims no files
      depends on another. */
  lemma AcyclicStaysInOrderIff(glob: Glob, cs: seq<Component>, gates: seq<Gate>)
    requires UniqueComponents(cs) && DependenciesKnown(cs) && !HasCycle(GraphOf(TasksFor(cs)))
        && TaskGatesObserve(gates)
    ensures StaysInOrder(glob, FreshRun(PlannedTasks(cs), gates))
       <==> forall i :: 0 <= i < |cs| && cs[i].owns == [] ==> cs[i].dependsOn == []
  {
    TaskIdsUnique(cs);
    RepairAcyclicIff(TasksFor(cs));
    forall i | 0 <= i < |cs| ensures LosesAllEdges(cs, i) <==> cs[i].dependsOn == [] {
      NothingDropped(cs, i);
    }
    PlanStaysInOrderIff(glob, cs, gates);
  }

  /** A concrete intent: y claims no files and depends on x, and some run of its plan is out of order. */
  lemma ScopelessExample(glob: Glob)
    ensures var cs := [Component("x", ["x.py"], [], [], [], []), Component("y", [], ["x"], [], [], [])];
            !StaysInOrder(glob, FreshRun(PlannedTasks(cs), []))
  {
    var cs := [Component("x", ["x.py"], [], [], [], []), Component("y", [], ["x"], [], [], [])];
    assert "x"[0] != "y"[0];
    assert cs[0] in cs && cs[0].id == "x";
    ExampleAcyclic(cs);
    assert cs[1].owns == [] && cs[1].dependsOn != [];
    AcyclicStaysInOrderIff(glob, cs, []);
  }

  lemma {:induction false} ExampleAcyclic(cs: seq<Component>)
    requires |cs| == 2 && cs[0].id != cs[1].id && cs[0].dependsOn == [] && cs[1].dependsOn == [cs[0].id]
    ensures UniqueComponents(cs) && !HasCycle(GraphOf(TasksFor(cs)))
  {
    TasksForAll(cs);
    PrefixInjective(cs[0].id, cs[1].id);
    assert Prefixed(cs[1].dependsOn) == ["T-" + cs[0].id] + Prefixed(cs[1].dependsOn[1..]);
    ChainOfTwoWaves(TasksFor(cs));
  }

  // ---- no conflict at merge time ----

  /** What git reports for a verified task is what its worker submitted. */
  ghost predicate DiffsAreSubmissions(ts: seq<Task>, w: GitWorld) {
    forall i :: 0 <= i < |ts| && ts[i].state == Verified ==> w.diff(ts[i].id) == ts[i].submittedFiles
  }

  /** Files accepted for tasks with disjoint scopes are disjoint. */
  lemma AcceptedFilesDisjoint(glob: Glob, ts: seq<Task>, i: nat, j: nat, path: string)
    requires Literal(glob) && TasksDisjoint(glob, ts) && i < |ts| && j < |ts| && i != j
    requires Within(glob, path, ts[i].owns)
    ensures !Within(glob, path, ts[j].owns)
  {
    var k :| 0 <= k < |ts[i].owns| && Admits(glob, ts[i].owns[k], path);
    forall m | 0 <= m < |ts[j].owns| ensures !Admits(glob, ts[j].owns[m], path) {
      assert ts[i].owns[k] in ts[i].owns && ts[j].owns[m] in ts[j].owns;
      if Admits(glob, ts[j].owns[m], path) {
        CommonPathOverlaps(glob, ts[i].owns[k], ts[j].owns[m], path);
      }
    }
  }

  /** Disjoint scopes at planning time mean no ownership conflict at merge time. */
  lemma NoConflictAtMerge(glob: Glob, f: Fleet, w: GitWorld)
    requires Literal(glob) && TasksDisjoint(glob, f.tasks)
    requires AllScoped(glob, f.tasks) && DiffsAreSubmissions(f.tasks, w)
    ensures IsDisjoint(VerifiedBranches(f.tasks, w))
  {
    var d := VerifiedBranches(f.tasks, w);
    forall a, b, p | a in d.table && b in d.table && a != b && p in d.table[a] ensures p !in d.table[b] {
      var i := BranchHasTask(f.tasks, w, a);
      var j := BranchHasTask(f.tasks, w, b);
      assert Scoped(glob, f.tasks[i]) && Scoped(glob, f.tasks[j]);
      AcceptedFilesDisjoint(glob, f.tasks, i, j, p);
    }
  }

  // ---- what integration then achieves ----

  /** An admitted plan leaves integration nothing to fail on but git: if the checkout and the merges work, it
      succeeds and merges every verified task. */
  lemma IntegrationFailsOnlyOnGit(glob: Glob, f: Fleet, w: GitWorld)
    requires UniqueIds(f.tasks) && Literal(glob) && TasksDisjoint(glob, f.tasks)
    requires AllScoped(glob, f.tasks) && DiffsAreSubmissions(f.tasks, w)
    requires PlanOf(DependencyDict(f.tasks)).Waves?
    requires w.checkoutOk && forall id :: w.mergeOk(id)
    ensures IntegrationOutcome(f, w).0 == Integrated
    ensures forall i :: 0 <= i < |f.tasks| && f.tasks[i].state == Verified ==> Integrate(f, w).tasks[i].state == Merged
  {
    NoConflictAtMerge(glob, f, w);
    var order := Flatten(PlanOf(DependencyDict(f.tasks)).batches);
    forall i | 0 <= i < |f.tasks| ensures f.tasks[i].id in order {
      OrderCoversTasks(f.tasks, i);
    }
    MergeAlongMergesAll(f.tasks, f.mergeLog, order, w);
  }

  lemma SamePlanSameScopes(glob: Glob, ts: seq<Task>, us: seq<Task>)
    requires SamePlan(ts, us) && TasksDisjoint(glob, ts)
    ensures TasksDisjoint(glob, us)
  {
    forall i | 0 <= i < |us| ensures us[i].owns == ts[i].owns {
      assert SamePlanAt(ts[i], us[i]);
    }
  }

  lemma FreshPlan(glob: Glob, cs: seq<Component>)
    requires UniqueComponents(cs)
    ensures UniqueIds(PlannedTasks(cs)) && AllScoped(glob, PlannedTasks(cs)) && Closed(GraphOf(PlannedTasks(cs)))
  {
    TasksForAll(cs);
    TaskIdsUnique(cs);
    RepairKeepsUniqueIds(TasksFor(cs));
    RepairCloses(TasksFor(cs));
    forall i | 0 <= i < |cs| ensures Scoped(glob, PlannedTasks(cs)[i]) {
      PlannedAt(cs, i);
    }
  }

  /** End to end: validated components whose invented scopes fit, and a design that is accepted, give a run in
      which, whatever operations are called in whatever order, integration can only fail on git itself. */
  lemma AdmittedRunIntegrates(glob: Glob, cs: seq<Component>, states: seq<Fleet>, steps: seq<Step>, k: nat, w: GitWorld)
    requires Literal(glob) && UniqueComponents(cs)
    requires PlainScopes(cs) && ScopesDisjoint(glob, cs) && FilledScopesFit(glob, cs)
    requires !HasCycle(GraphOf(PlannedTasks(cs)))
    requires IsTrace(glob, states, steps) && k <= |steps|
    requires states[0] == FreshRun(PlannedTasks(cs), states[0].gates)
    requires DiffsAreSubmissions(states[k].tasks, w) && w.checkoutOk && forall id :: w.mergeOk(id)
    ensures IntegrationOutcome(states[k], w).0 == Integrated
    ensures |Integrate(states[k], w).tasks| == |states[k].tasks|
    ensures forall i :: 0 <= i < |states[k].tasks| && states[k].tasks[i].state == Verified ==>
              Integrate(states[k], w).tasks[i].state == Merged
  {
    FreshPlan(glob, cs);
    PlannedDisjointIff(glob, cs);
    TraceKeepsScoped(glob, states, steps, k);
    TraceKeepsPlan(glob, states, steps, k);
    TraceKeepsWaves(glob, states, steps, k);
    SamePlanSameScopes(glob, states[0].tasks, states[k].tasks);
    SamePlanSameIds(states[0].tasks, states[k].tasks);
    IntegrationFailsOnlyOnGit(glob, states[k], w);
  }
}
