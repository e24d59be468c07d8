/** The plan that design makes of an intent, field by field (minifleet/architect.py, _task_for and repair). */
module DesignMeaning {
  import opened Text
  import opened Filters
  import opened Model
  import opened Architect
  import opened DesignReview

  // ---- tasks ----

  /** The names of the tasks for a list of components. */
  ghost predicate TaskNames(ids: seq<string>, names: seq<string>) {
    |names| == |ids| && forall j :: 0 <= j < |ids| ==> names[j] == "T-" + ids[j]
  }

  lemma {:induction false} PrefixedNames(ids: seq<string>)
    ensures TaskNames(ids, Prefixed(ids))
  {
    if ids != [] { PrefixedNames(ids[1..]); }
  }

  /** The member of a reported cycle with the smallest id gives up depending on the others. */
  ghost predicate GivesUp(cycles: seq<seq<string>>, v: string, d: string) {
    exists k :: 0 <= k < |cycles| && SmallestOf(cycles[k], v) && d in cycles[k]
  }

  ghost predicate SmallestOf(c: seq<string>, v: string) {
    v in c && forall x :: x in c ==> Leq(v, x)
  }

  lemma VictimIsSmallest(c: seq<string>, v: string)
    requires c != []
    ensures SmallestOf(c, v) <==> v == Victim(c)
  {
    SortCorrect(c);
    SortKeepsElements(c);
    var s := Sort(c);
    assert s[0] in Elements(s);
    forall x | x in c ensures Leq(s[0], x) {
      assert x in Elements(s);
      var i :| 0 <= i < |s| && s[i] == x;
      LeqTotal(x, x);
    }
    if SmallestOf(c, v) { LeqAntisymmetric(v, s[0]); }
  }

  lemma DroppedIsGivenUp(cycles: seq<seq<string>>, v: string, d: string)
    ensures Dropped(cycles, v, d) <==> GivesUp(cycles, v, d)
  {
    forall k | 0 <= k < |cycles| && cycles[k] != [] ensures SmallestOf(cycles[k], v) <==> v == Victim(cycles[k]) {
      VictimIsSmallest(cycles[k], v);
    }
    if Dropped(cycles, v, d) {
      var k :| 0 <= k < |cycles| && cycles[k] != [] && Victim(cycles[k]) == v && d in cycles[k];
      assert SmallestOf(cycles[k], v);
    }
  }

  function NotIn(dropped: seq<string>): string -> bool {
    (d: string) => d !in dropped
  }

  function Known(known: set<string>): string -> bool {
    (d: string) => d in known
  }

  ghost function NotGivenUp(cycles: seq<seq<string>>, v: string): string -> bool {
    (d: string) => !Dropped(cycles, v, d)
  }

  lemma {:induction false} WithoutKeeps(deps: seq<string>, dropped: seq<string>)
    ensures Without(deps, dropped) == Filter(deps, NotIn(dropped))
  {
    if deps != [] { WithoutKeeps(deps[1..], dropped); }
  }

  lemma {:induction false} KnownOnlyKeeps(deps: seq<string>, known: set<string>)
    ensures KnownOnly(deps, known) == Filter(deps, Known(known))
  {
    if deps != [] { KnownOnlyKeeps(deps[1..], known); }
  }

  lemma {:induction false} SameKept<T>(s: seq<T>, p: T -> bool, q: T -> bool)
    requires forall x :: x in s ==> p(x) == q(x)
    ensures Filter(s, p) == Filter(s, q)
  {
    if s != [] { SameKept(s[1..], p, q); }
  }

  lemma {:induction false} AllKept<T>(s: seq<T>, p: T -> bool)
    requires forall x :: x in s ==> p(x)
    ensures Filter(s, p) == s
  {
    if s != [] { AllKept(s[1..], p); }
  }

  lemma BreakCycleKeeps(tasks: seq<Task>, cycle: seq<string>, i: nat)
    requires UniqueIds(tasks) && i < |tasks|
    ensures BreakCycle(tasks, cycle)[i].dependsOn == Filter(tasks[i].dependsOn, NotGivenUp([cycle], tasks[i].id))
  {
    var deps, kept := tasks[i].dependsOn, NotGivenUp([cycle], tasks[i].id);
    assert [cycle][0] == cycle;
    if cycle != [] && Victim(cycle) == tasks[i].id {
      FindUnique(tasks, i);
      WithoutKeeps(deps, cycle);
      SameKept(deps, NotIn(cycle), kept);
    } else {
      AllKept(deps, kept);
    }
  }

  /** Breaking cycles keeps the order of what it leaves. */
  lemma {:induction false} BreakCyclesKeeps(tasks: seq<Task>, cycles: seq<seq<string>>, i: nat)
    requires UniqueIds(tasks) && i < |tasks|
    ensures BreakCycles(tasks, cycles)[i].dependsOn == Filter(tasks[i].dependsOn, NotGivenUp(cycles, tasks[i].id))
    decreases |cycles|
  {
    var deps, v := tasks[i].dependsOn, tasks[i].id;
    if cycles == [] {
      AllKept(deps, NotGivenUp(cycles, v));
    } else {
      var first, rest := NotGivenUp([cycles[0]], v), NotGivenUp(cycles[1..], v);
      BreakCycleAt(tasks, cycles[0], i, "");
      BreakCycleKeeps(tasks, cycles[0], i);
      BreakCyclesKeeps(BreakCycle(tasks, cycles[0]), cycles[1..], i);
      FilterTwice(deps, first, rest);
      BothGiveUp(cycles, v, deps);
    }
  }

  lemma BothGiveUp(cycles: seq<seq<string>>, v: string, deps: seq<string>)
    requires cycles != []
    ensures Filter(deps, Both(NotGivenUp([cycles[0]], v), NotGivenUp(cycles[1..], v)))
         == Filter(deps, NotGivenUp(cycles, v))
  {
    var both := Both(NotGivenUp([cycles[0]], v), NotGivenUp(cycles[1..], v));
    forall d | d in deps ensures both(d) == NotGivenUp(cycles, v)(d) {
      DroppedSplit(cycles, v, d);
    }
    SameKept(deps, both, NotGivenUp(cycles, v));
  }

  /** What is left of the dependencies of a task: those that name a task and that no reported cycle makes it give
      up. */
  ghost function StaysIn(tasks: seq<Task>, v: string): string -> bool {
    (d: string) => (exists k :: 0 <= k < |tasks| && tasks[k].id == d) && !GivesUp(Reports(tasks), v, d)
  }

  /** Repair keeps the dependencies that stay, in their order. */
  lemma RepairKeeps(tasks: seq<Task>, i: nat)
    requires UniqueIds(tasks) && i < |tasks|
    ensures |RepairTasks(tasks)| == |tasks|
    ensures RepairTasks(tasks)[i].dependsOn == Filter(tasks[i].dependsOn, StaysIn(tasks, tasks[i].id))
  {
    var filled, cycles, v, deps := FillScopes(tasks), Reports(tasks), tasks[i].id, tasks[i].dependsOn;
    ScopesDoNotMatter(tasks);
    BrokenIds(tasks);
    RepairAt(tasks, i, "");
    BreakCyclesKeeps(filled, cycles, i);
    var broken := BreakCycles(filled, cycles);
    DropUnknownAt(broken, Ids(tasks), i);
    KnownOnlyKeeps(broken[i].dependsOn, Ids(tasks));
    FilterTwice(deps, NotGivenUp(cycles, v), Known(Ids(tasks)));
    StaysBoth(tasks, v, deps);
  }

  lemma StaysBoth(tasks: seq<Task>, v: string, deps: seq<string>)
    ensures Filter(deps, Both(NotGivenUp(Reports(tasks), v), Known(Ids(tasks)))) == Filter(deps, StaysIn(tasks, v))
  {
    var both := Both(NotGivenUp(Reports(tasks), v), Known(Ids(tasks)));
    forall d | d in deps ensures both(d) == StaysIn(tasks, v)(d) {
      DroppedIsGivenUp(Reports(tasks), v, d);
      IdsAreNames(tasks, d);
    }
    SameKept(deps, both, StaysIn(tasks, v));
  }

  lemma IdsAreNames(tasks: seq<Task>, d: string)
    ensures d in Ids(tasks) <==> exists k :: 0 <= k < |tasks| && tasks[k].id == d
  {
    if k :| 0 <= k < |tasks| && tasks[k].id == d { assert tasks[k] in tasks; }
    if d in Ids(tasks) {
      var t :| t in tasks && t.id == d;
      var k :| 0 <= k < |tasks| && tasks[k] == t;
    }
  }

  // ---- the plan ----

  /** The task that stands for component c before repair looks at its edges. */
  ghost predicate StandsFor(c: Component, t: Task) {
    && t.id == "T-" + c.id && t.componentId == c.id && t.branch == "task/" + c.id
    && t.gateIds == c.gateIds && t.contractIds == c.contractIds && t.acceptanceIds == c.acceptanceIds
    && t.attempts == 0 && !t.sandbox && t.submittedFiles == [] && t.evidence == []
    && (c.owns != [] ==> t.owns == c.owns && t.state == Pending)
    && (c.owns == [] ==> t.owns == ["docs/" + (if c.id != "" then c.id else t.id) + ".md"] && t.state == Ready)
  }

  lemma {:induction false} TasksStand(cs: seq<Component>)
    ensures |TasksFor(cs)| == |cs|
    ensures forall i :: 0 <= i < |cs| ==> TasksFor(cs)[i] == TaskFor(cs[i])
  {
    if cs != [] { TasksStand(cs[1..]); }
  }

  /** Each component becomes the task that stands for it, and depends on the tasks of the components it named, in
      their order, as far as they stay. */
  lemma PlanStandsFor(spec: Spec, i: nat) returns (names: seq<string>)
    requires i < |spec.components| && UniqueIds(TasksFor(spec.components))
    ensures var ts := RepairPlan(Draft(spec)).tasks;
            && |ts| == |spec.components| && StandsFor(spec.components[i], ts[i])
            && TaskNames(spec.components[i].dependsOn, names)
            && ts[i].dependsOn == Filter(names, StaysIn(TasksFor(spec.components), ts[i].id))
  {
    var ts := TasksFor(spec.components);
    TasksStand(spec.components);
    names := Prefixed(spec.components[i].dependsOn);
    PrefixedNames(spec.components[i].dependsOn);
    RepairAt(ts, i, "");
    RepairKeeps(ts, i);
  }

  function Gateless(): Criterion -> bool {
    (c: Criterion) => c.gates == []
  }

  /** A gate that looks for a file, made for a criterion that named none. */
  ghost predicate ProbesFor(c: Criterion, g: Gate) {
    g.id == "G-probe-" + c.id && g.kind == Files && g.scope == System && g.required && g.attributedTo == []
  }

  ghost predicate KeptOrProbed(c: Criterion, r: Criterion) {
    r == if c.gates == [] then Criterion(c.id, ["G-probe-" + c.id]) else c
  }

  lemma {:induction false} ProbesStand(a: seq<Criterion>)
    ensures |Probes(a)| == |Filter(a, Gateless())|
    ensures forall j :: 0 <= j < |Probes(a)| ==> ProbesFor(Filter(a, Gateless())[j], Probes(a)[j])
  {
    if a != [] { ProbesStand(a[1..]); }
  }

  /** The gates of the plan are those of the intent, and after them a probe for each criterion that named none, in
      order; contracts stay, and a criterion without a gate names its probe. */
  lemma PlanHasGates(spec: Spec) returns (ks: seq<nat>, probes: seq<Gate>)
    ensures var p := RepairPlan(Draft(spec));
            && Keeping(spec.acceptance, Gateless(), ks) && p.gates == spec.gates + probes && |probes| == |ks|
            && (forall j :: 0 <= j < |ks| ==> ProbesFor(spec.acceptance[ks[j]], probes[j]))
            && p.contracts == spec.contracts && |p.acceptance| == |spec.acceptance|
            && forall i :: 0 <= i < |spec.acceptance| ==> KeptOrProbed(spec.acceptance[i], p.acceptance[i])
  {
    ks := FilterKeeps(spec.acceptance, Gateless());
    probes := Probes(spec.acceptance);
    ProbesStand(spec.acceptance);
    if spec.acceptance != [] { ProbedAt(spec.acceptance, 0); }
    forall i | 0 <= i < |spec.acceptance|
      ensures |Probed(spec.acceptance)| == |spec.acceptance|
      ensures KeptOrProbed(spec.acceptance[i], Probed(spec.acceptance)[i])
    {
      ProbedAt(spec.acceptance, i);
    }
  }
}
