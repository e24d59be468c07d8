/** Design repair and design review (minifleet/architect.py). */
module Architect {
  import opened Text
  import opened TaskGraph
  import opened CycleFinder
  import opened Model

  function TaskFor(c: Component): Task {
    Task("T-" + c.id, c.id, c.owns, Prefixed(c.dependsOn), c.gateIds, c.contractIds, c.acceptanceIds,
         Pending, 0, "task/" + c.id, false, [], [])
  }

  function Prefixed(ids: seq<string>): seq<string> {
    if ids == [] then [] else ["T-" + ids[0]] + Prefixed(ids[1..])
  }

  /** A task that claims no files gets a note to write, and is made ready at once. */
  function FillScope(t: Task): Task {
    if t.owns != [] then t
    else t.(owns := ["docs/" + (if t.componentId != "" then t.componentId else t.id) + ".md"], state := Ready)
  }

  function FillScopes(tasks: seq<Task>): seq<Task> {
    if tasks == [] then [] else [FillScope(tasks[0])] + FillScopes(tasks[1..])
  }

  function Victim(cycle: seq<string>): string
    requires cycle != []
  {
    SortKeepsElements(cycle);
    Sort(cycle)[0]
  }

  function Without(deps: seq<string>, dropped: seq<string>): seq<string> {
    if deps == [] then []
    else (if deps[0] in dropped then [] else [deps[0]]) + Without(deps[1..], dropped)
  }

  /** The member of the cycle with the smallest id stops depending on the others. */
  function BreakCycle(tasks: seq<Task>, cycle: seq<string>): (r: seq<Task>)
    ensures |r| == |tasks|
  {
    if cycle == [] then tasks
    else
      var i := Find(tasks, Victim(cycle));
      if i == |tasks| then tasks
      else tasks[i := tasks[i].(dependsOn := Without(tasks[i].dependsOn, cycle))]
  }

  function BreakCycles(tasks: seq<Task>, cycles: seq<seq<string>>): (r: seq<Task>)
    ensures |r| == |tasks|
    decreases |cycles|
  {
    if cycles == [] then tasks else BreakCycles(BreakCycle(tasks, cycles[0]), cycles[1..])
  }

  function KnownOnly(deps: seq<string>, known: set<string>): seq<string> {
    if deps == [] then []
    else (if deps[0] in known then [deps[0]] else []) + KnownOnly(deps[1..], known)
  }

  function DropUnknown(tasks: seq<Task>, known: set<string>): seq<Task> {
    if tasks == [] then []
    else [tasks[0].(dependsOn := KnownOnly(tasks[0].dependsOn, known))] + DropUnknown(tasks[1..], known)
  }

  /** What repair makes of the tasks: scopes filled, reported cycles broken, dangling dependencies dropped. */
  function RepairTasks(tasks: seq<Task>): seq<Task> {
    var scoped := FillScopes(tasks);
    var broken := BreakCycles(scoped, FindCycles(DependencyDict(scoped)));
    DropUnknown(broken, Ids(broken))
  }

  // ---- what each step does to one task ----

  lemma {:induction false} FillScopesAt(tasks: seq<Task>, i: nat)
    requires i < |tasks|
    ensures |FillScopes(tasks)| == |tasks| && FillScopes(tasks)[i] == FillScope(tasks[i])
  {
    if i > 0 { FillScopesAt(tasks[1..], i - 1); }
    else if |tasks| > 1 { FillScopesAt(tasks[1..], 0); }
  }

  lemma {:induction false} DropUnknownAt(tasks: seq<Task>, known: set<string>, i: nat)
    requires i < |tasks|
    ensures |DropUnknown(tasks, known)| == |tasks|
    ensures DropUnknown(tasks, known)[i] == tasks[i].(dependsOn := KnownOnly(tasks[i].dependsOn, known))
  {
    if i > 0 { DropUnknownAt(tasks[1..], known, i - 1); }
    else if |tasks| > 1 { DropUnknownAt(tasks[1..], known, 0); }
  }

  lemma {:induction false} WithoutMembers(deps: seq<string>, dropped: seq<string>, d: string)
    ensures d in Without(deps, dropped) <==> d in deps && d !in dropped
  {
    if deps != [] {
      assert deps == [deps[0]] + deps[1..];
      WithoutMembers(deps[1..], dropped, d);
    }
  }

  lemma {:induction false} KnownOnlyMembers(deps: seq<string>, known: set<string>, d: string)
    ensures d in KnownOnly(deps, known) <==> d in deps && d in known
  {
    if deps != [] {
      assert deps == [deps[0]] + deps[1..];
      KnownOnlyMembers(deps[1..], known, d);
    }
  }

  /** Task t differs from s in nothing but its dependencies. */
  ghost predicate SameButDeps(s: Task, t: Task) {
    t == s.(dependsOn := t.dependsOn)
  }

  /** Some reported cycle makes v give up d. */
  ghost predicate Dropped(cycles: seq<seq<string>>, v: string, d: string) {
    exists k :: 0 <= k < |cycles| && cycles[k] != [] && Victim(cycles[k]) == v && d in cycles[k]
  }

  lemma BreakCycleAt(tasks: seq<Task>, cycle: seq<string>, i: nat, d: string)
    requires UniqueIds(tasks) && i < |tasks|
    ensures UniqueIds(BreakCycle(tasks, cycle))
    ensures SameButDeps(tasks[i], BreakCycle(tasks, cycle)[i])
    ensures d in BreakCycle(tasks, cycle)[i].dependsOn <==>
              d in tasks[i].dependsOn && !Dropped([cycle], tasks[i].id, d)
  {
    if cycle != [] {
      assert [cycle][0] == cycle;
      var k := Find(tasks, Victim(cycle));
      if k < |tasks| { WithoutMembers(tasks[k].dependsOn, cycle, d); }
      if i == k {
        assert Dropped([cycle], tasks[i].id, d) <==> d in cycle;
      }
    }
  }

  /** Breaking cycles drops exactly the edges that the reported cycles name. */
  lemma {:induction false} BreakCyclesAt(tasks: seq<Task>, cycles: seq<seq<string>>, i: nat, d: string)
    requires UniqueIds(tasks) && i < |tasks|
    ensures UniqueIds(BreakCycles(tasks, cycles))
    ensures SameButDeps(tasks[i], BreakCycles(tasks, cycles)[i])
    ensures d in BreakCycles(tasks, cycles)[i].dependsOn <==>
              d in tasks[i].dependsOn && !Dropped(cycles, tasks[i].id, d)
    decreases |cycles|
  {
    if cycles != [] {
      BreakCycleAt(tasks, cycles[0], i, d);
      BreakCyclesAt(BreakCycle(tasks, cycles[0]), cycles[1..], i, d);
      DroppedSplit(cycles, tasks[i].id, d);
    }
  }

  lemma DroppedSplit(cycles: seq<seq<string>>, v: string, d: string)
    requires cycles != []
    ensures Dropped(cycles, v, d) <==> Dropped([cycles[0]], v, d) || Dropped(cycles[1..], v, d)
  {
    if k :| 0 <= k < |cycles| && cycles[k] != [] && Victim(cycles[k]) == v && d in cycles[k] {
      if k == 0 { assert [cycles[0]][0] == cycles[k]; } else { assert cycles[1..][k - 1] == cycles[k]; }
    }
    if k :| 0 <= k < |cycles[1..]| && cycles[1..][k] != [] && Victim(cycles[1..][k]) == v && d in cycles[1..][k] {
      assert cycles[k + 1] == cycles[1..][k];
    }
    if Dropped([cycles[0]], v, d) { assert cycles[0] == [cycles[0]][0]; }
  }

  // ---- what repair as a whole guarantees ----

  lemma {:induction false} SameDependencies(s: seq<Task>, t: seq<Task>)
    requires |s| == |t|
    requires forall i :: 0 <= i < |s| ==> s[i].id == t[i].id && s[i].dependsOn == t[i].dependsOn
    ensures DependencyDict(s) == DependencyDict(t)
  {
    if s != [] {
      var n := |s| - 1;
      SameDependencies(s[..n], t[..n]);
    }
  }

  /** The cycles repair acts on: those find_cycles reports for the tasks it was given. */
  function Reports(tasks: seq<Task>): seq<seq<string>> {
    FindCycles(DependencyDict(tasks))
  }

  lemma ScopesDoNotMatter(tasks: seq<Task>)
    ensures |FillScopes(tasks)| == |tasks|
    ensures forall i :: 0 <= i < |tasks| ==> FillScopes(tasks)[i] == FillScope(tasks[i])
    ensures Reports(FillScopes(tasks)) == Reports(tasks)
  {
    if tasks != [] { FillScopesAt(tasks, 0); }
    forall i | 0 <= i < |tasks| ensures FillScopes(tasks)[i] == FillScope(tasks[i]) {
      FillScopesAt(tasks, i);
    }
    SameDependencies(FillScopes(tasks), tasks);
  }

  lemma SameIds(s: seq<Task>, t: seq<Task>)
    requires |s| == |t| && forall i :: 0 <= i < |s| ==> s[i].id == t[i].id
    ensures Ids(s) == Ids(t)
  {
    forall x | x in Ids(s) ensures x in Ids(t) {
      var i :| 0 <= i < |s| && s[i].id == x;
      assert t[i] in t;
    }
    forall x | x in Ids(t) ensures x in Ids(s) {
      var i :| 0 <= i < |t| && t[i].id == x;
      assert s[i] in s;
    }
  }

  lemma FilledIds(tasks: seq<Task>)
    requires UniqueIds(tasks)
    ensures |FillScopes(tasks)| == |tasks| && UniqueIds(FillScopes(tasks))
    ensures forall j :: 0 <= j < |tasks| ==> FillScopes(tasks)[j].id == tasks[j].id
  {
    ScopesDoNotMatter(tasks);
    var filled := FillScopes(tasks);
    forall j | 0 <= j < |tasks| ensures filled[j].id == tasks[j].id {
      assert filled[j] == FillScope(tasks[j]);
    }
    forall i, j | 0 <= i < j < |tasks| ensures filled[i].id != filled[j].id {
      assert tasks[i].id != tasks[j].id;
    }
  }

  lemma BrokenIds(tasks: seq<Task>)
    requires UniqueIds(tasks)
    ensures |FillScopes(tasks)| == |tasks| && UniqueIds(FillScopes(tasks))
    ensures Ids(BreakCycles(FillScopes(tasks), Reports(tasks))) == Ids(tasks)
  {
    FilledIds(tasks);
    var broken := BreakCycles(FillScopes(tasks), Reports(tasks));
    forall j | 0 <= j < |tasks| ensures broken[j].id == tasks[j].id {
      BreakCyclesKeepsIds(FillScopes(tasks), Reports(tasks), j);
    }
    SameIds(broken, tasks);
  }

  /** The exact effect of repair on a task: its scope is filled, and an edge survives exactly
      when its target exists and no reported cycle drops it. */
  lemma RepairAt(tasks: seq<Task>, i: nat, d: string)
    requires UniqueIds(tasks) && i < |tasks|
    ensures |RepairTasks(tasks)| == |tasks|
    ensures SameButDeps(FillScope(tasks[i]), RepairTasks(tasks)[i])
    ensures d in RepairTasks(tasks)[i].dependsOn <==>
              d in tasks[i].dependsOn && d in Ids(tasks) && !Dropped(Reports(tasks), tasks[i].id, d)
  {
    ScopesDoNotMatter(tasks);
    BrokenIds(tasks);
    var broken := BreakCycles(FillScopes(tasks), Reports(tasks));
    assert RepairTasks(tasks) == DropUnknown(broken, Ids(tasks));
    BreakCyclesAt(FillScopes(tasks), Reports(tasks), i, d);
    DropUnknownAt(broken, Ids(tasks), i);
    KnownOnlyMembers(broken[i].dependsOn, Ids(tasks), d);
  }

  lemma RepairKeepsUniqueIds(tasks: seq<Task>)
    requires UniqueIds(tasks)
    ensures |RepairTasks(tasks)| == |tasks| && UniqueIds(RepairTasks(tasks))
    ensures forall i :: 0 <= i < |tasks| ==> RepairTasks(tasks)[i].id == tasks[i].id
  {
    if tasks != [] { RepairAt(tasks, 0, ""); }
    forall i | 0 <= i < |tasks| ensures |RepairTasks(tasks)| == |tasks| && RepairTasks(tasks)[i].id == tasks[i].id {
      RepairAt(tasks, i, "");
    }
  }

  lemma RepairedEdge(tasks: seq<Task>, v: string, d: string)
    requires UniqueIds(tasks)
    ensures d in Deps(GraphOf(RepairTasks(tasks)), v) <==>
              d in Deps(GraphOf(tasks), v) && d in Ids(tasks) && !Dropped(Reports(tasks), v, d)
  {
    RepairKeepsUniqueIds(tasks);
    GraphKeys(tasks, v);
    GraphKeys(RepairTasks(tasks), v);
    if v in GraphOf(tasks) {
      var i :| 0 <= i < |tasks| && tasks[i].id == v;
      GraphLookup(tasks, i);
      GraphLookup(RepairTasks(tasks), i);
      RepairAt(tasks, i, d);
    }
  }

  /** Repair adds no edge: its graph is a subgraph of the graph it was given. */
  lemma RepairOnlyRemovesEdges(tasks: seq<Task>, v: string, d: string)
    requires UniqueIds(tasks) && d in Deps(GraphOf(RepairTasks(tasks)), v)
    ensures d in Deps(GraphOf(tasks), v)
  {
    RepairedEdge(tasks, v, d);
  }

  /** Each reported cycle loses at least the edge that leaves its victim. */
  lemma RepairBreaksReportedCycles(tasks: seq<Task>, k: nat)
    requires UniqueIds(tasks) && k < |Reports(tasks)|
    ensures !IsCycle(GraphOf(RepairTasks(tasks)), Reports(tasks)[k])
  {
    var c := Reports(tasks)[k];
    FindCyclesExact(DependencyDict(tasks));
    assert c in Reports(tasks);
    var v := Victim(c);
    SortKeepsElements(c);
    assert v in Elements(Sort(c));
    var i :| 0 <= i < |c| && c[i] == v;
    var next := if i + 1 < |c| then c[i + 1] else c[0];
    assert Dropped(Reports(tasks), v, next);
    RepairedEdge(tasks, v, next);
    if i + 1 < |c| { assert !Follows(GraphOf(RepairTasks(tasks)), c, i); }
  }

  /** Some step of the cycle c is an edge that repair drops. */
  ghost predicate Cut(tasks: seq<Task>, c: seq<string>)
    requires c != []
  {
    exists i :: 0 <= i < |c| && Dropped(Reports(tasks), c[i], NextOn(c, i))
  }

  lemma CycleMembersDeclared(tasks: seq<Task>, c: seq<string>)
    requires IsCycle(GraphOf(tasks), c)
    ensures forall i :: 0 <= i < |c| ==> c[i] in Ids(tasks)
  {
    CycleSteps(GraphOf(tasks), c);
    forall i | 0 <= i < |c| ensures c[i] in Ids(tasks) {
      assert NextOn(c, i) in Deps(GraphOf(tasks), c[i]);
      GraphKeys(tasks, c[i]);
      var j :| 0 <= j < |tasks| && tasks[j].id == c[i];
      assert tasks[j] in tasks;
    }
  }

  /** A cycle of the original graph survives repair exactly when no reported cycle cuts it. */
  lemma CycleSurvivesIff(tasks: seq<Task>, c: seq<string>)
    requires UniqueIds(tasks) && IsCycle(GraphOf(tasks), c)
    ensures IsCycle(GraphOf(RepairTasks(tasks)), c) <==> !Cut(tasks, c)
  {
    var g, r := GraphOf(tasks), GraphOf(RepairTasks(tasks));
    CycleSteps(g, c);
    CycleSteps(r, c);
    CycleMembersDeclared(tasks, c);
    forall i | 0 <= i < |c|
      ensures NextOn(c, i) in Deps(r, c[i]) <==> !Dropped(Reports(tasks), c[i], NextOn(c, i))
    {
      RepairedEdge(tasks, c[i], NextOn(c, i));
      assert NextOn(c, i) in Deps(g, c[i]);
      assert NextOn(c, i) in Ids(tasks);
    }
  }

  /** Repair leaves an acyclic graph exactly when the reported cycles cut every simple cycle. */
  lemma RepairAcyclicIff(tasks: seq<Task>)
    requires UniqueIds(tasks)
    ensures !HasCycle(GraphOf(RepairTasks(tasks)))
       <==> forall c :: IsSimpleCycle(GraphOf(tasks), c) ==> Cut(tasks, c)
  {
    var g, r := GraphOf(tasks), GraphOf(RepairTasks(tasks));
    if !HasCycle(r) {
      forall c | IsSimpleCycle(g, c) ensures Cut(tasks, c) {
        CycleSurvivesIff(tasks, c);
      }
    } else {
      FindCyclesExact(DependencyDict(RepairTasks(tasks)));
      var c := FindCycles(DependencyDict(RepairTasks(tasks)))[0];
      assert IsSimpleCycle(r, c);
      CycleSteps(g, c);
      CycleSteps(r, c);
      forall i | 0 <= i < |c| ensures NextOn(c, i) in Deps(g, c[i]) {
        assert NextOn(c, i) in Deps(r, c[i]);
        RepairOnlyRemovesEdges(tasks, c[i], NextOn(c, i));
      }
      CycleSurvivesIff(tasks, c);
    }
  }

  lemma {:induction false} BreakCyclesKeepsIds(tasks: seq<Task>, cycles: seq<seq<string>>, i: nat)
    requires i < |tasks|
    ensures BreakCycles(tasks, cycles)[i].id == tasks[i].id
    decreases |cycles|
  {
    if cycles != [] { BreakCyclesKeepsIds(BreakCycle(tasks, cycles[0]), cycles[1..], i); }
  }

  /** After repair every dependency names a task, whether or not ids repeat. */
  lemma RepairCloses(tasks: seq<Task>)
    ensures Closed(GraphOf(RepairTasks(tasks)))
  {
    var scoped := FillScopes(tasks);
    var broken := BreakCycles(scoped, FindCycles(DependencyDict(scoped)));
    var r := RepairTasks(tasks);
    forall n, d | n in GraphOf(r) && d in GraphOf(r)[n] ensures d in GraphOf(r) {
      GraphKeys(r, n);
      var i :| 0 <= i < |r| && r[i].id == n && GraphOf(r)[n] == r[i].dependsOn;
      if broken != [] { DropUnknownAt(broken, Ids(broken), 0); }
      DropUnknownAt(broken, Ids(broken), i);
      KnownOnlyMembers(broken[i].dependsOn, Ids(broken), d);
      var j :| 0 <= j < |broken| && broken[j].id == d;
      DropUnknownAt(broken, Ids(broken), j);
      assert r[j].id == d;
      GraphKeys(r, d);
    }
  }
}
