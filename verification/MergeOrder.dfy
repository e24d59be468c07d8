/** What integration merges, and when the order of merges goes wrong (minifleet/scheduler.py, ingest and integrate). */
module MergeOrder {
  import opened Text
  import opened TaskGraph
  import opened Layering
  import opened Batches
  import opened Scopes
  import opened Gates
  import opened Model
  import opened FleetModel
  import opened FleetSafety
  import opened PlanKeeping

  // ---- one walk along the waves ----

  lemma {:induction false} FlattenMembers(waves: seq<seq<string>>, i: nat, x: string)
    requires i < |waves| && x in waves[i]
    ensures x in Flatten(waves)
  {
    if i > 0 { FlattenMembers(waves[1..], i - 1, x); }
  }

  /** Every task occurs in the merge order. */
  lemma OrderCoversTasks(ts: seq<Task>, i: nat)
    requires PlanOf(DependencyDict(ts)).Waves? && i < |ts|
    ensures ts[i].id in Flatten(PlanOf(DependencyDict(ts)).batches)
  {
    var d := DependencyDict(ts);
    var b := PlanOf(d).batches;
    PlanExact(d);
    GraphKeys(ts, ts[i].id);
    assert ts[i].id in Done(d.table, |b|);
    var k := WaveOf(d.table, |b|, ts[i].id);
    assert IsWave(d.table, b[k], 0 + k);
    assert ts[i].id in Elements(b[k]);
    FlattenMembers(b, k, ts[i].id);
  }

  ghost predicate VerifiedOnlyIn(ts: seq<Task>, order: seq<string>) {
    forall i :: 0 <= i < |ts| && ts[i].state == Verified ==> ts[i].id in order
  }

  /** When git does its part, walking an order that names every verified task merges all of them. */
  lemma {:induction false} MergeAlongMergesAll(ts: seq<Task>, log: seq<string>, order: seq<string>, w: GitWorld)
    requires UniqueIds(ts) && VerifiedOnlyIn(ts, order) && forall x :: x in order ==> w.mergeOk(x)
    ensures var m := MergeAlong(ts, log, order, w);
            && m.ok && log <= m.log
            && forall i :: 0 <= i < |ts| ==> m.tasks[i].state == if ts[i].state == Verified then Merged else ts[i].state
    ensures forall i :: 0 <= i < |ts| && ts[i].state == Verified ==> ts[i].id in MergeAlong(ts, log, order, w).log
    decreases |order|
  {
    if order != [] {
      var i := Find(ts, order[0]);
      assert order == [order[0]] + order[1..];
      if i == |ts| || ts[i].state != Verified {
        OthersInRest(ts, order);
        MergeAlongMergesAll(ts, log, order[1..], w);
      } else {
        var us := ts[i := ts[i].(state := Merged)];
        SkeletonKeepsIds(ts, us);
        OthersInRest(us, order);
        MergeAlongMergesAll(us, log + [order[0]], order[1..], w);
        assert MergeAlong(ts, log, order, w).log[|log|] == order[0];
      }
    }
  }

  lemma OthersInRest(ts: seq<Task>, order: seq<string>)
    requires UniqueIds(ts) && order != [] && VerifiedOnlyIn(ts, order)
    requires var i := Find(ts, order[0]); i == |ts| || ts[i].state != Verified
    ensures VerifiedOnlyIn(ts, order[1..])
  {
    forall j | 0 <= j < |ts| && ts[j].state == Verified ensures ts[j].id in order[1..] {
      FindUnique(ts, j);
      InRest(order, ts[j].id);
    }
  }

  lemma InRest(s: seq<string>, x: string)
    requires s != [] && x in s && x != s[0]
    ensures x in s[1..]
  {
    var i :| 0 <= i < |s| && s[i] == x;
    assert s[1..][i - 1] == x;
  }

  lemma {:induction false} BranchHasTask(ts: seq<Task>, w: GitWorld, b: string) returns (i: nat)
    requires b in VerifiedBranches(ts, w).table
    ensures i < |ts| && ts[i].state == Verified && ts[i].branch == b
        && VerifiedBranches(ts, w).table[b] == w.diff(ts[i].id)
  {
    var n := |ts| - 1;
    if ts[n].state == Verified && ts[n].branch == b {
      i := n;
    } else {
      i := BranchHasTask(ts[..n], w, b);
    }
  }

  /** Only tasks that were verified are merged. */
  lemma {:induction false} MergedWereVerified(ts: seq<Task>, log: seq<string>, order: seq<string>, w: GitWorld,
                                              x: string)
    requires x in MergeAlong(ts, log, order, w).log && x !in log
    ensures exists i :: 0 <= i < |ts| && ts[i].id == x && ts[i].state == Verified
    decreases |order|
  {
    if order != [] {
      var i := Find(ts, order[0]);
      if i == |ts| || ts[i].state != Verified {
        MergedWereVerified(ts, log, order[1..], w, x);
      } else if w.mergeOk(order[0]) && x != ts[i].id {
        var us := ts[i := ts[i].(state := Merged)];
        MergedWereVerified(us, log + [order[0]], order[1..], w, x);
        var j :| 0 <= j < |us| && us[j].id == x && us[j].state == Verified;
        assert ts[j] == us[j];
      }
    }
  }

  /** Git reports no changed files, and everything it is asked to do works. */
  function QuietWorld(): GitWorld {
    GitWorld(id => [], true, id => true)
  }

  lemma QuietDisjoint(ts: seq<Task>)
    ensures IsDisjoint(VerifiedBranches(ts, QuietWorld()))
  {
    var d := VerifiedBranches(ts, QuietWorld());
    forall a | a in d.table ensures d.table[a] == [] {
      var i := BranchHasTask(ts, QuietWorld(), a);
    }
  }

  lemma QuietMerges(f: Fleet)
    requires UniqueIds(f.tasks) && PlanOf(DependencyDict(f.tasks)).Waves?
    ensures forall i :: 0 <= i < |f.tasks| && f.tasks[i].state == Verified ==>
              f.tasks[i].id in Integrate(f, QuietWorld()).mergeLog
    ensures forall x :: x in Integrate(f, QuietWorld()).mergeLog && x !in f.mergeLog ==>
              exists i :: 0 <= i < |f.tasks| && f.tasks[i].id == x && f.tasks[i].state == Verified
  {
    var order := Flatten(PlanOf(DependencyDict(f.tasks)).batches);
    QuietDisjoint(f.tasks);
    forall i | 0 <= i < |f.tasks| ensures f.tasks[i].id in order {
      OrderCoversTasks(f.tasks, i);
    }
    MergeAlongMergesAll(f.tasks, f.mergeLog, order, QuietWorld());
    forall x | x in Integrate(f, QuietWorld()).mergeLog && x !in f.mergeLog
      ensures exists i :: 0 <= i < |f.tasks| && f.tasks[i].id == x && f.tasks[i].state == Verified
    {
      MergedWereVerified(f.tasks, f.mergeLog, order, QuietWorld(), x);
    }
  }

  // ---- out of order ----

  /** Nobody is about to merge d. */
  ghost predicate NotVerified(ts: seq<Task>, d: string) {
    forall j :: 0 <= j < |ts| && ts[j].id == d ==> ts[j].state != Verified
  }

  lemma EntryHasDependency(ts: seq<Task>, log: seq<string>, k: nat, i: nat, d: string)
    requires UniqueIds(ts) && k < |log| && EntryOk(ts, log, k)
    requires i < |ts| && ts[i].id == log[k] && d in ts[i].dependsOn
    ensures d in log
  {
    var m :| 0 <= m < |ts| && ts[m].id == log[k] && Elements(ts[m].dependsOn) <= Elements(log[..k]);
    assert m == i by { assert UniqueIds(ts); }
    assert d in Elements(ts[i].dependsOn);
    assert d in log[..k];
  }

  lemma MissingBreaksLog(ts: seq<Task>, log: seq<string>, i: nat, d: string)
    requires UniqueIds(ts) && i < |ts| && ts[i].id in log && d in ts[i].dependsOn && d !in log
    ensures !LogOk(ts, log)
  {
    var k :| 0 <= k < |log| && log[k] == ts[i].id;
    if EntryOk(ts, log, k) { EntryHasDependency(ts, log, k, i, d); }
  }

  /** A verified task with a dependency that was never merged, and is not about to be, is merged out of order. */
  lemma MergesTooEarly(f: Fleet, i: nat, d: string)
    requires UniqueIds(f.tasks) && PlanOf(DependencyDict(f.tasks)).Waves?
    requires i < |f.tasks| && f.tasks[i].state == Verified && d in f.tasks[i].dependsOn
    requires d !in f.mergeLog && NotVerified(f.tasks, d)
    ensures !LogOk(Integrate(f, QuietWorld()).tasks, Integrate(f, QuietWorld()).mergeLog)
  {
    var g := Integrate(f, QuietWorld());
    QuietMerges(f);
    IntegrateKeeps(f, QuietWorld());
    assert KeepsAt(f.tasks[i], g.tasks[i]);
    forall j | 0 <= j < |f.tasks| ensures SamePlanAt(f.tasks[j], g.tasks[j]) {
      assert KeepsAt(f.tasks[j], g.tasks[j]);
    }
    SamePlanSameIds(f.tasks, g.tasks);
    MissingBreaksLog(g.tasks, g.mergeLog, i, d);
  }

  /** Accepted work whose dependency is neither merged nor verified is merged too early by the next integration. */
  lemma AcceptedMergesTooEarly(glob: Glob, f: Fleet, i: nat, s: Submission, d: string)
    requires UniqueIds(f.tasks) && PlanOf(DependencyDict(f.tasks)).Waves? && i < |f.tasks| && Accepts(glob, f, i, s)
    requires d in f.tasks[i].dependsOn && d !in f.mergeLog && NotVerified(f.tasks, d)
    ensures var g := Integrate(IngestAt(glob, f, i, s), QuietWorld()); !LogOk(g.tasks, g.mergeLog)
  {
    IngestedState(glob, f, i, s);
    AnIngestedTask(glob, f, i, s);
    NoSelfDependency(f.tasks, i, d);
    MergesTooEarly(IngestAt(glob, f, i, s), i, d);
  }

  /** Every run that goes on from f merges in order. */
  ghost predicate StaysInOrder(glob: Glob, f: Fleet) {
    forall states: seq<Fleet>, steps: seq<Step>, k: nat {:trigger FromTo(glob, f, states, steps, k)} ::
      FromTo(glob, f, states, steps, k) ==> LogOk(states[k].tasks, states[k].mergeLog)
  }

  ghost predicate FromTo(glob: Glob, f: Fleet, states: seq<Fleet>, steps: seq<Step>, k: nat) {
    IsRun(glob, states, steps) && states[0] == f && k <= |steps|
  }

  lemma OrderedStays(glob: Glob, f: Fleet)
    requires Inv(glob, f)
    ensures StaysInOrder(glob, f)
  {
    forall states: seq<Fleet>, steps: seq<Step>, k: nat | FromTo(glob, f, states, steps, k)
      ensures LogOk(states[k].tasks, states[k].mergeLog)
    {
      RunKeepsInv(glob, states, steps, k);
    }
  }

  /** An allowed step put before a run makes a run. */
  lemma PrependStep(glob: Glob, f: Fleet, step: Step, states: seq<Fleet>, steps: seq<Step>, k: nat)
    requires Allowed(glob, f, step) && FromTo(glob, Perform(glob, f, step), states, steps, k)
    ensures FromTo(glob, f, [f] + states, [step] + steps, k + 1)
  {
    forall i: nat | i < |[step] + steps|
      ensures Performed(glob, [f] + states, [step] + steps, i) && AllowedAt(glob, [f] + states, [step] + steps, i)
    {
      PrependedStep(glob, f, step, states, steps, i);
    }
  }

  lemma Shifted<T>(x: T, s: seq<T>, i: nat)
    requires 0 < i <= |s|
    ensures ([x] + s)[i] == s[i - 1]
  {
  }

  lemma PerformedHere(glob: Glob, states: seq<Fleet>, steps: seq<Step>, i: nat, before: Fleet, step: Step, after: Fleet)
    requires |states| == |steps| + 1 && i < |steps| && states[i] == before && steps[i] == step && states[i + 1] == after
    requires after == Perform(glob, before, step)
    ensures Performed(glob, states, steps, i)
  {
  }

  lemma {:induction false} PrependedStep(glob: Glob, f: Fleet, step: Step, states: seq<Fleet>, steps: seq<Step>, i: nat)
    requires Allowed(glob, f, step) && IsRun(glob, states, steps) && states[0] == Perform(glob, f, step)
    requires i <= |steps|
    ensures Performed(glob, [f] + states, [step] + steps, i) && AllowedAt(glob, [f] + states, [step] + steps, i)
  {
    Shifted(f, states, i + 1);
    if i == 0 {
      PerformedHere(glob, [f] + states, [step] + steps, 0, f, step, states[0]);
    } else {
      Shifted(f, states, i);
      Shifted(step, steps, i);
      assert Performed(glob, states, steps, i - 1) && AllowedAt(glob, states, steps, i - 1);
      PerformedHere(glob, [f] + states, [step] + steps, i, states[i - 1], steps[i - 1], states[i]);
    }
  }

  /** What stays in order stays so after an allowed step. */
  lemma StaysAfter(glob: Glob, f: Fleet, step: Step)
    requires StaysInOrder(glob, f) && Allowed(glob, f, step)
    ensures StaysInOrder(glob, Perform(glob, f, step))
  {
    var g := Perform(glob, f, step);
    forall states: seq<Fleet>, steps: seq<Step>, k: nat | FromTo(glob, g, states, steps, k)
      ensures LogOk(states[k].tasks, states[k].mergeLog)
    {
      PrependStep(glob, f, step, states, steps, k);
      assert ([f] + states)[k + 1] == states[k];
    }
  }

  lemma StaysMeansNow(glob: Glob, f: Fleet)
    requires StaysInOrder(glob, f)
    ensures LogOk(f.tasks, f.mergeLog)
  {
    assert FromTo(glob, f, [f], [], 0);
  }

  /** Every scope leaves some path out, so that a submission can be refused. */
  ghost predicate ScopesAreProper(glob: Glob, ts: seq<Task>) {
    forall i :: 0 <= i < |ts| ==> LeavesOut(glob, ts[i].owns)
  }

  ghost predicate LeavesOut(glob: Glob, owns: seq<string>) {
    exists p :: !Within(glob, p, owns)
  }

  function Longest(owns: seq<string>): (n: nat)
    ensures forall p :: p in owns ==> |p| <= n
  {
    if owns == [] then 0
    else
      var n := Longest(owns[1..]);
      assert forall p :: p in owns ==> p == owns[0] || p in owns[1..];
      if |owns[0]| > n then |owns[0]| else n
  }

  /** A plain scope always leaves some path out: a name longer than any of its patterns. */
  lemma PlainLeavesOut(glob: Glob, owns: seq<string>)
    requires Literal(glob) && forall p :: p in owns ==> WildcardFree(p)
    ensures LeavesOut(glob, owns)
  {
    var path := seq(Longest(owns) + 1, k => 'a');
    forall k | 0 <= k < |owns| ensures !Admits(glob, owns[k], path) {
      assert owns[k] in owns;
      AdmitsIff(glob, owns[k], path);
      var below := Strip(owns[k]) + "/";
      assert below[|below| - 1] == '/';
    }
    assert !Within(glob, path, owns);
  }

  /** Handing in a file outside the scope fails the task, whatever state it was in. */
  lemma RefusedFails(glob: Glob, f: Fleet, d: string) returns (s: Submission)
    requires UniqueIds(f.tasks) && ScopesAreProper(glob, f.tasks)
    ensures Allowed(glob, f, DoIngest(d, s))
    ensures var g := Ingest(glob, f, d, s);
            && g.mergeLog == f.mergeLog && |g.tasks| == |f.tasks| && NotVerified(g.tasks, d)
            && forall j :: 0 <= j < |f.tasks| && f.tasks[j].id != d ==> g.tasks[j] == f.tasks[j]
  {
    var nothing: nat -> Observation := k => Observation(Fail, map[]);
    s := Submission([], nothing);
    var j := Find(f.tasks, d);
    if j < |f.tasks| {
      assert LeavesOut(glob, f.tasks[j].owns);
      var p :| !Within(glob, p, f.tasks[j].owns);
      s := Submission([p], nothing);
      assert p in s.files;
      IngestedState(glob, f, j, s);
      forall m | 0 <= m < |f.tasks| && f.tasks[m].id == d ensures m == j {
        FindUnique(f.tasks, m);
      }
    }
  }

  /** A verified task with an unmerged dependency can be merged too early: someone hands in refused work for the
      dependency, and integration follows. */
  lemma VerifiedTooEarly(glob: Glob, g: Fleet, i: nat, d: string)
    requires UniqueIds(g.tasks) && PlanOf(DependencyDict(g.tasks)).Waves? && ScopesAreProper(glob, g.tasks)
    requires i < |g.tasks| && g.tasks[i].state == Verified && d in g.tasks[i].dependsOn && d !in g.mergeLog
    ensures !StaysInOrder(glob, g)
  {
    var s := RefusedFails(glob, g, d);
    NoSelfDependency(g.tasks, i, d);
    SamePlanAfterIngest(glob, g, d, s);
    MergesTooEarly(Ingest(glob, g, d, s), i, d);
    IngestThenIntegrate(glob, g, d, s);
  }

  lemma SamePlanAfterIngest(glob: Glob, g: Fleet, id: string, s: Submission)
    requires UniqueIds(g.tasks)
    ensures var h := Ingest(glob, g, id, s);
            UniqueIds(h.tasks) && DependencyDict(h.tasks) == DependencyDict(g.tasks)
  {
    IngestKeepsPlan(glob, g, id, s);
    SamePlanSameDict(g.tasks, Ingest(glob, g, id, s).tasks);
    SamePlanSameIds(g.tasks, Ingest(glob, g, id, s).tasks);
  }

  lemma IngestThenIntegrate(glob: Glob, g: Fleet, d: string, s: Submission)
    requires Allowed(glob, g, DoIngest(d, s))
    requires var r := Integrate(Ingest(glob, g, d, s), QuietWorld()); !LogOk(r.tasks, r.mergeLog)
    ensures !StaysInOrder(glob, g)
  {
    if StaysInOrder(glob, g) {
      StaysAfter(glob, g, DoIngest(d, s));
      IntegrateStays(glob, Ingest(glob, g, d, s), QuietWorld());
    }
  }

  lemma IntegrateStays(glob: Glob, f: Fleet, w: GitWorld)
    requires StaysInOrder(glob, f)
    ensures LogOk(Integrate(f, w).tasks, Integrate(f, w).mergeLog)
  {
    StaysAfter(glob, f, DoIntegrate(w));
    StaysMeansNow(glob, Integrate(f, w));
  }

  /** After an ingest that is not allowed, some run goes on to merge the task before a dependency. */
  lemma UnorderedIngestBreaks(glob: Glob, f: Fleet, i: nat, s: Submission)
    requires Inv(glob, f) && PlanOf(DependencyDict(f.tasks)).Waves? && ScopesAreProper(glob, f.tasks)
    requires i < |f.tasks| && !IngestInOrder(glob, f, i, s)
    ensures !StaysInOrder(glob, IngestAt(glob, f, i, s))
  {
    var d :| d in f.tasks[i].dependsOn && d !in f.mergeLog;
    IngestedState(glob, f, i, s);
    AnIngestedTask(glob, f, i, s);
    VerifiedTooEarly(glob, IngestAt(glob, f, i, s), i, d);
  }

  lemma AnIngestedTask(glob: Glob, f: Fleet, i: nat, s: Submission)
    requires UniqueIds(f.tasks) && i < |f.tasks|
    ensures var g := IngestAt(glob, f, i, s);
            && UniqueIds(g.tasks) && DependencyDict(g.tasks) == DependencyDict(f.tasks) && g.mergeLog == f.mergeLog
            && (ScopesAreProper(glob, f.tasks) ==> ScopesAreProper(glob, g.tasks))
            && g.tasks[i].id == f.tasks[i].id && g.tasks[i].dependsOn == f.tasks[i].dependsOn
  {
    var g := IngestAt(glob, f, i, s);
    assert SamePlan(f.tasks, g.tasks) by {
      forall j | 0 <= j < |f.tasks| ensures SamePlanAt(f.tasks[j], g.tasks[j]) {}
    }
    SamePlanSameDict(f.tasks, g.tasks);
    SamePlanSameIds(f.tasks, g.tasks);
    if ScopesAreProper(glob, f.tasks) {
      forall j | 0 <= j < |g.tasks| ensures LeavesOut(glob, g.tasks[j].owns) {
        assert LeavesOut(glob, f.tasks[j].owns) && g.tasks[j].owns == f.tasks[j].owns;
      }
    }
  }

  lemma LoopIsCycle(g: Graph<string>, d: string)
    requires d in Deps(g, d)
    ensures IsCycle(g, [d])
  {
  }

  lemma NoSelfDependency(ts: seq<Task>, i: nat, d: string)
    requires UniqueIds(ts) && PlanOf(DependencyDict(ts)).Waves? && i < |ts| && d in ts[i].dependsOn
    ensures d != ts[i].id
  {
    PlanExact(DependencyDict(ts));
    GraphLookup(ts, i);
    if d == ts[i].id { LoopIsCycle(GraphOf(ts), d); }
  }

  /** Ingesting a task, in whatever state, leaves every later run in order exactly when the work is refused or
      the dependencies of the task have been merged. */
  lemma IngestStaysInOrderIff(glob: Glob, f: Fleet, i: nat, s: Submission)
    requires Inv(glob, f) && PlanOf(DependencyDict(f.tasks)).Waves? && ScopesAreProper(glob, f.tasks)
    requires i < |f.tasks|
    ensures StaysInOrder(glob, IngestAt(glob, f, i, s)) <==> IngestInOrder(glob, f, i, s)
  {
    if IngestInOrder(glob, f, i, s) {
      IngestKeepsInvIff(glob, f, i, s);
      OrderedStays(glob, IngestAt(glob, f, i, s));
    } else {
      UnorderedIngestBreaks(glob, f, i, s);
    }
  }

  // ---- a concrete run ----

  ghost predicate ChainOfTwo(ts: seq<Task>) {
    |ts| == 2 && ts[0].id != ts[1].id && ts[0].dependsOn == [] && ts[1].dependsOn == [ts[0].id]
  }

  lemma ChainOfTwoGraph(ts: seq<Task>)
    requires ChainOfTwo(ts)
    ensures UniqueIds(ts) && GraphOf(ts) == map[ts[0].id := [], ts[1].id := [ts[0].id]]
  {
    GraphLookup(ts, 0);
    GraphLookup(ts, 1);
    forall x | x in GraphOf(ts) ensures x == ts[0].id || x == ts[1].id {
      GraphKeys(ts, x);
    }
  }

  lemma ChainOfTwoLayers(ts: seq<Task>)
    requires ChainOfTwo(ts)
    ensures Layers(GraphOf(ts), 2)
  {
    var a, b := ts[0].id, ts[1].id;
    var g := map[a := [], b := [a]];
    ChainOfTwoGraph(ts);
    assert Elements<string>([]) == {} && Elements([a]) == {a};
    assert Done(g, 0) == {};
    assert Wave(g, {}) == {a} by { assert a in g && b in g && !(Elements(g[b]) <= {}); }
    assert Done(g, 1) == {a};
    assert Wave(g, {a}) == {b};
    assert Done(g, 2) == g.Keys;
    assert Productive(g, 0) && Productive(g, 1);
  }

  lemma ChainOfTwoWaves(ts: seq<Task>)
    requires ChainOfTwo(ts)
    ensures UniqueIds(ts) && !HasCycle(GraphOf(ts))
    ensures PlanOf(DependencyDict(ts)).Waves? && |PlanOf(DependencyDict(ts)).batches| == 2
  {
    ChainOfTwoGraph(ts);
    ChainOfTwoLayers(ts);
    LayeringExistsIff(GraphOf(ts));
    PlanExact(DependencyDict(ts));
    LayersUnique(GraphOf(ts), |PlanOf(DependencyDict(ts)).batches|, 2);
  }

  /** Two pending tasks, the second depending on the first. */
  function TwoTasks(): Fleet {
    Fleet([Bare("a", []), Bare("b", ["a"])], [], Planning, NoVerdict, NoVerdict, [], map[], [], 0)
  }

  lemma TwoTasksHaveWaves()
    ensures ChainOfTwo(TwoTasks().tasks)
    ensures UniqueIds(TwoTasks().tasks) && PlanOf(DependencyDict(TwoTasks().tasks)).Waves?
  {
    assert "a"[0] != "b"[0];
    ChainOfTwoWaves(TwoTasks().tasks);
  }

  lemma EmptyIsAccepted(glob: Glob, f: Fleet, i: nat, s: Submission)
    requires i < |f.tasks| && f.gates == [] && s.files == []
    ensures Accepts(glob, f, i, s)
  {
    assert EvidenceOf(TaskGates(f.gates, f.tasks[i]), f.metrics, s.observe, f.tasks[i].id) == [];
  }

  /** Ingesting the pending second task and integrating merges it without the first: the log is out of order. */
  lemma PendingIngestBreaksOrder(glob: Glob, observe: nat -> Observation)
    ensures var g := Integrate(IngestAt(glob, TwoTasks(), 1, Submission([], observe)), QuietWorld());
            Find(TwoTasks().tasks, "b") == 1 && TwoTasks().tasks[1].state == Pending && !LogOk(g.tasks, g.mergeLog)
  {
    TwoTasksHaveWaves();
    FindUnique(TwoTasks().tasks, 1);
    EmptyIsAccepted(glob, TwoTasks(), 1, Submission([], observe));
    AcceptedMergesTooEarly(glob, TwoTasks(), 1, Submission([], observe), "a");
  }
}
