/** The autopilot makes progress: everything is merged, wave by wave (minifleet/cli.py, cmd_autopilot). */
module Progress {
  import opened Text
  import opened Options
  import opened TaskGraph
  import opened Layering
  import opened Batches
  import opened Scopes
  import opened Gates
  import opened Model
  import opened FleetModel
  import opened FleetSafety
  import opened FleetBudget
  import opened PlanKeeping
  import opened MergeOrder
  import opened Autopilot
  import opened Scheduler

  // ---- what a run meets ----

  /** The plan as it was at the start, its gates, the outside world round by round, and how many rounds in a row a
      task may be tried before a result of it is accepted. */
  datatype Course = Course(
    glob: Glob, plan: seq<Task>, gates: seq<Gate>, world: nat -> RoundWorld, patience: nat)

  function PlanGraph(c: Course): Graph<string> {
    GraphOf(c.plan)
  }

  /** Accepted whatever has been measured so far. */
  ghost predicate Welcome(glob: Glob, gates: seq<Gate>, t: Task, s: Submission) {
    Inside(glob, s.files, t.owns) && forall m: Metrics :: PassesWith(gates, t, s, m)
  }

  ghost predicate PassesWith(gates: seq<Gate>, t: Task, s: Submission, m: Metrics) {
    AllPass(EvidenceOf(TaskGates(gates, t), m, s.observe, t.id))
  }

  /** In round r the i-th task is handed in, and accepted. */
  ghost predicate Lands(c: Course, i: nat, r: nat)
    requires i < |c.plan|
  {
    var t, w := c.plan[i], c.world(r);
    w.submitted(t.id) && Welcome(c.glob, c.gates, t, w.work(t.id))
  }

  ghost predicate LandsWithin(c: Course, i: nat, r: nat)
    requires i < |c.plan|
  {
    exists j: nat :: r <= j < r + c.patience && Lands(c, i, j)
  }

  ghost predicate NoSharedFiles(w: GitWorld) {
    forall a, b, p :: a != b && p in w.diff(a) ==> p !in w.diff(b)
  }

  /** There is time and budget, and git does its part. */
  ghost predicate Fair(w: RoundWorld) {
    && !w.timeUp && w.budget == 0.0
    && w.git.checkoutOk && (forall id :: w.git.mergeOk(id)) && NoSharedFiles(w.git)
  }

  /** No gate says who is to blame, so that a failing verdict reopens nothing. */
  ghost predicate Unattributed(gates: seq<Gate>) {
    forall g :: g in gates ==> g.attributedTo == []
  }

  /** An acyclic plan in a fair world, in which every task lands within the tries it has. */
  ghost predicate Favourable(c: Course, maxAttempts: int) {
    && c.patience > 0 && c.plan != [] && UniqueIds(c.plan) && PlanOf(DependencyDict(c.plan)).Waves?
    && Unattributed(c.gates)
    && (forall r :: Fair(c.world(r)))
    && (forall i: nat, r: nat :: i < |c.plan| ==> LandsWithin(c, i, r))
    && (c.patience == 1 || forall i :: 0 <= i < |c.plan| ==> c.plan[i].attempts + c.patience <= maxAttempts)
  }

  /** Fresh work: pending, or ready because it depends on nothing. */
  ghost predicate Fresh(ts: seq<Task>) {
    forall i :: 0 <= i < |ts| ==> ts[i].state == Pending || (ts[i].state == Ready && ts[i].dependsOn == [])
  }

  // ---- the state before a round ----

  /** The round before which k waves should be merged: patience rounds for each. */
  function Deadline(c: Course, k: nat): nat {
    if k == 0 then 0 else Deadline(c, k - 1) + c.patience
  }

  lemma {:induction false} DeadlineIs(c: Course, k: nat)
    ensures Deadline(c, k) == k * c.patience
  {
    if k > 0 {
      DeadlineIs(c, k - 1);
      assert k * c.patience == (k - 1) * c.patience + c.patience;
    }
  }

  /** None of the q rounds before r got a result of task i accepted. */
  ghost predicate Missed(c: Course, i: nat, r: nat, q: nat)
    requires i < |c.plan|
  {
    q <= r && forall j: nat :: r - q <= j < r ==> !Lands(c, i, j)
  }

  /** Task i has been tried without success in each of the q rounds before r, and became ready in time. */
  ghost predicate Streak(c: Course, i: nat, t: Task, r: nat, q: nat)
    requires i < |c.plan|
  {
    && t.attempts <= c.plan[i].attempts + q && Missed(c, i, r, q)
    && forall k: nat :: c.plan[i].id in Done(PlanGraph(c), k) ==> r + c.patience <= q + Deadline(c, k)
  }

  ghost predicate InPlace(c: Course, i: nat, t: Task, merged: set<string>, r: nat)
    requires i < |c.plan|
  {
    match t.state
    case Merged => t.id in Done(PlanGraph(c), r)
    case Ready => Elements(t.dependsOn) <= merged && exists q: nat :: Streak(c, i, t, r, q)
    case Pending => !(Elements(t.dependsOn) <= merged) && t.attempts <= c.plan[i].attempts
    case _ => false
  }

  /** A run over the plan. */
  ghost predicate Over(c: Course, f: Fleet) {
    SamePlan(c.plan, f.tasks) && f.gates == c.gates && UniqueIds(f.tasks)
  }

  ghost predicate Stage(c: Course, f: Fleet, r: nat) {
    Over(c, f) && forall i :: 0 <= i < |f.tasks| ==> InPlace(c, i, f.tasks[i], MergedIds(f.tasks), r)
  }

  ghost predicate AllMerged(ts: seq<Task>) {
    forall i :: 0 <= i < |ts| ==> ts[i].state == Merged
  }

  lemma MergedMembers(ts: seq<Task>, i: nat)
    requires UniqueIds(ts) && i < |ts|
    ensures ts[i].id in MergedIds(ts) <==> ts[i].state == Merged
  {
    if t :| t in ts && t.state == Merged && t.id == ts[i].id {
      var j :| 0 <= j < |ts| && ts[j] == t;
      assert j == i;
    }
  }

  lemma OverGraph(c: Course, f: Fleet, n: string) returns (i: nat)
    requires Over(c, f) && n in PlanGraph(c)
    ensures i < |f.tasks| && f.tasks[i].id == n && PlanGraph(c)[n] == f.tasks[i].dependsOn
  {
    SamePlanSameDict(c.plan, f.tasks);
    GraphKeys(f.tasks, n);
    i :| 0 <= i < |f.tasks| && f.tasks[i].id == n;
    GraphLookup(f.tasks, i);
  }

  lemma OverLookup(c: Course, f: Fleet, i: nat)
    requires Over(c, f) && i < |f.tasks|
    ensures f.tasks[i].id in PlanGraph(c) && PlanGraph(c)[f.tasks[i].id] == f.tasks[i].dependsOn
    ensures SamePlanAt(c.plan[i], f.tasks[i])
  {
    SamePlanSameDict(c.plan, f.tasks);
    GraphLookup(f.tasks, i);
  }

  lemma ShortStreak(c: Course, i: nat, r: nat, q: nat)
    requires i < |c.plan| && q <= r && LandsWithin(c, i, r - q) && Missed(c, i, r, q)
    ensures q < c.patience
  {
    var j: nat :| r - q <= j < r - q + c.patience && Lands(c, i, j);
  }

  /** A pending task waits for one that is not merged, in an earlier wave. */
  lemma WaitsForEarlier(c: Course, f: Fleet, r: nat, k: nat, i: nat) returns (j: nat)
    requires Stage(c, f, r) && i < |f.tasks| && f.tasks[i].state == Pending
    requires f.tasks[i].id in Done(PlanGraph(c), k)
    ensures k > 0 && j < |f.tasks| && f.tasks[j].state != Merged && f.tasks[j].id in Done(PlanGraph(c), k - 1)
  {
    var t := f.tasks[i];
    assert InPlace(c, i, t, MergedIds(f.tasks), r);
    var d :| d in Elements(t.dependsOn) && d !in MergedIds(f.tasks);
    OverLookup(c, f, i);
    DoneDeps(PlanGraph(c), k, t.id, d);
    DoneGrows(PlanGraph(c), k - 1, k - 1);
    j := OverGraph(c, f, d);
    MergedMembers(f.tasks, j);
  }

  lemma ReadyIsInTime(c: Course, f: Fleet, r: nat, k: nat, i: nat, maxAttempts: int)
    requires Favourable(c, maxAttempts) && Stage(c, f, r) && i < |f.tasks| && f.tasks[i].state == Ready
    requires f.tasks[i].id in Done(PlanGraph(c), k)
    ensures r < Deadline(c, k)
  {
    assert InPlace(c, i, f.tasks[i], MergedIds(f.tasks), r);
    OverLookup(c, f, i);
    var q: nat :| Streak(c, i, f.tasks[i], r, q);
    assert LandsWithin(c, i, r - q);
    ShortStreak(c, i, r, q);
  }

  lemma OpenInStage(c: Course, f: Fleet, r: nat, i: nat)
    requires Stage(c, f, r) && i < |f.tasks| && f.tasks[i].state != Merged
    ensures f.tasks[i].state == Pending || f.tasks[i].state == Ready
  {
    assert InPlace(c, i, f.tasks[i], MergedIds(f.tasks), r);
  }

  /** Whatever is not merged before round r lies in a wave whose time is not over. */
  lemma {:induction false} UnmergedIsLate(c: Course, f: Fleet, r: nat, k: nat, i: nat, maxAttempts: int)
    requires Favourable(c, maxAttempts) && Stage(c, f, r) && i < |f.tasks|
    requires f.tasks[i].state != Merged && f.tasks[i].id in Done(PlanGraph(c), k)
    ensures r < Deadline(c, k)
    ensures f.tasks[i].state == Pending ==> k > 0 && r < Deadline(c, k - 1)
  {
    OpenInStage(c, f, r, i);
    if f.tasks[i].state == Ready {
      ReadyIsInTime(c, f, r, k, i, maxAttempts);
    } else {
      var j := WaitsForEarlier(c, f, r, k, i);
      UnmergedIsLate(c, f, r, k - 1, j, maxAttempts);
    }
  }

  /** After r rounds nothing beyond the first r waves is merged, and all of the first r / patience waves are. */
  ghost predicate Tally(c: Course, merged: set<string>, r: nat) {
    && merged <= Done(PlanGraph(c), r)
    && forall k: nat :: Deadline(c, k) <= r ==> Done(PlanGraph(c), k) <= merged
  }

  lemma StageTally(c: Course, f: Fleet, r: nat, maxAttempts: int)
    requires Favourable(c, maxAttempts) && Stage(c, f, r)
    ensures Tally(c, MergedIds(f.tasks), r)
  {
    forall n | n in MergedIds(f.tasks) ensures n in Done(PlanGraph(c), r) {
      var t :| t in f.tasks && t.state == Merged && t.id == n;
      var i :| 0 <= i < |f.tasks| && f.tasks[i] == t;
      assert InPlace(c, i, t, MergedIds(f.tasks), r);
    }
    forall k: nat, n | Deadline(c, k) <= r && n in Done(PlanGraph(c), k) ensures n in MergedIds(f.tasks) {
      DoneGrows(PlanGraph(c), k, k);
      var i := OverGraph(c, f, n);
      MergedMembers(f.tasks, i);
      if f.tasks[i].state != Merged { UnmergedIsLate(c, f, r, k, i, maxAttempts); }
    }
  }

  lemma DeadlineOfFirstTry(c: Course, k: nat)
    requires c.patience == 1
    ensures Deadline(c, k) == k
  {
    DeadlineIs(c, k);
  }

  lemma ReadyIffInWave(c: Course, f: Fleet, r: nat, i: nat)
    requires Stage(c, f, r) && i < |f.tasks| && MergedIds(f.tasks) == Done(PlanGraph(c), r)
    ensures f.tasks[i].state == Ready <==> f.tasks[i].id in Wave(PlanGraph(c), Done(PlanGraph(c), r))
  {
    OverLookup(c, f, i);
    MergedMembers(f.tasks, i);
    assert InPlace(c, i, f.tasks[i], MergedIds(f.tasks), r);
  }

  /** When every first try lands, exactly the first r waves are merged before round r, and exactly the tasks of the
      next one are ready. */
  lemma WaveByWave(c: Course, f: Fleet, r: nat, maxAttempts: int, i: nat)
    requires Favourable(c, maxAttempts) && c.patience == 1 && Stage(c, f, r) && i < |f.tasks|
    ensures MergedIds(f.tasks) == Done(PlanGraph(c), r)
    ensures f.tasks[i].state == Ready <==> f.tasks[i].id in Wave(PlanGraph(c), Done(PlanGraph(c), r))
  {
    StageTally(c, f, r, maxAttempts);
    DeadlineOfFirstTry(c, r);
    assert Done(PlanGraph(c), r) <= MergedIds(f.tasks);
    ReadyIffInWave(c, f, r, i);
  }

  lemma StageRefreshed(c: Course, f: Fleet, r: nat)
    requires Stage(c, f, r)
    ensures Refreshed(f.tasks) == f.tasks
  {
    forall i | 0 <= i < |f.tasks| ensures Refreshed(f.tasks)[i] == f.tasks[i] {
      assert InPlace(c, i, f.tasks[i], MergedIds(f.tasks), r);
    }
  }

  lemma NothingDone(c: Course)
    ensures Done(PlanGraph(c), 0) == {}
  {
  }

  /** Refreshed, fresh work is where it should be before the first round. */
  lemma FreshStage(c: Course, f: Fleet)
    requires c.plan == f.tasks && f.gates == c.gates && UniqueIds(f.tasks) && Fresh(f.tasks)
    ensures Stage(c, f.(tasks := Refreshed(f.tasks)), 0)
  {
    var us := Refreshed(f.tasks);
    RefreshSamePlan(f.tasks);
    SamePlanSameIds(f.tasks, us);
    assert MergedIds(f.tasks) == {};
    assert MergedIds(us) == {};
    forall i | 0 <= i < |us| ensures InPlace(c, i, us[i], {}, 0) {
      if us[i].state == Ready { FreshStreak(c, i, us[i]); }
    }
  }

  /** Some task of an acyclic plan depends on nothing. */
  lemma FreshHasReady(ts: seq<Task>)
    requires UniqueIds(ts) && ts != [] && PlanOf(DependencyDict(ts)).Waves? && Fresh(ts)
    ensures SomeReady(Refreshed(ts))
  {
    var g := GraphOf(ts);
    PlanExact(DependencyDict(ts));
    GraphLookup(ts, 0);
    assert Productive(g, 0);
    var n :| n in Wave(g, Done(g, 0));
    GraphKeys(ts, n);
    var i :| 0 <= i < |ts| && ts[i].id == n;
    GraphLookup(ts, i);
    assert Refreshed(ts)[i].state == Ready;
  }

  lemma FreshStreak(c: Course, i: nat, t: Task)
    requires i < |c.plan| && t.attempts <= c.plan[i].attempts
    ensures Streak(c, i, t, 0, 0)
  {
  }

  lemma RefreshSamePlan(ts: seq<Task>)
    ensures SamePlan(ts, Refreshed(ts))
  {
    forall i | 0 <= i < |ts| ensures SamePlanAt(ts[i], Refreshed(ts)[i]) {}
  }

  // ---- dispatch ----

  ghost predicate HandedOut(ts: seq<Task>, us: seq<Task>) {
    && SamePlan(ts, us) && UniqueIds(us)
    && forall i :: 0 <= i < |ts| ==> us[i].attempts == ts[i].attempts
                                     && us[i].state == if ts[i].state == Ready then Dispatched else ts[i].state
  }

  lemma DispatchHandsOut(f: Fleet, w: RoundWorld)
    requires Refreshed(f.tasks) == f.tasks && w.budget == 0.0 && UniqueIds(f.tasks)
    ensures HandedOut(f.tasks, Dispatch(f, PlanFor(w)).tasks)
  {
    var d, q := Dispatch(f, PlanFor(w)), Prepared(f, PlanFor(w));
    DispatchKeeps(f, PlanFor(w));
    KeepsSamePlan(f.tasks, d.tasks);
    SamePlanSameIds(f.tasks, d.tasks);
    forall i | 0 <= i < |f.tasks|
      ensures d.tasks[i].attempts == f.tasks[i].attempts
      ensures d.tasks[i].state == if f.tasks[i].state == Ready then Dispatched else f.tasks[i].state
    {
      assert q[i].state == f.tasks[i].state && q[i].attempts == f.tasks[i].attempts;
      if q[i].state == Ready { HandsOutReady(q, 0, |f.tasks|, i); }
    }
  }

  lemma KeepsSamePlan(ts: seq<Task>, us: seq<Task>)
    requires Keeps(ts, us)
    ensures SamePlan(ts, us)
  {
    forall i | 0 <= i < |ts| ensures SamePlanAt(ts[i], us[i]) {
      assert KeepsAt(ts[i], us[i]);
    }
  }

  /** The ids handed out are those of the ready tasks, none of them twice. */
  ghost predicate NamesReady(ts: seq<Task>, ids: seq<string>) {
    Distinct(ids) && forall i :: 0 <= i < |ts| ==> (ts[i].id in ids <==> ts[i].state == Ready)
  }

  lemma ChosenNamesReady(f: Fleet, w: RoundWorld)
    requires Refreshed(f.tasks) == f.tasks && w.budget == 0.0 && UniqueIds(f.tasks)
    requires forall i :: 0 <= i < |f.tasks| ==> f.tasks[i].state != Dispatched
    ensures NamesReady(f.tasks, Chosen(f, PlanFor(w)))
    ensures forall x :: x in Chosen(f, PlanFor(w)) ==> exists i :: 0 <= i < |f.tasks| && f.tasks[i].id == x
  {
    var ids, d, q := Chosen(f, PlanFor(w)), Dispatch(f, PlanFor(w)), Prepared(f, PlanFor(w));
    ChosenIsWaiting(f, PlanFor(w));
    DispatchHandsOut(f, w);
    forall x | x in ids ensures exists i :: 0 <= i < |f.tasks| && f.tasks[i].id == x && f.tasks[i].state == Ready {
      var m :| 0 <= m < |ids| && ids[m] == x;
      assert IsDispatched(d.tasks, ids[m]);
      var i :| 0 <= i < |d.tasks| && d.tasks[i].id == x && d.tasks[i].state == Dispatched;
      assert SamePlanAt(f.tasks[i], d.tasks[i]);
    }
    forall i | 0 <= i < |f.tasks| ensures f.tasks[i].id in ids <==> f.tasks[i].state == Ready {
      assert q[i].state == f.tasks[i].state && q[i].id == f.tasks[i].id;
      if q[i].state == Ready { ReadyInWave(q, 0, |f.tasks|, i); }
    }
  }

  // ---- work ----

  /** What the result of round r made of a task. */
  ghost predicate Tried(c: Course, i: nat, t: Task, u: Task, r: nat)
    requires i < |c.plan|
  {
    && (u.state == Verified || u.state == Failed) && u.attempts <= t.attempts + 1
    && (Lands(c, i, r) ==> u.state == Verified)
  }

  lemma WelcomeAccepted(c: Course, f: Fleet, i: nat, s: Submission)
    requires Over(c, f) && i < |c.plan| && Welcome(c.glob, c.gates, c.plan[i], s)
    ensures Accepts(c.glob, f, i, s)
  {
    assert SamePlanAt(c.plan[i], f.tasks[i]);
    SameTaskGates(f.gates, c.plan[i], f.tasks[i]);
    assert PassesWith(f.gates, c.plan[i], s, f.metrics);
  }

  /** One result changes its own task and no other. */
  ghost predicate OneTried(c: Course, f: Fleet, h: Fleet, i: nat, r: nat) {
    && Over(c, f) && Over(c, h) && i < |f.tasks| && Tried(c, i, f.tasks[i], h.tasks[i], r)
    && forall j :: 0 <= j < |f.tasks| && j != i ==> h.tasks[j] == f.tasks[j]
  }

  lemma WorkOneTried(c: Course, f: Fleet, i: nat, r: nat)
    requires Over(c, f) && i < |f.tasks|
    ensures OneTried(c, f, WorkOne(c.glob, f, f.tasks[i].id, c.world(r)), i, r)
  {
    var w, id := c.world(r), f.tasks[i].id;
    var h := WorkOne(c.glob, f, id, w);
    FindUnique(f.tasks, i);
    assert SamePlanAt(c.plan[i], f.tasks[i]);
    if w.submitted(id) {
      IngestedState(c.glob, f, i, w.work(id));
      IngestKeepsPlan(c.glob, f, id, w.work(id));
      if Lands(c, i, r) { WelcomeAccepted(c, f, i, w.work(id)); }
    } else {
      forall j | 0 <= j < |f.tasks| ensures SamePlanAt(f.tasks[j], h.tasks[j]) {}
    }
    SamePlanCompose(c.plan, f.tasks, h.tasks);
    SamePlanSameIds(f.tasks, h.tasks);
  }

  /** The first k ids of a wave have been worked on. */
  ghost predicate Halfway(c: Course, d: Fleet, h: Fleet, ids: seq<string>, k: nat, r: nat)
    requires k <= |ids|
  {
    && Over(c, d) && Over(c, h)
    && forall i :: 0 <= i < |d.tasks| ==>
        if d.tasks[i].id in ids[..k] then Tried(c, i, d.tasks[i], h.tasks[i], r) else h.tasks[i] == d.tasks[i]
  }

  lemma NextHalfway(c: Course, d: Fleet, h: Fleet, g: Fleet, i: nat, ids: seq<string>, k: nat, r: nat)
    requires k < |ids| && Distinct(ids) && Halfway(c, d, h, ids, k, r)
    requires OneTried(c, h, g, i, r) && d.tasks[i].id == ids[k]
    ensures Halfway(c, d, g, ids, k + 1, r)
  {
    assert ids[..k + 1] == ids[..k] + [ids[k]];
    assert ids[k] !in ids[..k];
    forall j | 0 <= j < |d.tasks|
      ensures if d.tasks[j].id in ids[..k + 1] then Tried(c, j, d.tasks[j], g.tasks[j], r)
              else g.tasks[j] == d.tasks[j]
    {
      if j != i { assert d.tasks[j].id != ids[k] by { OtherIds(d.tasks, i, j); } }
    }
  }

  lemma OtherIds(ts: seq<Task>, i: nat, j: nat)
    requires UniqueIds(ts) && i < |ts| && j < |ts| && i != j
    ensures ts[i].id != ts[j].id
  {
    if i < j { assert UniqueIds(ts); }
  }

  lemma {:induction false} AllTried(c: Course, d: Fleet, ids: seq<string>, k: nat, r: nat)
    requires Over(c, d) && Distinct(ids) && k <= |ids|
    requires forall x :: x in ids ==> exists i :: 0 <= i < |d.tasks| && d.tasks[i].id == x
    ensures Halfway(c, d, WorkAll(c.glob, d, ids[..k], c.world(r)), ids, k, r)
  {
    if k == 0 {
      assert ids[..0] == [];
    } else {
      AllTried(c, d, ids, k - 1, r);
      WorkAllSnoc(c.glob, d, ids, k - 1, c.world(r));
      assert ids[k - 1] in ids;
      var i :| 0 <= i < |d.tasks| && d.tasks[i].id == ids[k - 1];
      OneMoreTried(c, d, WorkAll(c.glob, d, ids[..k - 1], c.world(r)), i, ids, k - 1, r);
    }
  }

  lemma OneMoreTried(c: Course, d: Fleet, h: Fleet, i: nat, ids: seq<string>, k: nat, r: nat)
    requires k < |ids| && Distinct(ids) && Halfway(c, d, h, ids, k, r) && i < |d.tasks| && d.tasks[i].id == ids[k]
    ensures Halfway(c, d, WorkOne(c.glob, h, ids[k], c.world(r)), ids, k + 1, r)
  {
    assert SamePlanAt(c.plan[i], d.tasks[i]) && SamePlanAt(c.plan[i], h.tasks[i]);
    WorkOneTried(c, h, i, r);
    NextHalfway(c, d, h, WorkOne(c.glob, h, ids[k], c.world(r)), i, ids, k, r);
  }

  /** What dispatch and work made of the tasks before round r. */
  ghost predicate Worked(c: Course, f: Fleet, h: Fleet, r: nat) {
    Over(c, f) && Over(c, h) && forall i :: 0 <= i < |f.tasks| ==> WorkedAt(c, i, f.tasks[i], h.tasks[i], r)
  }

  ghost predicate WorkedAt(c: Course, i: nat, t: Task, u: Task, r: nat)
    requires i < |c.plan|
  {
    if t.state == Ready then Tried(c, i, t, u, r) else u.state == t.state && u.attempts == t.attempts
  }

  lemma NothingDispatched(c: Course, f: Fleet, r: nat)
    requires Stage(c, f, r)
    ensures forall i :: 0 <= i < |f.tasks| ==> f.tasks[i].state != Dispatched
  {
    forall i | 0 <= i < |f.tasks| ensures f.tasks[i].state != Dispatched {
      assert InPlace(c, i, f.tasks[i], MergedIds(f.tasks), r);
    }
  }

  lemma HalfwayIsWorked(c: Course, f: Fleet, d: Fleet, h: Fleet, ids: seq<string>, r: nat)
    requires Over(c, f) && HandedOut(f.tasks, d.tasks) && NamesReady(f.tasks, ids)
    requires Halfway(c, d, h, ids, |ids|, r)
    ensures Worked(c, f, h, r)
  {
    assert ids[..|ids|] == ids;
    forall i | 0 <= i < |f.tasks| ensures WorkedAt(c, i, f.tasks[i], h.tasks[i], r) {
      assert SamePlanAt(f.tasks[i], d.tasks[i]);
    }
  }

  lemma StageWorked(c: Course, f: Fleet, r: nat)
    requires Stage(c, f, r) && Fair(c.world(r))
    ensures var w := c.world(r);
            Worked(c, f, WorkAll(c.glob, Dispatch(f, PlanFor(w)), Chosen(f, PlanFor(w)), w), r)
    ensures !SomeReady(Dispatch(f, PlanFor(c.world(r))).tasks)
  {
    var w := c.world(r);
    var d, ids := Dispatch(f, PlanFor(w)), Chosen(f, PlanFor(w));
    StageRefreshed(c, f, r);
    DispatchHandsOut(f, w);
    NothingDispatched(c, f, r);
    ChosenNamesReady(f, w);
    SamePlanCompose(c.plan, f.tasks, d.tasks);
    forall i | 0 <= i < |f.tasks| ensures d.tasks[i].id == f.tasks[i].id {
      assert SamePlanAt(f.tasks[i], d.tasks[i]);
    }
    AllTried(c, d, ids, |ids|, r);
    assert ids[..|ids|] == ids;
    HalfwayIsWorked(c, f, d, WorkAll(c.glob, d, ids, w), ids, r);
  }

  // ---- integrate ----

  lemma NoConflicts(ts: seq<Task>, w: GitWorld)
    requires UniqueIds(ts) && NoSharedFiles(w)
    ensures IsDisjoint(VerifiedBranches(ts, w))
  {
    var d := VerifiedBranches(ts, w);
    forall a, b, p | a in d.table && b in d.table && a != b && p in d.table[a] ensures p !in d.table[b] {
      var i := BranchHasTask(ts, w, a);
      var j := BranchHasTask(ts, w, b);
      OtherIds(ts, i, j);
    }
  }

  /** Every verified task is merged; nothing else changes. */
  ghost predicate MergedAll(ts: seq<Task>, us: seq<Task>) {
    && SamePlan(ts, us)
    && forall i :: 0 <= i < |ts| ==> us[i].attempts == ts[i].attempts
                                     && us[i].state == if ts[i].state == Verified then Merged else ts[i].state
  }

  lemma MergingMergesAll(ts: seq<Task>, log: seq<string>, order: seq<string>, w: GitWorld)
    requires UniqueIds(ts) && VerifiedOnlyIn(ts, order) && forall id :: w.mergeOk(id)
    ensures MergeAlong(ts, log, order, w).ok && MergedAll(ts, MergeAlong(ts, log, order, w).tasks)
  {
    var us := MergeAlong(ts, log, order, w).tasks;
    MergeAlongMergesAll(ts, log, order, w);
    MergingKeeps(ts, log, order, w);
    KeepsSamePlan(ts, us);
    MergeSpares(ts, log, order, w, 0);
    forall i | 0 <= i < |ts| ensures us[i].attempts == ts[i].attempts {
      assert SparesAt(ts[i], us[i], 0);
    }
  }

  lemma IntegrateMergesAll(c: Course, h: Fleet, w: GitWorld) returns (ms: seq<Task>)
    requires Over(c, h) && PlanOf(DependencyDict(c.plan)).Waves?
    requires w.checkoutOk && (forall id :: w.mergeOk(id)) && NoSharedFiles(w)
    ensures IntegrationOutcome(h, w).0 == Integrated
    ensures MergedAll(h.tasks, ms) && Integrate(h, w).tasks == Refreshed(ms) && Integrate(h, w).gates == h.gates
  {
    SamePlanSameDict(c.plan, h.tasks);
    NoConflicts(h.tasks, w);
    var order := Flatten(PlanOf(DependencyDict(h.tasks)).batches);
    ms := MergeAlong(h.tasks, h.mergeLog, order, w).tasks;
    forall i | 0 <= i < |h.tasks| ensures h.tasks[i].id in order {
      OrderCoversTasks(h.tasks, i);
    }
    MergingMergesAll(h.tasks, h.mergeLog, order, w);
  }

  // ---- verify and repair attribute nothing ----

  lemma {:induction false} FoundIsDeclared(gates: seq<Gate>, id: string)
    ensures FindGate(gates, id).Some? ==> FindGate(gates, id).value in gates
  {
    if gates != [] && gates[0].id != id { FoundIsDeclared(gates[1..], id); }
  }

  lemma {:induction false} NothingAttributed(ts: seq<Task>, gates: seq<Gate>, rows: seq<Evidence>,
                                             required: Option<set<string>>, maxAttempts: int)
    requires Unattributed(gates)
    ensures AttributeRows(ts, gates, rows, required, maxAttempts).tasks == ts
    ensures AttributeRows(ts, gates, rows, required, maxAttempts).escalated == {}
    decreases |rows|
  {
    if rows != [] {
      NothingAttributed(ts, gates, rows[..|rows| - 1], required, maxAttempts);
      FoundIsDeclared(gates, rows[|rows| - 1].gateId);
    }
  }

  /** The verdict of round r, whatever has been measured before. */
  ghost predicate AlwaysGreen(c: Course, r: nat) {
    forall m: Metrics :: SystemVerdict(c.gates, m, c.world(r).observe) == AllGreen
  }

  ghost predicate NeverGreen(c: Course, r: nat) {
    forall m: Metrics :: SystemVerdict(c.gates, m, c.world(r).observe) != AllGreen
  }

  function SystemVerdict(gates: seq<Gate>, m: Metrics, observe: nat -> Observation): Verdict {
    Judge(EvidenceOf(BudgetsLast(SystemGates(gates)), m, observe, ""), RequiredIds(SystemGates(gates)))
  }

  lemma VerifyOnlyJudges(f: Fleet, observe: nat -> Observation, maxAttempts: int)
    requires Refreshed(f.tasks) == f.tasks && Unattributed(f.gates)
    ensures var v := Verify(f, observe, maxAttempts);
            && v.tasks == f.tasks && v.gates == f.gates
            && (v.status == Passed <==> SystemVerdict(f.gates, f.metrics, observe) == AllGreen)
  {
    var evidence := EvidenceOf(BudgetsLast(SystemGates(f.gates)), f.metrics, observe, "");
    NothingAttributed(f.tasks, f.gates, evidence, Some(RequiredIds(SystemGates(f.gates))), maxAttempts);
  }

  lemma RepairOnlyReopens(f: Fleet, maxAttempts: int)
    requires Unattributed(f.gates)
    ensures Repaired(f, maxAttempts).escalated == {} && RepairFailed(f, maxAttempts).gates == f.gates
    ensures RepairFailed(f, maxAttempts).tasks == Refreshed(ReopenAll(f.tasks, maxAttempts))
  {
    NothingAttributed(ReopenAll(f.tasks, maxAttempts), f.gates, FailingNow(f), None, maxAttempts);
  }

  // ---- a round ----

  /** The tasks a round leaves: merged, refreshed, reopened and refreshed. */
  function TasksLeft(ms: seq<Task>, maxAttempts: int): (us: seq<Task>)
    ensures |us| == |ms|
  {
    Refreshed(ReopenAll(Refreshed(ms), maxAttempts))
  }

  lemma RefreshMerges(ts: seq<Task>)
    ensures MergedIds(Refreshed(ts)) == MergedIds(ts)
  {
    FleetRepair.SameMerged(ts, Refreshed(ts));
  }

  lemma LeftMerges(ms: seq<Task>, maxAttempts: int)
    ensures MergedIds(TasksLeft(ms, maxAttempts)) == MergedIds(ms) == MergedIds(ReopenAll(Refreshed(ms), maxAttempts))
  {
    RefreshMerges(ms);
    FleetRepair.SameMerged(Refreshed(ms), ReopenAll(Refreshed(ms), maxAttempts));
    RefreshMerges(ReopenAll(Refreshed(ms), maxAttempts));
  }

  /** One task over the whole round. */
  lemma LeftAt(ms: seq<Task>, maxAttempts: int, i: nat)
    requires i < |ms|
    ensures var t, u, free := ms[i], TasksLeft(ms, maxAttempts)[i], Elements(ms[i].dependsOn) <= MergedIds(ms);
            && SamePlanAt(t, u) && u.attempts == t.attempts
            && u.state == if t.state == Pending then (if free then Ready else Pending)
                          else if t.state == Failed && !Escalates(t, maxAttempts) then (if free then Ready else Pending)
                          else t.state
  {
    LeftMerges(ms, maxAttempts);
  }

  /** The tasks before a round, after its work, and after its merges. */
  ghost predicate Through(c: Course, f: Fleet, h: Fleet, ms: seq<Task>, r: nat) {
    Stage(c, f, r) && Worked(c, f, h, r) && MergedAll(h.tasks, ms)
  }

  lemma ThroughAt(c: Course, f: Fleet, h: Fleet, ms: seq<Task>, r: nat, i: nat)
    requires Through(c, f, h, ms, r) && i < |f.tasks|
    ensures |ms| == |f.tasks| == |c.plan| && SamePlanAt(c.plan[i], ms[i]) && SamePlanAt(f.tasks[i], ms[i])
    ensures InPlace(c, i, f.tasks[i], MergedIds(f.tasks), r)
    ensures f.tasks[i].state == Ready ==>
              && (ms[i].state == Merged || (ms[i].state == Failed && !Lands(c, i, r)))
              && ms[i].attempts <= f.tasks[i].attempts + 1
    ensures f.tasks[i].state != Ready ==> ms[i].state == f.tasks[i].state && ms[i].attempts == f.tasks[i].attempts
  {
    assert SamePlanAt(c.plan[i], f.tasks[i]) && SamePlanAt(c.plan[i], h.tasks[i]) && SamePlanAt(h.tasks[i], ms[i]);
    assert WorkedAt(c, i, f.tasks[i], h.tasks[i], r);
  }

  lemma MergedGrows(c: Course, f: Fleet, h: Fleet, ms: seq<Task>, r: nat)
    requires Through(c, f, h, ms, r)
    ensures MergedIds(f.tasks) <= MergedIds(ms)
  {
    forall n | n in MergedIds(f.tasks) ensures n in MergedIds(ms) {
      var t :| t in f.tasks && t.state == Merged && t.id == n;
      var i :| 0 <= i < |f.tasks| && f.tasks[i] == t;
      ThroughAt(c, f, h, ms, r, i);
      assert ms[i] in ms;
    }
  }

  /** What is ready before round r belongs to the first r + 1 waves. */
  lemma ReadyIsNext(c: Course, f: Fleet, r: nat, i: nat)
    requires Stage(c, f, r) && i < |f.tasks| && f.tasks[i].state == Ready
    ensures f.tasks[i].id in Done(PlanGraph(c), r + 1)
  {
    OverLookup(c, f, i);
    assert InPlace(c, i, f.tasks[i], MergedIds(f.tasks), r);
    forall d | d in Elements(f.tasks[i].dependsOn) ensures d in Done(PlanGraph(c), r) {
      var t :| t in f.tasks && t.state == Merged && t.id == d;
      var j :| 0 <= j < |f.tasks| && f.tasks[j] == t;
      assert InPlace(c, j, f.tasks[j], MergedIds(f.tasks), r);
    }
  }

  lemma LongerStreak(c: Course, i: nat, t: Task, u: Task, r: nat, q: nat)
    requires i < |c.plan| && Streak(c, i, t, r, q) && !Lands(c, i, r) && u.attempts <= t.attempts + 1
    ensures Streak(c, i, u, r + 1, q + 1)
  {
  }

  /** A try that missed leaves tries to go. */
  lemma NotExhausted(c: Course, i: nat, u: Task, r: nat, q: nat, maxAttempts: int)
    requires Favourable(c, maxAttempts) && i < |c.plan| && Streak(c, i, u, r + 1, q + 1)
    ensures !Escalates(u, maxAttempts)
  {
    assert LandsWithin(c, i, r - q);
    ShortStreak(c, i, r + 1, q + 1);
  }

  /** A task that had to wait starts a streak in time. */
  lemma NewStreak(c: Course, f: Fleet, i: nat, u: Task, r: nat, maxAttempts: int)
    requires Favourable(c, maxAttempts) && Stage(c, f, r) && i < |f.tasks| && f.tasks[i].state == Pending
    requires u.attempts == f.tasks[i].attempts
    ensures Streak(c, i, u, r + 1, 0)
  {
    assert InPlace(c, i, f.tasks[i], MergedIds(f.tasks), r);
    OverLookup(c, f, i);
    forall k: nat | c.plan[i].id in Done(PlanGraph(c), k) ensures r + 1 + c.patience <= Deadline(c, k) {
      UnmergedIsLate(c, f, r, k, i, maxAttempts);
    }
  }

  /** A task that missed again keeps its place, with one more miss to its streak. */
  lemma MissedAgain(c: Course, f: Fleet, h: Fleet, ms: seq<Task>, r: nat, maxAttempts: int, i: nat) returns (q: nat)
    requires Favourable(c, maxAttempts) && Through(c, f, h, ms, r) && i < |f.tasks| && f.tasks[i].state == Ready
    requires |ms| == |f.tasks| && ms[i].state == Failed
    ensures Streak(c, i, ms[i], r + 1, q) && !Escalates(ms[i], maxAttempts)
  {
    ThroughAt(c, f, h, ms, r, i);
    q :| Streak(c, i, f.tasks[i], r, q);
    LongerStreak(c, i, f.tasks[i], ms[i], r, q);
    NotExhausted(c, i, ms[i], r, q, maxAttempts);
    q := q + 1;
  }

  lemma TriedInPlace(c: Course, f: Fleet, h: Fleet, ms: seq<Task>, r: nat, maxAttempts: int, i: nat)
    requires Favourable(c, maxAttempts) && Through(c, f, h, ms, r) && i < |f.tasks| && f.tasks[i].state == Ready
    ensures |ms| == |f.tasks|
    ensures InPlace(c, i, TasksLeft(ms, maxAttempts)[i], MergedIds(TasksLeft(ms, maxAttempts)), r + 1)
  {
    ThroughAt(c, f, h, ms, r, i);
    LeftAt(ms, maxAttempts, i);
    LeftMerges(ms, maxAttempts);
    ReadyIsNext(c, f, r, i);
    MergedGrows(c, f, h, ms, r);
    if ms[i].state == Failed {
      var q := MissedAgain(c, f, h, ms, r, maxAttempts, i);
      assert Streak(c, i, TasksLeft(ms, maxAttempts)[i], r + 1, q);
    }
  }

  lemma NextInPlace(c: Course, f: Fleet, h: Fleet, ms: seq<Task>, r: nat, maxAttempts: int, i: nat)
    requires Favourable(c, maxAttempts) && Through(c, f, h, ms, r) && i < |f.tasks|
    ensures |ms| == |f.tasks|
    ensures InPlace(c, i, TasksLeft(ms, maxAttempts)[i], MergedIds(TasksLeft(ms, maxAttempts)), r + 1)
  {
    var t, u := f.tasks[i], TasksLeft(ms, maxAttempts)[i];
    ThroughAt(c, f, h, ms, r, i);
    LeftAt(ms, maxAttempts, i);
    LeftMerges(ms, maxAttempts);
    match t.state
    case Merged => DoneGrows(PlanGraph(c), r, r + 1);
    case Pending => if u.state == Ready { NewStreak(c, f, i, u, r, maxAttempts); }
    case Ready => TriedInPlace(c, f, h, ms, r, maxAttempts, i);
  }

  lemma NextStage(c: Course, f: Fleet, h: Fleet, ms: seq<Task>, r: nat, maxAttempts: int, v: Fleet)
    requires Favourable(c, maxAttempts) && Through(c, f, h, ms, r)
    requires v.tasks == TasksLeft(ms, maxAttempts) && v.gates == c.gates
    ensures Stage(c, v, r + 1)
  {
    forall i | 0 <= i < |f.tasks|
      ensures SamePlanAt(c.plan[i], v.tasks[i]) && InPlace(c, i, v.tasks[i], MergedIds(v.tasks), r + 1)
    {
      ThroughAt(c, f, h, ms, r, i);
      LeftAt(ms, maxAttempts, i);
      NextInPlace(c, f, h, ms, r, maxAttempts, i);
    }
    SamePlanSameIds(c.plan, v.tasks);
  }

  lemma FailedAt(c: Course, f: Fleet, h: Fleet, ms: seq<Task>, r: nat, i: nat)
    requires Through(c, f, h, ms, r) && i < |ms| && Refreshed(ms)[i].state == Failed
    ensures |ms| == |f.tasks| && f.tasks[i].state == Ready && ms[i] == Refreshed(ms)[i]
  {
    ThroughAt(c, f, h, ms, r, i);
  }

  lemma NothingExhausted(c: Course, f: Fleet, h: Fleet, ms: seq<Task>, r: nat, maxAttempts: int)
    requires Favourable(c, maxAttempts) && Through(c, f, h, ms, r)
    ensures FailedIds(Refreshed(ms), maxAttempts, true) == {}
  {
    forall u | u in Refreshed(ms) && u.state == Failed ensures !Escalates(u, maxAttempts) {
      var i :| 0 <= i < |ms| && Refreshed(ms)[i] == u;
      FailedAt(c, f, h, ms, r, i);
      var q := MissedAgain(c, f, h, ms, r, maxAttempts, i);
    }
  }

  /** What round r leaves, met in its stage: it worked; the tally is that of the next round; and it stops with a
      passed verdict, or goes on in the next stage exactly while work is ready. */
  ghost predicate Advances(c: Course, e: RoundEnd, r: nat) {
    && e.worked && Over(c, e.fleet) && Tally(c, MergedIds(e.fleet.tasks), r + 1)
    && (AlwaysGreen(c, r) ==> e.stop == Some(VerdictPassed))
    && if e.stop == Some(VerdictPassed) then !NeverGreen(c, r)
       else Stage(c, e.fleet, r + 1) && e.stop == if SomeReady(e.fleet.tasks) then None else Some(NothingLeft)
  }

  lemma ThroughOver(c: Course, f: Fleet, h: Fleet, ms: seq<Task>, r: nat, v: Fleet)
    requires Through(c, f, h, ms, r) && v.tasks == Refreshed(ms) && v.gates == c.gates
    ensures Over(c, v)
  {
    forall i | 0 <= i < |f.tasks| ensures |ms| == |f.tasks| && SamePlanAt(c.plan[i], v.tasks[i]) {
      ThroughAt(c, f, h, ms, r, i);
    }
    assert UniqueIds(c.plan) by { PlanUnique(c, f); }
    SamePlanSameIds(c.plan, v.tasks);
  }

  lemma PlanUnique(c: Course, f: Fleet)
    requires Over(c, f)
    ensures UniqueIds(c.plan)
  {
    forall i | 0 <= i < |c.plan| ensures c.plan[i].id == f.tasks[i].id {
      assert SamePlanAt(c.plan[i], f.tasks[i]);
    }
  }

  lemma PassedTally(c: Course, f: Fleet, h: Fleet, ms: seq<Task>, r: nat, maxAttempts: int, v: Fleet)
    requires Favourable(c, maxAttempts) && Through(c, f, h, ms, r) && v.tasks == Refreshed(ms) && v.gates == c.gates
    ensures Over(c, v) && Tally(c, MergedIds(v.tasks), r + 1)
  {
    var x := v.(tasks := TasksLeft(ms, maxAttempts));
    ThroughOver(c, f, h, ms, r, v);
    NextStage(c, f, h, ms, r, maxAttempts, x);
    StageTally(c, x, r + 1, maxAttempts);
    LeftMerges(ms, maxAttempts);
    RefreshMerges(ms);
  }

  lemma RepairedAdvances(c: Course, f: Fleet, h: Fleet, ms: seq<Task>, r: nat, maxAttempts: int, v: Fleet)
    requires Favourable(c, maxAttempts) && Through(c, f, h, ms, r) && v.tasks == Refreshed(ms) && v.gates == c.gates
    ensures var x := RepairFailed(v, maxAttempts);
            && Stage(c, x, r + 1) && Tally(c, MergedIds(x.tasks), r + 1)
            && StopAfterRepair(v, maxAttempts) == if SomeReady(x.tasks) then None else Some(NothingLeft)
  {
    var x := RepairFailed(v, maxAttempts);
    RepairOnlyReopens(v, maxAttempts);
    NothingExhausted(c, f, h, ms, r, maxAttempts);
    NextStage(c, f, h, ms, r, maxAttempts, x);
    StageTally(c, x, r + 1, maxAttempts);
  }

  /** The state after verify, when it passed and when repair followed. */
  lemma VerifiedAdvances(c: Course, f: Fleet, h: Fleet, ms: seq<Task>, r: nat, maxAttempts: int, v: Fleet)
    requires Favourable(c, maxAttempts) && Through(c, f, h, ms, r) && v.tasks == Refreshed(ms) && v.gates == c.gates
    requires v.status == Passed ==> !NeverGreen(c, r)
    requires v.status != Passed ==> !AlwaysGreen(c, r)
    ensures Advances(c, AfterVerify(v, maxAttempts), r)
  {
    if v.status == Passed {
      PassedTally(c, f, h, ms, r, maxAttempts, v);
    } else {
      RepairedAdvances(c, f, h, ms, r, maxAttempts, v);
    }
  }

  lemma ConcludeAdvances(c: Course, f: Fleet, h: Fleet, r: nat, maxAttempts: int)
    requires Favourable(c, maxAttempts) && Stage(c, f, r) && Worked(c, f, h, r)
    ensures Advances(c, Conclude(h, c.world(r), maxAttempts), r)
  {
    var w := c.world(r);
    assert Fair(w);
    var ms := IntegrateMergesAll(c, h, w.git);
    var g := Integrate(h, w.git);
    RefreshTwice(ms);
    VerifyOnlyJudges(g, w.observe, maxAttempts);
    VerifiedAdvances(c, f, h, ms, r, maxAttempts, Verify(g, w.observe, maxAttempts));
  }

  lemma RoundAdvances(c: Course, f: Fleet, r: nat, maxAttempts: int)
    requires Favourable(c, maxAttempts) && Stage(c, f, r)
    ensures Advances(c, RoundOf(c.glob, f, c.world(r), maxAttempts), r)
  {
    var w := c.world(r);
    assert Fair(w);
    StageWorked(c, f, r);
    var h := WorkAll(c.glob, Dispatch(f, PlanFor(w)), Chosen(f, PlanFor(w)), w);
    ConcludeAdvances(c, f, h, r, maxAttempts);
  }

  // ---- the loop ----

  ghost predicate AllAdvance(c: Course, turn: Turn) {
    forall f: Fleet, r: nat {:trigger turn(f, r)} :: Stage(c, f, r) ==> Advances(c, turn(f, r), r)
  }

  lemma TurnsAdvance(c: Course, maxAttempts: int)
    requires Favourable(c, maxAttempts)
    ensures AllAdvance(c, TurnOf(c.glob, c.world, maxAttempts))
  {
    forall f: Fleet, r: nat | Stage(c, f, r) ensures Advances(c, TurnOf(c.glob, c.world, maxAttempts)(f, r), r) {
      RoundAdvances(c, f, r, maxAttempts);
    }
  }

  /** Something is ready as long as anything is not merged: whatever waits, waits for something ready. */
  lemma {:induction false} UnmergedMeansReady(c: Course, f: Fleet, r: nat, k: nat, i: nat)
    requires Stage(c, f, r) && i < |f.tasks| && f.tasks[i].state != Merged && f.tasks[i].id in Done(PlanGraph(c), k)
    ensures SomeReady(f.tasks)
  {
    OpenInStage(c, f, r, i);
    if f.tasks[i].state == Pending {
      var j := WaitsForEarlier(c, f, r, k, i);
      UnmergedMeansReady(c, f, r, k - 1, j);
    }
  }

  /** In time, or finished. */
  lemma ReadyOrDone(c: Course, f: Fleet, r: nat, n: nat, maxAttempts: int)
    requires Favourable(c, maxAttempts) && Stage(c, f, r) && Layers(PlanGraph(c), n)
    ensures if SomeReady(f.tasks) then r < Deadline(c, n) else AllMerged(f.tasks)
  {
    forall i | 0 <= i < |f.tasks| && f.tasks[i].state != Merged ensures SomeReady(f.tasks) && r < Deadline(c, n) {
      OverLookup(c, f, i);
      UnmergedMeansReady(c, f, r, n, i);
      UnmergedIsLate(c, f, r, n, i, maxAttempts);
    }
  }

  /** No verdict of the rounds from r up to k was sure to pass. */
  ghost predicate NoneGreen(c: Course, r: nat, k: int) {
    forall j: nat :: r <= j < k ==> !AlwaysGreen(c, j)
  }

  /** How the loop ends: in time, in good order, and with a verdict that could pass or with everything merged. */
  ghost predicate Ends(c: Course, end: (Fleet, nat, Stop), n: nat) {
    && 0 < end.1 <= Deadline(c, n) && Over(c, end.0) && Tally(c, MergedIds(end.0.tasks), end.1)
    && (end.2 == VerdictPassed || (end.2 == NothingLeft && AllMerged(end.0.tasks)))
    && (end.2 == VerdictPassed ==> !NeverGreen(c, end.1 - 1))
  }

  /** How the loop ends when it is entered in round r. */
  ghost predicate Completes(c: Course, end: (Fleet, nat, Stop), r: nat, n: nat) {
    r < end.1 && Ends(c, end, n) && NoneGreen(c, r, end.1 - 1)
  }

  lemma EarlierStart(c: Course, end: (Fleet, nat, Stop), r: nat, n: nat)
    requires Completes(c, end, r + 1, n) && !AlwaysGreen(c, r)
    ensures Completes(c, end, r, n)
  {
  }

  /** A round that leaves work ready does so before the deadline of the last wave, and its verdict did not pass. */
  lemma GoesOn(c: Course, e: RoundEnd, r: nat, n: nat, maxAttempts: int)
    requires Favourable(c, maxAttempts) && Advances(c, e, r) && Layers(PlanGraph(c), n) && e.stop.None?
    ensures Stage(c, e.fleet, r + 1) && SomeReady(e.fleet.tasks) && !AlwaysGreen(c, r) && r + 1 < Deadline(c, n)
  {
    ReadyOrDone(c, e.fleet, r + 1, n, maxAttempts);
  }

  lemma Stops(c: Course, e: RoundEnd, r: nat, n: nat, maxAttempts: int)
    requires Favourable(c, maxAttempts) && Advances(c, e, r) && Layers(PlanGraph(c), n) && e.stop.Some?
    requires r < Deadline(c, n)
    ensures Completes(c, (e.fleet, r + 1, e.stop.value), r, n)
  {
    StopIsDone(c, e, r, n, maxAttempts);
    LastRound(c, e, r, n);
  }

  lemma StopIsDone(c: Course, e: RoundEnd, r: nat, n: nat, maxAttempts: int)
    requires Favourable(c, maxAttempts) && Advances(c, e, r) && Layers(PlanGraph(c), n)
    ensures e.stop == Some(NothingLeft) ==> AllMerged(e.fleet.tasks)
  {
    if e.stop == Some(NothingLeft) { NothingLeftIsDone(c, e.fleet, r + 1, n, maxAttempts); }
  }

  /** What a turn before the deadline leaves: the next stage, or the end. */
  ghost predicate TurnLeaves(c: Course, e: RoundEnd, r: nat, n: nat) {
    && e.worked
    && match e.stop
       case None => Stage(c, e.fleet, r + 1) && !AlwaysGreen(c, r) && r + 1 < Deadline(c, n)
       case Some(stop) => Completes(c, (e.fleet, r + 1, stop), r, n)
  }

  ghost predicate AllLeave(c: Course, turn: Turn, n: nat) {
    forall f: Fleet, r: nat {:trigger turn(f, r)} :: Stage(c, f, r) && r < Deadline(c, n) ==>
        TurnLeaves(c, turn(f, r), r, n)
  }

  lemma AdvancingLeaves(c: Course, turn: Turn, n: nat, maxAttempts: int)
    requires Favourable(c, maxAttempts) && AllAdvance(c, turn) && Layers(PlanGraph(c), n)
    ensures AllLeave(c, turn, n)
  {
    forall f: Fleet, r: nat | Stage(c, f, r) && r < Deadline(c, n) ensures TurnLeaves(c, turn(f, r), r, n) {
      assert Advances(c, turn(f, r), r);
      if turn(f, r).stop.None? {
        GoesOn(c, turn(f, r), r, n, maxAttempts);
      } else {
        Stops(c, turn(f, r), r, n, maxAttempts);
      }
    }
  }

  lemma {:induction false} DriveCompletes(c: Course, turn: Turn, f: Fleet, maxRounds: nat, r: nat, n: nat)
    requires AllLeave(c, turn, n) && Stage(c, f, r) && r < Deadline(c, n) <= maxRounds
    ensures Completes(c, Drive(turn, f, maxRounds, r), r, n)
    decreases maxRounds - r
  {
    assert TurnLeaves(c, turn(f, r), r, n);
    if turn(f, r).stop.None? {
      DriveCompletes(c, turn, turn(f, r).fleet, maxRounds, r + 1, n);
      CompletesLater(c, turn, f, maxRounds, r, n);
    } else {
      CompletesNow(c, turn, f, maxRounds, r, n);
    }
  }

  lemma CompletesLater(c: Course, turn: Turn, f: Fleet, maxRounds: nat, r: nat, n: nat)
    requires r < maxRounds && turn(f, r).stop.None? && !AlwaysGreen(c, r)
    requires Completes(c, Drive(turn, turn(f, r).fleet, maxRounds, r + 1), r + 1, n)
    ensures Completes(c, Drive(turn, f, maxRounds, r), r, n)
  {
    assert Drive(turn, f, maxRounds, r) == Drive(turn, turn(f, r).fleet, maxRounds, r + 1);
    EarlierStart(c, Drive(turn, turn(f, r).fleet, maxRounds, r + 1), r, n);
  }

  lemma CompletesNow(c: Course, turn: Turn, f: Fleet, maxRounds: nat, r: nat, n: nat)
    requires r < maxRounds && turn(f, r).stop.Some? && turn(f, r).worked
    requires Completes(c, (turn(f, r).fleet, r + 1, turn(f, r).stop.value), r, n)
    ensures Completes(c, Drive(turn, f, maxRounds, r), r, n)
  {
    assert Drive(turn, f, maxRounds, r) == (turn(f, r).fleet, r + 1, turn(f, r).stop.value);
  }

  lemma LastRound(c: Course, e: RoundEnd, r: nat, n: nat)
    requires Advances(c, e, r) && r < Deadline(c, n) && e.stop.Some?
    requires e.stop == Some(NothingLeft) ==> AllMerged(e.fleet.tasks)
    ensures Completes(c, (e.fleet, r + 1, e.stop.value), r, n)
  {
  }

  lemma NothingLeftIsDone(c: Course, f: Fleet, r: nat, n: nat, maxAttempts: int)
    requires Favourable(c, maxAttempts) && Stage(c, f, r) && Layers(PlanGraph(c), n) && !SomeReady(f.tasks)
    ensures AllMerged(f.tasks)
  {
    ReadyOrDone(c, f, r, n, maxAttempts);
  }

  /** Progress: over an acyclic plan in a fair world, when every task lands within the tries it has, no gate blames a
      component and the plan is fresh, the autopilot needs at most patience rounds a wave. It stops with every task
      merged, or with the first verdict that passes. */
  lemma AutopilotCompletes(c: Course, f: Fleet, maxAttempts: int, maxRounds: nat)
    requires c.plan == f.tasks && c.gates == f.gates && Favourable(c, maxAttempts) && Fresh(f.tasks)
    requires |PlanOf(DependencyDict(f.tasks)).batches| * c.patience <= maxRounds
    ensures var start := f.(tasks := Refreshed(f.tasks));
            Completes(c, Drive(TurnOf(c.glob, c.world, maxAttempts), start, maxRounds, 0), 0,
                      |PlanOf(DependencyDict(f.tasks)).batches|)
  {
    var start := f.(tasks := Refreshed(f.tasks));
    DeadlineIs(c, |PlanOf(DependencyDict(f.tasks)).batches|);
    FreshStage(c, f);
    FreshHasReady(f.tasks);
    TurnsAdvance(c, maxAttempts);
    PlanExact(DependencyDict(f.tasks));
    ReadyOrDone(c, start, 0, |PlanOf(DependencyDict(f.tasks)).batches|, maxAttempts);
    AdvancingLeaves(c, TurnOf(c.glob, c.world, maxAttempts), |PlanOf(DependencyDict(f.tasks)).batches|, maxAttempts);
    DriveCompletes(c, TurnOf(c.glob, c.world, maxAttempts), start, maxRounds, 0,
                   |PlanOf(DependencyDict(f.tasks)).batches|);
  }

  // ---- what a passed run has done ----

  lemma AllMergedIff(c: Course, f: Fleet)
    requires Over(c, f)
    ensures AllMerged(f.tasks) <==> PlanGraph(c).Keys <= MergedIds(f.tasks)
  {
    forall i | 0 <= i < |f.tasks| ensures f.tasks[i].id in MergedIds(f.tasks) <==> f.tasks[i].state == Merged {
      MergedMembers(f.tasks, i);
    }
    if AllMerged(f.tasks) {
      forall n | n in PlanGraph(c) ensures n in MergedIds(f.tasks) {
        var i := OverGraph(c, f, n);
      }
    } else {
      var i :| 0 <= i < |f.tasks| && f.tasks[i].state != Merged;
      OverLookup(c, f, i);
    }
  }

  /** Fewer rounds than waves cannot merge everything, and as many rounds as the tries of all waves do. */
  lemma TallyAtEnd(c: Course, f: Fleet, r: nat, n: nat)
    requires Over(c, f) && Tally(c, MergedIds(f.tasks), r) && Layers(PlanGraph(c), n)
    ensures r < n ==> !AllMerged(f.tasks)
    ensures r >= Deadline(c, n) ==> AllMerged(f.tasks)
  {
    AllMergedIff(c, f);
    if r < n {
      assert Productive(PlanGraph(c), r);
      var x :| x in Wave(PlanGraph(c), Done(PlanGraph(c), r));
    }
    if r >= Deadline(c, n) { assert Done(PlanGraph(c), n) <= MergedIds(f.tasks); }
  }

  /** A verdict that passes in a round that is not the last wave's ends the run with work left. */
  lemma EarlyPassLeavesWork(c: Course, end: (Fleet, nat, Stop), r: nat, n: nat)
    requires Completes(c, end, 0, n) && Layers(PlanGraph(c), n) && r + 1 < n && AlwaysGreen(c, r)
    ensures end.2 == VerdictPassed && !AllMerged(end.0.tasks)
  {
    assert end.1 <= r + 1;
    TallyAtEnd(c, end.0, end.1, n);
  }

  /** If no verdict can pass before the time of the last wave is over, a run that completes has merged everything. */
  lemma LatePassIsDone(c: Course, end: (Fleet, nat, Stop), n: nat)
    requires Completes(c, end, 0, n) && Layers(PlanGraph(c), n)
    requires forall r: nat :: r + 1 < Deadline(c, n) ==> NeverGreen(c, r)
    ensures AllMerged(end.0.tasks)
  {
    if end.2 == VerdictPassed {
      assert !NeverGreen(c, end.1 - 1);
      TallyAtEnd(c, end.0, end.1, n);
    }
  }

  /** A passed verdict does not mean that the work is done. When every first try lands, a run that completes has
      merged everything exactly if it took as many rounds as there are waves. */
  lemma PassedIsDoneIff(c: Course, end: (Fleet, nat, Stop), n: nat)
    requires Completes(c, end, 0, n) && Layers(PlanGraph(c), n)
    ensures AllMerged(end.0.tasks) ==> end.1 >= n
    ensures c.patience == 1 ==> (AllMerged(end.0.tasks) <==> end.1 == n)
  {
    TallyAtEnd(c, end.0, end.1, n);
    if c.patience == 1 { DeadlineOfFirstTry(c, n); }
  }

  // ---- a concrete run that passes with work left ----

  /** Every submission is empty, and everything that is looked at passes. */
  function GreenWorld(): RoundWorld {
    RoundWorld(false, 0.0, id => id, id => true, id => Submission([], k => Observation(Pass, map[])), QuietWorld(),
               k => Observation(Pass, map[]))
  }

  function Layout(): Gate {
    Gate("layout", Files, System, true, "", "<=", 0.0, [])
  }

  /** b depends on a; the only gate looks at files that are there already. */
  function TwoWaves(glob: Glob): Course {
    Course(glob, TwoTasks().tasks, [Layout()], r => GreenWorld(), 1)
  }

  lemma LayoutIsGreen(glob: Glob)
    ensures AlwaysGreen(TwoWaves(glob), 0)
  {
    var c := TwoWaves(glob);
    var observe := c.world(0).observe;
    forall m: Metrics ensures SystemVerdict(c.gates, m, observe) == AllGreen {
      var gs := BudgetsLast(SystemGates(c.gates));
      assert c.gates[1..] == [];
      assert SystemGates(c.gates) == [Layout()] && gs == [Layout()];
      var rows := EvidenceOf(gs, m, observe, "");
      EvidenceAt(gs, m, observe, "", 1, 0);
      LatestOfLast(rows, 0);
      JudgePassesIff(rows, RequiredIds(SystemGates(c.gates)));
    }
  }

  lemma TwoWavesFavourable(glob: Glob, maxAttempts: int)
    ensures Favourable(TwoWaves(glob), maxAttempts)
    ensures |PlanOf(DependencyDict(TwoWaves(glob).plan)).batches| == 2
  {
    var c := TwoWaves(glob);
    TwoTasksHaveWaves();
    ChainOfTwoWaves(c.plan);
    assert Fair(GreenWorld());
    forall i: nat, r: nat | i < |c.plan| ensures LandsWithin(c, i, r) {
      BareLands(c, i, r);
    }
  }

  lemma BareLands(c: Course, i: nat, r: nat)
    requires i < |c.plan| && c.plan[i].gateIds == [] && c.world(r) == GreenWorld()
    ensures Lands(c, i, r)
  {
    NoTaskGates(c.gates, c.plan[i]);
  }

  lemma {:induction false} NoTaskGates(gates: seq<Gate>, t: Task)
    requires t.gateIds == []
    ensures TaskGates(gates, t) == []
  {
    if gates != [] { NoTaskGates(gates[1..], t); }
  }

  /** The autopilot stops after the first round of this run with a passed verdict, and b has not been merged. */
  lemma PassWithWorkLeft(glob: Glob, maxAttempts: int)
    ensures var c := TwoWaves(glob);
            var f := Fleet(Refreshed(c.plan), c.gates, Planning, NoVerdict, NoVerdict, [], map[], [], 0);
            var end := Drive(TurnOf(glob, c.world, maxAttempts), f, 2, 0);
            end.1 == 1 && end.2 == VerdictPassed && !AllMerged(end.0.tasks)
  {
    var c := TwoWaves(glob);
    var f := Fleet(c.plan, c.gates, Planning, NoVerdict, NoVerdict, [], map[], [], 0);
    TwoWavesFavourable(glob, maxAttempts);
    AutopilotCompletes(c, f, maxAttempts, 2);
    PlanExact(DependencyDict(c.plan));
    var end := Drive(TurnOf(glob, c.world, maxAttempts), f.(tasks := Refreshed(c.plan)), 2, 0);
    LayoutIsGreen(glob);
    EarlyPassLeavesWork(c, end, 0, 2);
  }

  // ---- any submissions ----

  /** A fresh plan has ready work once it is refreshed, so that its rounds are bounded by tasks times attempts when
      every dispatch is submitted, whether or not the submissions are any good. */
  lemma PlannedRoundsBounded(glob: Glob, f: Fleet, world: nat -> RoundWorld, maxAttempts: int, maxRounds: nat)
    requires Initial(f) && f.tasks != [] && PlanOf(DependencyDict(f.tasks)).Waves? && EverySubmission(world)
    requires Fresh(f.tasks) && forall i :: 0 <= i < |f.tasks| ==> f.tasks[i].attempts == 0
    ensures var start := f.(tasks := Refreshed(f.tasks));
            Drive(TurnOf(glob, world, maxAttempts), start, maxRounds, 0).1 <= |f.tasks| * Limit(maxAttempts)
  {
    var start := f.(tasks := Refreshed(f.tasks));
    FreshIsSane(glob, f, maxAttempts);
    FreshHasReady(f.tasks);
    TurnsAreOk(glob, world, maxAttempts);
    DriveOk(glob, TurnOf(glob, world, maxAttempts), start, maxAttempts, maxRounds, 0, true);
  }

  lemma FreshIsSane(glob: Glob, f: Fleet, maxAttempts: int)
    requires Initial(f) && forall i :: 0 <= i < |f.tasks| ==> f.tasks[i].attempts == 0
    ensures var start := f.(tasks := Refreshed(f.tasks));
            Sane(glob, start, maxAttempts) && Autopilot.Left(start, maxAttempts) <= |f.tasks| * Limit(maxAttempts)
  {
    InitialInv(glob, f);
    StepKeepsInv(glob, f, DoRefresh);
    FreshRunInBudget(Refreshed(f.tasks), maxAttempts);
  }
}
