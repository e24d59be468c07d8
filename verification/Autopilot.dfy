/** The loop that drives a run to a verdict (minifleet/cli.py, cmd_autopilot). */
module Autopilot {
  import opened Text
  import opened Options
  import opened Scopes
  import opened Gates
  import opened Model
  import opened FleetModel
  import opened FleetSafety
  import opened FleetBudget
  import opened Scheduler

  /** Everything the outside world decides in one round. */
  datatype RoundWorld = RoundWorld(
    timeUp: bool, budget: real, branchFor: string -> string,
    submitted: string -> bool, work: string -> Submission, git: GitWorld, observe: nat -> Observation)

  datatype Stop =
    OutOfTime | OutOfDispatches | IntegrationFailed | VerdictPassed | Exhausted | NothingLeft | OutOfRounds

  predicate SomeReady(ts: seq<Task>) {
    exists i :: 0 <= i < |ts| && ts[i].state == Ready
  }

  // ---- a wave is dispatched, and can be worked on ----

  /** The ids still to be worked on name different tasks, all of them dispatched. */
  ghost predicate Waiting(ts: seq<Task>, ids: seq<string>, k: nat) {
    Distinct(ids) && forall m :: k <= m < |ids| ==> IsDispatched(ts, ids[m])
  }

  ghost predicate IsDispatched(ts: seq<Task>, id: string) {
    exists i :: 0 <= i < |ts| && ts[i].id == id && ts[i].state == Dispatched
  }

  /** A wave names tasks from its start on. */
  lemma {:induction false} WaveNames(ts: seq<Task>, i: nat, n: nat, id: string)
    requires i <= |ts| && id in WaveFrom(ts, i, n)
    ensures NamesFrom(ts, i, id)
    decreases |ts| - i
  {
    var m := if ts[i].state == Ready && n > 0 then n - 1 else n;
    if id in WaveFrom(ts, i + 1, m) {
      WaveNames(ts, i + 1, m, id);
      var j :| i + 1 <= j < |ts| && ts[j].id == id;
    } else {
      assert ts[i].id == id;
    }
  }

  lemma {:induction false} WaveDistinct(ts: seq<Task>, i: nat, n: nat)
    requires i <= |ts| && UniqueIds(ts)
    ensures Distinct(WaveFrom(ts, i, n))
    decreases |ts| - i
  {
    if i < |ts| {
      var m := if ts[i].state == Ready && n > 0 then n - 1 else n;
      WaveDistinct(ts, i + 1, m);
      var rest := WaveFrom(ts, i + 1, m);
      forall k | 0 <= k < |rest| ensures rest[k] != ts[i].id {
        WaveNames(ts, i + 1, m, rest[k]);
      }
    }
  }

  lemma {:induction false} WaveIsDispatched(ts: seq<Task>, i: nat, n: nat, id: string)
    requires i <= |ts| && id in WaveFrom(ts, i, n)
    ensures IsDispatched(HandOutFrom(ts, i, n), id)
    decreases |ts| - i
  {
    if ts[i].state == Ready && n > 0 {
      var us := ts[i := ts[i].(state := Dispatched)];
      SameWave(ts, us, i + 1, n - 1);
      if id in WaveFrom(us, i + 1, n - 1) {
        WaveIsDispatched(us, i + 1, n - 1, id);
      } else {
        assert HandOutFrom(us, i + 1, n - 1)[i] == us[i];
      }
    } else {
      WaveIsDispatched(ts, i + 1, n, id);
    }
  }

  ghost predicate NamesFrom(ts: seq<Task>, i: nat, id: string) {
    exists j :: i <= j < |ts| && ts[j].id == id
  }

  lemma {:induction false} SameWave(ts: seq<Task>, us: seq<Task>, i: nat, n: nat)
    requires i <= |ts| == |us| && forall j :: i <= j < |ts| ==> us[j] == ts[j]
    ensures WaveFrom(us, i, n) == WaveFrom(ts, i, n)
    decreases |ts| - i
  {
    if i < |ts| {
      SameWave(ts, us, i + 1, if ts[i].state == Ready && n > 0 then n - 1 else n);
    }
  }

  lemma {:induction false} ReadyMeansWave(ts: seq<Task>, i: nat, n: nat, j: nat)
    requires i <= j < |ts| && ts[j].state == Ready && n > 0
    ensures WaveFrom(ts, i, n) != []
    decreases |ts| - i
  {
    if !(ts[i].state == Ready) { ReadyMeansWave(ts, i + 1, n, j); }
  }

  /** An unlimited wave takes every ready task. */
  lemma {:induction false} HandsOutReady(ts: seq<Task>, i: nat, n: nat, j: nat)
    requires i <= j < |ts| && ts[j].state == Ready && n >= |ts| - i
    ensures HandOutFrom(ts, i, n)[j].state == Dispatched
    decreases |ts| - i
  {
    if ts[i].state == Ready {
      var us := ts[i := ts[i].(state := Dispatched)];
      if i < j { HandsOutReady(us, i + 1, n - 1, j); }
    } else {
      HandsOutReady(ts, i + 1, n, j);
    }
  }

  lemma {:induction false} ReadyInWave(ts: seq<Task>, i: nat, n: nat, j: nat)
    requires i <= j < |ts| && ts[j].state == Ready && n >= |ts| - i
    ensures ts[j].id in WaveFrom(ts, i, n)
    decreases |ts| - i
  {
    if i < j { ReadyInWave(ts, i + 1, if ts[i].state == Ready then n - 1 else n, j); }
  }

  /** Ready work is dispatched unless the dispatch budget is spent. */
  lemma ReadyIsChosen(f: Fleet, p: DispatchPlan)
    requires SomeReady(f.tasks) && p.limit == 0 && !BudgetSpent(f, p)
    ensures Chosen(f, p) != []
  {
    var i :| 0 <= i < |f.tasks| && f.tasks[i].state == Ready;
    assert Prepared(f, p)[i].state == Ready;
    ReadyMeansWave(Prepared(f, p), 0, |f.tasks|, i);
  }

  lemma ChosenIsWaiting(f: Fleet, p: DispatchPlan)
    requires UniqueIds(f.tasks)
    ensures Waiting(Dispatch(f, p).tasks, Chosen(f, p), 0)
  {
    if !BudgetSpent(f, p) {
      SkeletonKeepsIds(f.tasks, Prepared(f, p));
      WaveDistinct(Prepared(f, p), 0, WaveLimit(f, p));
      forall id | id in Chosen(f, p) ensures IsDispatched(Dispatch(f, p).tasks, id) {
        WaveIsDispatched(Prepared(f, p), 0, WaveLimit(f, p), id);
      }
    }
  }

  lemma FindDispatched(ts: seq<Task>, id: string)
    requires UniqueIds(ts) && IsDispatched(ts, id)
    ensures Find(ts, id) < |ts| && ts[Find(ts, id)].state == Dispatched
  {
    var i :| 0 <= i < |ts| && ts[i].id == id && ts[i].state == Dispatched;
    FindUnique(ts, i);
  }

  // ---- the loop as a function ----

  /** One worker's result: ingested when it was submitted, otherwise the task is given up. */
  function WorkOne(glob: Glob, f: Fleet, id: string, w: RoundWorld): Fleet {
    if w.submitted(id) then Ingest(glob, f, id, w.work(id)) else GiveUp(f, id)
  }

  function WorkAll(glob: Glob, f: Fleet, ids: seq<string>, w: RoundWorld): Fleet
    decreases |ids|
  {
    if ids == [] then f
    else WorkOne(glob, WorkAll(glob, f, ids[..|ids| - 1], w), ids[|ids| - 1], w)
  }

  function PlanFor(w: RoundWorld): DispatchPlan {
    DispatchPlan(w.budget, 0, w.branchFor)
  }

  /** The state a round leaves, whether the round got as far as working, and why the loop stops after it. */
  datatype RoundEnd = RoundEnd(fleet: Fleet, worked: bool, stop: Option<Stop>)

  function RoundOf(glob: Glob, f: Fleet, w: RoundWorld, maxAttempts: int): RoundEnd {
    var d := Dispatch(f, PlanFor(w));
    if w.timeUp then RoundEnd(f, false, Some(OutOfTime))
    else if Chosen(f, PlanFor(w)) == [] && SomeReady(d.tasks) then RoundEnd(d, false, Some(OutOfDispatches))
    else Conclude(WorkAll(glob, d, Chosen(f, PlanFor(w)), w), w, maxAttempts)
  }

  /** Integrate, verify, repair. */
  function Conclude(f: Fleet, w: RoundWorld, maxAttempts: int): RoundEnd {
    var g := Integrate(f, w.git);
    if IntegrationOutcome(f, w.git).0 != Integrated then RoundEnd(g, true, Some(IntegrationFailed))
    else AfterVerify(Verify(g, w.observe, maxAttempts), maxAttempts)
  }

  function AfterVerify(v: Fleet, maxAttempts: int): RoundEnd {
    if v.status == Passed then RoundEnd(v, true, Some(VerdictPassed))
    else RoundEnd(RepairFailed(v, maxAttempts), true, StopAfterRepair(v, maxAttempts))
  }

  function StopAfterRepair(v: Fleet, maxAttempts: int): Option<Stop> {
    if SomeReady(RepairFailed(v, maxAttempts).tasks) then None
    else if FailedIds(v.tasks, maxAttempts, true) + Repaired(v, maxAttempts).escalated != {} then Some(Exhausted)
    else Some(NothingLeft)
  }

  /** What one turn of the loop makes of a state; the round number picks the outside world it meets. */
  type Turn = (Fleet, nat) -> RoundEnd

  function TurnOf(glob: Glob, world: nat -> RoundWorld, maxAttempts: int): Turn {
    (f: Fleet, r: nat) => RoundOf(glob, f, world(r), maxAttempts)
  }

  /** The loop from round r on: the final state, the number of rounds that worked, and why it stopped. */
  function Drive(turn: Turn, f: Fleet, maxRounds: nat, r: nat): (Fleet, nat, Stop)
    decreases maxRounds - r
  {
    if r >= maxRounds then (f, r, OutOfRounds)
    else
      var e := turn(f, r);
      match e.stop
      case Some(stop) => (e.fleet, if e.worked then r + 1 else r, stop)
      case None => Drive(turn, e.fleet, maxRounds, r + 1)
  }

  // ---- what the loop keeps ----

  ghost predicate AllSubmitted(w: RoundWorld) {
    forall id :: w.submitted(id)
  }

  ghost predicate EverySubmission(world: nat -> RoundWorld) {
    forall r :: AllSubmitted(world(r))
  }

  /** In order and within the attempt budget. */
  ghost predicate Sane(glob: Glob, f: Fleet, maxAttempts: int) {
    Inv(glob, f) && AllInBudget(f.tasks, maxAttempts)
  }

  function Left(f: Fleet, maxAttempts: int): int {
    Remaining(f.tasks, maxAttempts)
  }

  lemma WorkOneOk(glob: Glob, f: Fleet, id: string, w: RoundWorld, maxAttempts: int)
    requires Sane(glob, f, maxAttempts) && IsDispatched(f.tasks, id)
    ensures Sane(glob, WorkOne(glob, f, id, w), maxAttempts)
    ensures Left(WorkOne(glob, f, id, w), maxAttempts) == Left(f, maxAttempts) - if w.submitted(id) then 1 else 0
  {
    FindDispatched(f.tasks, id);
    if w.submitted(id) {
      IngestKeepsInv(glob, f, id, w.work(id));
      IngestSpends(glob, f, id, w.work(id), maxAttempts);
    } else {
      GiveUpMoves(f, id);
      MovesKeepInv(glob, f, GiveUp(f, id));
      GiveUpSpares(f, id, maxAttempts);
      SparesKeepsBudget(f.tasks, GiveUp(f, id).tasks, maxAttempts);
    }
  }

  /** Working on one task leaves the others waiting. */
  lemma StillWaiting(glob: Glob, f: Fleet, ids: seq<string>, k: nat, w: RoundWorld)
    requires UniqueIds(f.tasks) && k < |ids| && Waiting(f.tasks, ids, k)
    ensures Waiting(WorkOne(glob, f, ids[k], w).tasks, ids, k + 1)
  {
    var us := WorkOne(glob, f, ids[k], w).tasks;
    forall m | k + 1 <= m < |ids| ensures IsDispatched(us, ids[m]) {
      assert IsDispatched(f.tasks, ids[m]);
      var i :| 0 <= i < |f.tasks| && f.tasks[i].id == ids[m] && f.tasks[i].state == Dispatched;
      assert us[i] == f.tasks[i];
    }
  }

  lemma WorkAllSnoc(glob: Glob, f: Fleet, ids: seq<string>, k: nat, w: RoundWorld)
    requires k < |ids|
    ensures WorkAll(glob, f, ids[..k + 1], w) == WorkOne(glob, WorkAll(glob, f, ids[..k], w), ids[k], w)
  {
    assert ids[..k + 1][..k] == ids[..k];
  }

  /** Results are taken in the order of the wave. */
  lemma {:induction false} WorkInOrder(glob: Glob, f: Fleet, id: string, ids: seq<string>, w: RoundWorld)
    ensures WorkAll(glob, f, [id] + ids, w) == WorkAll(glob, WorkOne(glob, f, id, w), ids, w)
    decreases |ids|
  {
    var all := [id] + ids;
    if ids == [] {
      assert all[..0] == [];
    } else {
      var n := |ids| - 1;
      assert all[..|all| - 1] == [id] + ids[..n] && all[|all| - 1] == ids[n];
      WorkInOrder(glob, f, id, ids[..n], w);
    }
  }

  /** All results of a wave: when every one was submitted, each uses one attempt. */
  lemma {:induction false} WorkAllOk(glob: Glob, f: Fleet, ids: seq<string>, k: nat, w: RoundWorld, maxAttempts: int)
    requires Sane(glob, f, maxAttempts) && Waiting(f.tasks, ids, 0) && k <= |ids|
    ensures var g := WorkAll(glob, f, ids[..k], w);
            && Sane(glob, g, maxAttempts) && Waiting(g.tasks, ids, k)
            && (AllSubmitted(w) ==> Left(g, maxAttempts) == Left(f, maxAttempts) - k)
  {
    if k > 0 {
      WorkAllOk(glob, f, ids, k - 1, w, maxAttempts);
      WorkAllSnoc(glob, f, ids, k - 1, w);
      WorkNextOk(glob, WorkAll(glob, f, ids[..k - 1], w), ids, k - 1, w, maxAttempts);
    } else {
      assert ids[..0] == [];
    }
  }

  lemma WorkNextOk(glob: Glob, g: Fleet, ids: seq<string>, k: nat, w: RoundWorld, maxAttempts: int)
    requires Sane(glob, g, maxAttempts) && k < |ids| && Waiting(g.tasks, ids, k)
    ensures var h := WorkOne(glob, g, ids[k], w);
            && Sane(glob, h, maxAttempts) && Waiting(h.tasks, ids, k + 1)
            && Left(h, maxAttempts) == Left(g, maxAttempts) - if w.submitted(ids[k]) then 1 else 0
  {
    assert IsDispatched(g.tasks, ids[k]);
    WorkOneOk(glob, g, ids[k], w, maxAttempts);
    StillWaiting(glob, g, ids, k, w);
  }

  lemma DispatchOk(glob: Glob, f: Fleet, p: DispatchPlan, maxAttempts: int)
    requires Sane(glob, f, maxAttempts)
    ensures Sane(glob, Dispatch(f, p), maxAttempts) && Left(Dispatch(f, p), maxAttempts) == Left(f, maxAttempts)
  {
    DispatchMoves(glob, f, p);
    MovesKeepInv(glob, f, Dispatch(f, p));
    DispatchSpares(f, p, maxAttempts);
    SparesKeepsBudget(f.tasks, Dispatch(f, p).tasks, maxAttempts);
  }

  lemma IntegrateOk(glob: Glob, f: Fleet, w: GitWorld, maxAttempts: int)
    requires Sane(glob, f, maxAttempts)
    ensures Sane(glob, Integrate(f, w), maxAttempts) && Left(Integrate(f, w), maxAttempts) == Left(f, maxAttempts)
  {
    IntegrateKeepsInv(glob, f, w);
    IntegrateSpares(f, w, maxAttempts);
    SparesKeepsBudget(f.tasks, Integrate(f, w).tasks, maxAttempts);
  }

  lemma VerifyOk(glob: Glob, f: Fleet, observe: nat -> Observation, maxAttempts: int)
    requires Sane(glob, f, maxAttempts)
    ensures var g := Verify(f, observe, maxAttempts);
            && Sane(glob, g, maxAttempts) && Left(g, maxAttempts) == Left(f, maxAttempts)
            && (g.status == Passed <==> g.verdict == AllGreen)
  {
    VerifyMoves(glob, f, observe, maxAttempts);
    MovesKeepInv(glob, f, Verify(f, observe, maxAttempts));
    VerifySpares(f, observe, maxAttempts);
    SparesKeepsBudget(f.tasks, Verify(f, observe, maxAttempts).tasks, maxAttempts);
  }

  lemma RepairOk(glob: Glob, f: Fleet, maxAttempts: int)
    requires Sane(glob, f, maxAttempts)
    ensures Sane(glob, RepairFailed(f, maxAttempts), maxAttempts)
    ensures Left(RepairFailed(f, maxAttempts), maxAttempts) == Left(f, maxAttempts)
  {
    RepairMoves(glob, f, maxAttempts);
    MovesKeepInv(glob, f, RepairFailed(f, maxAttempts));
    RepairSpares(f, maxAttempts);
    SparesKeepsBudget(f.tasks, RepairFailed(f, maxAttempts).tasks, maxAttempts);
  }

  /** What a stop says about the state it leaves. */
  ghost predicate StopMeans(stop: Stop, f: Fleet) {
    && (stop == VerdictPassed ==> f.verdict == AllGreen)
    && (stop == OutOfDispatches ==> SomeReady(f.tasks))
    && (stop == NothingLeft || stop == Exhausted ==> !SomeReady(f.tasks))
  }

  ghost predicate EndMeans(e: RoundEnd) {
    if e.stop.None? then e.worked && SomeReady(e.fleet.tasks) else StopMeans(e.stop.value, e.fleet)
  }

  lemma ConcludeOk(glob: Glob, f: Fleet, w: RoundWorld, maxAttempts: int)
    requires Sane(glob, f, maxAttempts)
    ensures var e := Conclude(f, w, maxAttempts);
            Sane(glob, e.fleet, maxAttempts) && Left(e.fleet, maxAttempts) == Left(f, maxAttempts) && EndMeans(e)
  {
    var g := Integrate(f, w.git);
    IntegrateOk(glob, f, w.git, maxAttempts);
    if IntegrationOutcome(f, w.git).0 == Integrated {
      VerifyOk(glob, g, w.observe, maxAttempts);
      RepairOk(glob, Verify(g, w.observe, maxAttempts), maxAttempts);
    }
  }

  /** A turn keeps the run sane; when every dispatch is submitted and there was ready work, it uses an attempt. */
  ghost predicate TurnOk(glob: Glob, f: Fleet, e: RoundEnd, maxAttempts: int, submitted: bool) {
    && Sane(glob, e.fleet, maxAttempts) && EndMeans(e)
    && (submitted && e.worked ==>
          Left(e.fleet, maxAttempts) + (if SomeReady(f.tasks) then 1 else 0) <= Left(f, maxAttempts))
  }

  lemma RoundOk(glob: Glob, f: Fleet, w: RoundWorld, maxAttempts: int)
    requires Sane(glob, f, maxAttempts)
    ensures TurnOk(glob, f, RoundOf(glob, f, w, maxAttempts), maxAttempts, AllSubmitted(w))
  {
    var d, ids := Dispatch(f, PlanFor(w)), Chosen(f, PlanFor(w));
    DispatchOk(glob, f, PlanFor(w), maxAttempts);
    ChosenIsWaiting(f, PlanFor(w));
    WorkAllOk(glob, d, ids, |ids|, w, maxAttempts);
    assert ids[..|ids|] == ids;
    ConcludeOk(glob, WorkAll(glob, d, ids, w), w, maxAttempts);
    if SomeReady(f.tasks) && !BudgetSpent(f, PlanFor(w)) { ReadyIsChosen(f, PlanFor(w)); }
  }

  ghost predicate TurnsOk(glob: Glob, turn: Turn, maxAttempts: int, submitted: bool) {
    forall f, r {:trigger turn(f, r)} :: Sane(glob, f, maxAttempts) ==>
        TurnOk(glob, f, turn(f, r), maxAttempts, submitted)
  }

  lemma TurnsAreOk(glob: Glob, world: nat -> RoundWorld, maxAttempts: int)
    ensures TurnsOk(glob, TurnOf(glob, world, maxAttempts), maxAttempts, EverySubmission(world))
  {
    forall f: Fleet, r: nat | Sane(glob, f, maxAttempts)
      ensures TurnOk(glob, f, TurnOf(glob, world, maxAttempts)(f, r), maxAttempts, EverySubmission(world))
    {
      RoundOk(glob, f, world(r), maxAttempts);
      assert EverySubmission(world) ==> AllSubmitted(world(r));
    }
  }

  /** What the loop as a whole guarantees, started in f. */
  ghost predicate DriveMeans(glob: Glob, f: Fleet, end: (Fleet, nat, Stop), maxAttempts: int, maxRounds: nat, r: nat,
                             submitted: bool) {
    && Sane(glob, end.0, maxAttempts) && StopMeans(end.2, end.0) && (r <= maxRounds ==> r <= end.1 <= maxRounds)
    && (submitted ==> end.1 <= r + Left(f, maxAttempts) + if SomeReady(f.tasks) then 0 else 1)
  }

  lemma DriveGoesOn(glob: Glob, turn: Turn, f: Fleet, maxAttempts: int, maxRounds: nat, r: nat, submitted: bool)
    requires r < maxRounds && turn(f, r).stop.None? && TurnOk(glob, f, turn(f, r), maxAttempts, submitted)
    requires var g := turn(f, r).fleet;
             DriveMeans(glob, g, Drive(turn, g, maxRounds, r + 1), maxAttempts, maxRounds, r + 1, submitted)
    ensures DriveMeans(glob, f, Drive(turn, f, maxRounds, r), maxAttempts, maxRounds, r, submitted)
  {
    assert Drive(turn, f, maxRounds, r) == Drive(turn, turn(f, r).fleet, maxRounds, r + 1);
  }

  lemma DriveStops(glob: Glob, turn: Turn, f: Fleet, maxAttempts: int, maxRounds: nat, r: nat, submitted: bool)
    requires Sane(glob, f, maxAttempts) && TurnOk(glob, f, turn(f, r), maxAttempts, submitted)
    requires r >= maxRounds || turn(f, r).stop.Some?
    ensures DriveMeans(glob, f, Drive(turn, f, maxRounds, r), maxAttempts, maxRounds, r, submitted)
  {
    RemainingBounds(f.tasks, maxAttempts);
    RemainingBounds(turn(f, r).fleet.tasks, maxAttempts);
  }

  /** Over the whole loop no task is ever ingested beyond its limit; and when every dispatch is submitted, the number
      of rounds is bounded by the attempts that remained, whatever max_rounds allows. */
  lemma {:induction false} DriveOk(glob: Glob, turn: Turn, f: Fleet, maxAttempts: int, maxRounds: nat, r: nat,
                                   submitted: bool)
    requires Sane(glob, f, maxAttempts) && TurnsOk(glob, turn, maxAttempts, submitted)
    ensures DriveMeans(glob, f, Drive(turn, f, maxRounds, r), maxAttempts, maxRounds, r, submitted)
    decreases maxRounds - r
  {
    assert TurnOk(glob, f, turn(f, r), maxAttempts, submitted);
    if r < maxRounds && turn(f, r).stop.None? {
      DriveOk(glob, turn, turn(f, r).fleet, maxAttempts, maxRounds, r + 1, submitted);
      DriveGoesOn(glob, turn, f, maxAttempts, maxRounds, r, submitted);
    } else {
      DriveStops(glob, turn, f, maxAttempts, maxRounds, r, submitted);
    }
  }

  /** A fresh run starts within every budget, with at most max(1, max_attempts) attempts a task to spend. */
  lemma FreshRunInBudget(ts: seq<Task>, maxAttempts: int)
    requires forall t :: t in ts ==> t.attempts == 0
    ensures AllInBudget(ts, maxAttempts) && Remaining(ts, maxAttempts) <= |ts| * Limit(maxAttempts)
  {
    forall i | 0 <= i < |ts| ensures InBudget(ts[i], maxAttempts) {
      assert ts[i] in ts;
    }
    RemainingBounds(ts, maxAttempts);
  }
}
