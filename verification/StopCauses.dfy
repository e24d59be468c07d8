/** Why the autopilot stops, said with the outside world and the state it leaves (minifleet/cli.py, cmd_autopilot). */
module StopCauses {
  import opened Options
  import opened Scopes
  import opened Gates
  import opened Model
  import opened FleetModel
  import opened FleetRepair
  import opened Scheduler
  import opened Autopilot

  /** How the loop ends when it is run over the worlds: state, rounds that worked, and why. */
  function Outcome(glob: Glob, world: nat -> RoundWorld, maxAttempts: int, f: Fleet, maxRounds: nat): (Fleet, nat, Stop)
  {
    Drive(TurnOf(glob, world, maxAttempts), f, maxRounds, 0)
  }

  /** The loop gets as far as the start of round r, and finds the run in state g: given r rounds only, it runs out
      of rounds there. */
  ghost predicate ComesTo(glob: Glob, world: nat -> RoundWorld, maxAttempts: int, f: Fleet, r: nat, g: Fleet) {
    Outcome(glob, world, maxAttempts, f, r) == (g, r, OutOfRounds)
  }

  ghost predicate NoTurnRunsOut(turn: Turn) {
    forall f, r {:trigger turn(f, r)} :: turn(f, r).stop != Some(OutOfRounds)
  }

  lemma TurnsNeverRunOut(glob: Glob, world: nat -> RoundWorld, maxAttempts: int)
    ensures NoTurnRunsOut(TurnOf(glob, world, maxAttempts))
  {
    forall f: Fleet, r: nat ensures TurnOf(glob, world, maxAttempts)(f, r).stop != Some(OutOfRounds) {
      RoundCaused(glob, f, world(r), maxAttempts);
    }
  }

  /** More rounds change nothing for a loop that stopped, and otherwise it goes on where it ran out. */
  lemma {:induction false} LongerDrive(turn: Turn, f: Fleet, k: nat, maxRounds: nat, r: nat)
    requires NoTurnRunsOut(turn) && r <= k <= maxRounds
    ensures var (g, n, stop) := Drive(turn, f, k, r);
            if stop == OutOfRounds then n == k && Drive(turn, f, maxRounds, r) == Drive(turn, g, maxRounds, k)
            else Drive(turn, f, maxRounds, r) == (g, n, stop)
    decreases k - r
  {
    if r < k && turn(f, r).stop.None? { LongerDrive(turn, turn(f, r).fleet, k, maxRounds, r + 1); }
  }

  lemma GoesOn(glob: Glob, world: nat -> RoundWorld, maxAttempts: int, f: Fleet, maxRounds: nat, r: nat, g: Fleet)
    requires r <= maxRounds && ComesTo(glob, world, maxAttempts, f, r, g)
    ensures Outcome(glob, world, maxAttempts, f, maxRounds) == Drive(TurnOf(glob, world, maxAttempts), g, maxRounds, r)
  {
    TurnsNeverRunOut(glob, world, maxAttempts);
    LongerDrive(TurnOf(glob, world, maxAttempts), f, r, maxRounds, 0);
  }

  // ---- stops before a round works ----

  /** Once the time is up nothing more is dispatched: the loop stops before the round, in the state it was in. */
  lemma TimeUpStops(glob: Glob, world: nat -> RoundWorld, maxAttempts: int, f: Fleet, maxRounds: nat, r: nat, g: Fleet)
    requires r < maxRounds && ComesTo(glob, world, maxAttempts, f, r, g) && world(r).timeUp
    ensures Outcome(glob, world, maxAttempts, f, maxRounds) == (g, r, OutOfTime)
  {
    GoesOn(glob, world, maxAttempts, f, maxRounds, r, g);
  }

  /** The number of tasks dispatched has reached the budget. */
  predicate DispatchesSpent(f: Fleet, w: RoundWorld) {
    w.budget != 0.0 && f.dispatched as real >= w.budget
  }

  /** Once the dispatch budget is spent while work is ready, the loop stops before the round, in the state it was in. */
  lemma SpentBudgetStops(glob: Glob, world: nat -> RoundWorld, maxAttempts: int, f: Fleet, maxRounds: nat, r: nat,
                         g: Fleet)
    requires r < maxRounds && ComesTo(glob, world, maxAttempts, f, r, g) && !world(r).timeUp
    requires DispatchesSpent(g, world(r)) && exists i :: 0 <= i < |g.tasks| && g.tasks[i].state == Ready
    ensures Outcome(glob, world, maxAttempts, f, maxRounds) == (g, r, OutOfDispatches)
  {
    GoesOn(glob, world, maxAttempts, f, maxRounds, r, g);
    var turn := TurnOf(glob, world, maxAttempts);
    assert turn(g, r) == RoundEnd(g, false, Some(OutOfDispatches));
  }

  // ---- the cause of every stop ----

  ghost predicate SomeTaskReady(f: Fleet) {
    exists i :: 0 <= i < |f.tasks| && f.tasks[i].state == Ready
  }

  ghost predicate SomeTaskGivenUp(f: Fleet, maxAttempts: int) {
    exists i :: 0 <= i < |f.tasks| && f.tasks[i].state == Failed && f.tasks[i].attempts >= maxAttempts
  }

  ghost predicate SomeTaskFailed(f: Fleet) {
    exists i :: 0 <= i < |f.tasks| && f.tasks[i].state == Failed
  }

  /** The last verification failed, and its verdict has been answered for. */
  ghost predicate FailedVerdict(f: Fleet) {
    f.status == RunFailed && f.verdict != AllGreen && f.attributed == f.verdict
  }

  /** What holds of the state and the rounds when the loop stops: w is the world of the round it stopped in. */
  ghost predicate Caused(stop: Stop, f: Fleet, w: RoundWorld, maxAttempts: int) {
    match stop
    case OutOfTime => w.timeUp
    case OutOfDispatches => !w.timeUp && DispatchesSpent(f, w) && SomeTaskReady(f)
    case IntegrationFailed =>
      || (f.status == Integrating && f.verdict == OwnershipConflict)
      || (f.status == RunFailed && f.verdict == IntegrationError)
    case VerdictPassed => f.status == Passed && f.verdict == AllGreen
    case Exhausted => FailedVerdict(f) && !SomeTaskReady(f) && SomeTaskGivenUp(f, maxAttempts)
    case NothingLeft => FailedVerdict(f) && !SomeTaskReady(f) && !SomeTaskFailed(f)
    case OutOfRounds => true
  }

  /** The round in which the loop stopped after so many rounds that worked. */
  function StopRound(rounds: nat, stop: Stop): nat {
    if stop == OutOfTime || stop == OutOfDispatches || rounds == 0 then rounds else rounds - 1
  }

  /** The loop was entered in round r. */
  ghost predicate EndCaused(world: nat -> RoundWorld, maxAttempts: int, end: (Fleet, nat, Stop), maxRounds: nat, r: nat)
  {
    && Caused(end.2, end.0, world(StopRound(end.1, end.2)), maxAttempts)
    && (end.2 == OutOfRounds ==> end.1 == maxRounds)
    && (end.2 == OutOfRounds && r < maxRounds ==> FailedVerdict(end.0) && SomeTaskReady(end.0))
    && (end.2 == OutOfTime || end.2 == OutOfDispatches ==> end.1 < maxRounds)
    && (end.2 != OutOfTime && end.2 != OutOfDispatches && end.2 != OutOfRounds ==> 0 < end.1 <= maxRounds)
  }

  /** What one turn leaves when the loop goes on, and why it stops. */
  ghost predicate TurnCaused(e: RoundEnd, w: RoundWorld, maxAttempts: int) {
    && (e.stop.None? ==> e.worked && SomeTaskReady(e.fleet) && FailedVerdict(e.fleet))
    && (e.stop.Some? ==>
          && e.stop.value != OutOfRounds && Caused(e.stop.value, e.fleet, w, maxAttempts)
          && (e.worked <==> e.stop.value != OutOfTime && e.stop.value != OutOfDispatches))
  }

  lemma SpentBudgetOnly(f: Fleet, w: RoundWorld)
    requires Chosen(f, PlanFor(w)) == [] && SomeReady(Dispatch(f, PlanFor(w)).tasks)
    ensures DispatchesSpent(f, w) && Dispatch(f, PlanFor(w)) == f && SomeTaskReady(f)
  {
    if !DispatchesSpent(f, w) {
      var d, q := Dispatch(f, PlanFor(w)), Prepared(f, PlanFor(w));
      var i :| 0 <= i < |d.tasks| && d.tasks[i].state == Ready;
      assert d.tasks == HandOut(q, |f.tasks|);
      assert q[i].state == Ready;
      ReadyMeansWave(q, 0, |f.tasks|, i);
    }
  }

  lemma VerifiedVerdict(f: Fleet, observe: nat -> Observation, maxAttempts: int)
    ensures var v := Verify(f, observe, maxAttempts);
            if v.status == Passed then v.verdict == AllGreen else FailedVerdict(v)
  {
  }

  /** After repair a task is failed exactly when its attempts are used up, and then it was reported. */
  lemma FailedIsReported(v: Fleet, maxAttempts: int)
    ensures SomeTaskFailed(RepairFailed(v, maxAttempts)) <==> SomeTaskGivenUp(RepairFailed(v, maxAttempts), maxAttempts)
    ensures SomeTaskFailed(RepairFailed(v, maxAttempts)) <==>
              FailedIds(v.tasks, maxAttempts, true) + Repaired(v, maxAttempts).escalated != {}
  {
    var x := RepairFailed(v, maxAttempts);
    var ids := FailedIds(v.tasks, maxAttempts, true) + Repaired(v, maxAttempts).escalated;
    RepairLengths(v, maxAttempts);
    if i :| 0 <= i < |x.tasks| && x.tasks[i].state == Failed {
      RepairLeavesOnlyExhausted(v, maxAttempts, i);
      FailedWasReported(v, maxAttempts, i);
    }
    if id :| id in ids { ReportedStaysFailed(v, maxAttempts, id); }
  }

  lemma FailedWasReported(v: Fleet, maxAttempts: int, i: nat)
    requires i < |v.tasks| == |RepairFailed(v, maxAttempts).tasks|
    requires RepairFailed(v, maxAttempts).tasks[i].state == Failed
    ensures v.tasks[i].id in FailedIds(v.tasks, maxAttempts, true) + Repaired(v, maxAttempts).escalated
  {
    var hit := Implicated(v.tasks, v.gates, FailingNow(v), None);
    RepairedAt(v, maxAttempts, i);
    if v.tasks[i].state == Failed {
      assert v.tasks[i] in v.tasks;
    } else {
      EscalatedInRepair(v, maxAttempts);
    }
  }

  lemma EscalatedInRepair(v: Fleet, maxAttempts: int)
    ensures Repaired(v, maxAttempts).escalated
         == IdsAt(v.tasks, Implicated(v.tasks, v.gates, FailingNow(v), None), maxAttempts, true)
  {
    var r := ReopenAll(v.tasks, maxAttempts);
    AttributionExact(r, v.gates, FailingNow(v), None, maxAttempts);
    SameImplicated(v.tasks, r, v.gates, FailingNow(v), None);
    var hit := Implicated(v.tasks, v.gates, FailingNow(v), None);
    forall i: nat | i < |v.tasks|
      ensures r[i].id == v.tasks[i].id && Escalates(r[i], maxAttempts) == Escalates(v.tasks[i], maxAttempts)
    {
    }
    assert IdsAt(r, hit, maxAttempts, true) == IdsAt(v.tasks, hit, maxAttempts, true);
  }

  lemma ReportedStaysFailed(v: Fleet, maxAttempts: int, id: string)
    requires id in FailedIds(v.tasks, maxAttempts, true) + Repaired(v, maxAttempts).escalated
    ensures SomeTaskFailed(RepairFailed(v, maxAttempts))
  {
    EscalatedInRepair(v, maxAttempts);
    var hit := Implicated(v.tasks, v.gates, FailingNow(v), None);
    if id in FailedIds(v.tasks, maxAttempts, true) {
      var t :| t in v.tasks && t.state == Failed && Escalates(t, maxAttempts) && t.id == id;
      var i :| 0 <= i < |v.tasks| && v.tasks[i] == t;
      UsedUpStaysFailed(v, maxAttempts, i);
    } else {
      var i: nat :| i < |v.tasks| && i in hit && Escalates(v.tasks[i], maxAttempts) && v.tasks[i].id == id;
      UsedUpStaysFailed(v, maxAttempts, i);
    }
  }

  lemma UsedUpStaysFailed(v: Fleet, maxAttempts: int, i: nat)
    requires i < |v.tasks| && Escalates(v.tasks[i], maxAttempts)
    requires v.tasks[i].state == Failed || i in Implicated(v.tasks, v.gates, FailingNow(v), None)
    ensures SomeTaskFailed(RepairFailed(v, maxAttempts))
  {
    RepairLengths(v, maxAttempts);
    RepairedAt(v, maxAttempts, i);
    assert RepairFailed(v, maxAttempts).tasks[i].state == Failed;
  }

  lemma AfterVerifyCaused(v: Fleet, w: RoundWorld, maxAttempts: int)
    requires if v.status == Passed then v.verdict == AllGreen else FailedVerdict(v)
    ensures TurnCaused(AfterVerify(v, maxAttempts), w, maxAttempts) && AfterVerify(v, maxAttempts).worked
  {
    FailedIsReported(v, maxAttempts);
  }

  lemma ConcludeCaused(f: Fleet, w: RoundWorld, maxAttempts: int)
    ensures TurnCaused(Conclude(f, w, maxAttempts), w, maxAttempts)
  {
    var g := Integrate(f, w.git);
    if IntegrationOutcome(f, w.git).0 == Integrated {
      VerifiedVerdict(g, w.observe, maxAttempts);
      AfterVerifyCaused(Verify(g, w.observe, maxAttempts), w, maxAttempts);
    }
  }

  lemma RoundCaused(glob: Glob, f: Fleet, w: RoundWorld, maxAttempts: int)
    ensures TurnCaused(RoundOf(glob, f, w, maxAttempts), w, maxAttempts)
  {
    if !w.timeUp {
      if Chosen(f, PlanFor(w)) == [] && SomeReady(Dispatch(f, PlanFor(w)).tasks) {
        SpentBudgetOnly(f, w);
      } else {
        ConcludeCaused(WorkAll(glob, Dispatch(f, PlanFor(w)), Chosen(f, PlanFor(w)), w), w, maxAttempts);
      }
    }
  }

  lemma StopCaused(world: nat -> RoundWorld, maxAttempts: int, e: RoundEnd, maxRounds: nat, r: nat)
    requires r < maxRounds && e.stop.Some? && TurnCaused(e, world(r), maxAttempts)
    ensures EndCaused(world, maxAttempts, (e.fleet, if e.worked then r + 1 else r, e.stop.value), maxRounds, r)
  {
  }

  ghost predicate TurnsCaused(turn: Turn, world: nat -> RoundWorld, maxAttempts: int) {
    forall f, r {:trigger turn(f, r)} :: TurnCaused(turn(f, r), world(r), maxAttempts)
  }

  lemma AllTurnsCaused(glob: Glob, world: nat -> RoundWorld, maxAttempts: int)
    ensures TurnsCaused(TurnOf(glob, world, maxAttempts), world, maxAttempts)
  {
    forall f: Fleet, r: nat ensures TurnCaused(TurnOf(glob, world, maxAttempts)(f, r), world(r), maxAttempts) {
      RoundCaused(glob, f, world(r), maxAttempts);
    }
  }

  lemma {:induction false} DriveCaused(turn: Turn, world: nat -> RoundWorld, maxAttempts: int, f: Fleet,
                                       maxRounds: nat, r: nat)
    requires r <= maxRounds && TurnsCaused(turn, world, maxAttempts)
    ensures EndCaused(world, maxAttempts, Drive(turn, f, maxRounds, r), maxRounds, r)
    decreases maxRounds - r
  {
    if r < maxRounds {
      var e := turn(f, r);
      assert TurnCaused(e, world(r), maxAttempts);
      if e.stop.None? {
        DriveCaused(turn, world, maxAttempts, e.fleet, maxRounds, r + 1);
      } else {
        StopCaused(world, maxAttempts, e, maxRounds, r);
      }
    }
  }

  /** Every stop has its cause, from whatever state the loop started: it says that time is up only when it is, that
      dispatches are spent only when work is ready and the budget is reached; the verdict passed; integration failed;
      nothing is ready after a failed verdict, and then some task has used up its attempts, or no task is failed; or
      all rounds are used up, with work ready and a failed verdict. */
  lemma EveryStopHasItsCause(glob: Glob, world: nat -> RoundWorld, maxAttempts: int, f: Fleet, maxRounds: nat)
    ensures EndCaused(world, maxAttempts, Outcome(glob, world, maxAttempts, f, maxRounds), maxRounds, 0)
  {
    AllTurnsCaused(glob, world, maxAttempts);
    DriveCaused(TurnOf(glob, world, maxAttempts), world, maxAttempts, f, maxRounds, 0);
  }
}
