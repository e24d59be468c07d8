/** The loop that drives a run to a verdict, as the source runs it (minifleet/cli.py, cmd_autopilot). */
module AutopilotLoop {
  import opened Options
  import opened FleetModel
  import opened Scheduler
  import opened Autopilot
  import opened StopCauses

  method WorkOn(s: Scheduler, id: string, w: RoundWorld)
    modifies s
    ensures s.State() == WorkOne(s.glob, old(s.State()), id, w)
  {
    if w.submitted(id) {
      var known := s.Ingest(id, w.work(id));
    } else {
      s.GiveUp(id);
    }
  }

  method WorkThrough(s: Scheduler, ids: seq<string>, w: RoundWorld)
    modifies s
    ensures s.State() == WorkAll(s.glob, old(s.State()), ids, w)
  {
    for k := 0 to |ids|
      invariant s.State() == WorkAll(s.glob, old(s.State()), ids[..k], w)
    {
      WorkOn(s, ids[k], w);
      WorkAllSnoc(s.glob, old(s.State()), ids, k, w);
    }
    assert ids[..|ids|] == ids;
  }

  method ConcludeRound(s: Scheduler, w: RoundWorld, maxAttempts: int) returns (stop: Option<Stop>)
    modifies s
    ensures RoundEnd(s.State(), true, stop) == Conclude(old(s.State()), w, maxAttempts)
  {
    var integration := s.Integrate(w.git);
    if integration != Integrated {
      return Some(IntegrationFailed);
    }
    var report := s.Verify(w.observe, maxAttempts);
    if s.status == Passed {
      return Some(VerdictPassed);
    }
    var reopened, escalated, unattributed := s.RepairFailed(maxAttempts);
    if SomeReady(s.tasks) {
      return None;
    }
    return Some(if escalated != {} then Exhausted else NothingLeft);
  }

  method OneRound(s: Scheduler, w: RoundWorld, maxAttempts: int) returns (worked: bool, stop: Option<Stop>)
    modifies s
    ensures RoundEnd(s.State(), worked, stop) == RoundOf(s.glob, old(s.State()), w, maxAttempts)
    ensures stop.None? ==> worked
  {
    if w.timeUp {
      return false, Some(OutOfTime);
    }
    var ids := s.Dispatch(PlanFor(w));
    if ids == [] && SomeReady(s.tasks) {
      return false, Some(OutOfDispatches);
    }
    WorkThrough(s, ids, w);
    worked := true;
    stop := ConcludeRound(s, w, maxAttempts);
  }

  method Loop(s: Scheduler, world: nat -> RoundWorld, maxAttempts: int, maxRounds: nat)
    returns (rounds: nat, stop: Stop)
    modifies s
    ensures (s.State(), rounds, stop) == Drive(TurnOf(s.glob, world, maxAttempts), old(s.State()), maxRounds, 0)
  {
    ghost var start, turn := s.State(), TurnOf(s.glob, world, maxAttempts);
    rounds := 0;
    while rounds < maxRounds
      invariant rounds <= maxRounds
      invariant Drive(turn, s.State(), maxRounds, rounds) == Drive(turn, start, maxRounds, 0)
    {
      ghost var f := s.State();
      var worked, end := OneRound(s, world(rounds), maxAttempts);
      assert turn(f, rounds) == RoundEnd(s.State(), worked, end);
      if worked {
        rounds := rounds + 1;
      }
      if end.Some? {
        return rounds, end.value;
      }
    }
    return rounds, OutOfRounds;
  }

  /** Drive the run: exactly the loop above, and what it therefore keeps. */
  method Run(s: Scheduler, world: nat -> RoundWorld, maxAttempts: int, maxRounds: nat) returns (rounds: nat, stop: Stop)
    modifies s
    ensures (s.State(), rounds, stop) == Drive(TurnOf(s.glob, world, maxAttempts), old(s.State()), maxRounds, 0)
    ensures old(Sane(s.glob, s.State(), maxAttempts)) ==>
      && Sane(s.glob, s.State(), maxAttempts) && StopMeans(stop, s.State()) && rounds <= maxRounds
      && (EverySubmission(world) ==>
            rounds <= old(Left(s.State(), maxAttempts)) + if old(SomeReady(s.tasks)) then 0 else 1)
    ensures EndCaused(world, maxAttempts, (s.State(), rounds, stop), maxRounds, 0)
  {
    ghost var start := s.State();
    rounds, stop := Loop(s, world, maxAttempts, maxRounds);
    EveryStopHasItsCause(s.glob, world, maxAttempts, start, maxRounds);
    if Sane(s.glob, start, maxAttempts) {
      TurnsAreOk(s.glob, world, maxAttempts);
      DriveOk(s.glob, TurnOf(s.glob, world, maxAttempts), start, maxAttempts, maxRounds, 0, EverySubmission(world));
    }
  }
}
