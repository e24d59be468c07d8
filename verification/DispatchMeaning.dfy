/** What a dispatch hands out, and how far the dispatch budget caps a run (minifleet/scheduler.py, packets and
    dispatch). */
module DispatchMeaning {
  import opened Text
  import opened Filters
  import opened Scopes
  import opened Model
  import opened FleetModel
  import opened FleetSafety
  import opened PlanKeeping
  import opened VerifyMeaning

  function IsReady(): Task -> bool {
    (t: Task) => t.state == Ready
  }

  /** Tasks that turned to dispatched in a step. */
  function HandedOut(ts: seq<Task>, us: seq<Task>): set<nat> {
    set i: nat | i < |ts| && i < |us| && us[i].state == Dispatched && ts[i].state != Dispatched
  }

  // ---- the first n ready tasks ----

  /** From position i on, us is ts with the tasks at the positions ks dispatched. */
  ghost predicate DispatchedAtOnly(ts: seq<Task>, us: seq<Task>, ks: seq<nat>) {
    && |us| == |ts|
    && forall i: nat :: i < |ts| ==> us[i] == if i in ks then ts[i].(state := Dispatched) else ts[i]
  }

  function FirstOf(ks: seq<nat>, n: nat): seq<nat> {
    if n < |ks| then ks[..n] else ks
  }

  lemma {:induction false} ReadyPositions(ts: seq<Task>, us: seq<Task>, i: nat)
    requires i <= |ts| == |us| && forall j :: i <= j < |ts| ==> us[j] == ts[j]
    ensures PositionsFrom(us, IsReady(), i) == PositionsFrom(ts, IsReady(), i)
    decreases |ts| - i
  {
    if i < |ts| { ReadyPositions(ts, us, i + 1); }
  }

  lemma FirstPositions(ts: seq<Task>, i: nat, n: nat)
    requires i < |ts|
    ensures var ks, rest := PositionsFrom(ts, IsReady(), i), PositionsFrom(ts, IsReady(), i + 1);
            FirstOf(ks, n) == if ts[i].state == Ready && n > 0 then [i] + FirstOf(rest, n - 1) else FirstOf(rest, n)
  {
    var rest := PositionsFrom(ts, IsReady(), i + 1);
    if ts[i].state == Ready {
      assert PositionsFrom(ts, IsReady(), i) == [i] + rest;
      if n == 0 {
        assert ([i] + rest)[..0] == [];
      } else if n < |[i] + rest| {
        assert ([i] + rest)[..n] == [i] + rest[..n - 1];
      }
    }
  }

  lemma OneMoreOut(ts: seq<Task>, i: nat, us: seq<Task>, ks: seq<nat>)
    requires i < |ts| && DispatchedAtOnly(ts[i := ts[i].(state := Dispatched)], us, ks)
    ensures DispatchedAtOnly(ts, us, [i] + ks)
  {
    forall j: nat | j < |ts| ensures us[j] == if j in [i] + ks then ts[j].(state := Dispatched) else ts[j] {
      assert j in [i] + ks <==> j == i || j in ks;
    }
  }

  /** The first n ready tasks from position i on are handed out. */
  ghost predicate HandsOut(ts: seq<Task>, i: nat, n: nat)
    requires i <= |ts|
  {
    DispatchedAtOnly(ts, HandOutFrom(ts, i, n), FirstOf(PositionsFrom(ts, IsReady(), i), n))
  }

  lemma ReadyGoesOut(ts: seq<Task>, i: nat, n: nat)
    requires i < |ts| && ts[i].state == Ready && n > 0 && HandsOut(ts[i := ts[i].(state := Dispatched)], i + 1, n - 1)
    ensures HandsOut(ts, i, n)
  {
    var us := ts[i := ts[i].(state := Dispatched)];
    FirstPositions(ts, i, n);
    ReadyPositions(ts, us, i + 1);
    OneMoreOut(ts, i, HandOutFrom(us, i + 1, n - 1), FirstOf(PositionsFrom(us, IsReady(), i + 1), n - 1));
    assert HandOutFrom(ts, i, n) == HandOutFrom(us, i + 1, n - 1);
  }

  lemma OtherStays(ts: seq<Task>, i: nat, n: nat)
    requires i < |ts| && !(ts[i].state == Ready && n > 0) && HandsOut(ts, i + 1, n)
    ensures HandsOut(ts, i, n)
  {
    FirstPositions(ts, i, n);
    assert HandOutFrom(ts, i, n) == HandOutFrom(ts, i + 1, n);
  }

  lemma {:induction false} HandOutMeans(ts: seq<Task>, i: nat, n: nat)
    requires i <= |ts|
    ensures HandsOut(ts, i, n)
    decreases |ts| - i
  {
    if i < |ts| {
      if ts[i].state == Ready && n > 0 {
        HandOutMeans(ts[i := ts[i].(state := Dispatched)], i + 1, n - 1);
        ReadyGoesOut(ts, i, n);
      } else {
        HandOutMeans(ts, i + 1, n);
        OtherStays(ts, i, n);
      }
    }
  }

  ghost predicate NamesAt(ts: seq<Task>, ids: seq<string>, ks: seq<nat>) {
    |ids| == |ks| && forall j :: 0 <= j < |ks| ==> ks[j] < |ts| && ids[j] == ts[ks[j]].id
  }

  lemma OneMoreName(ts: seq<Task>, i: nat, ids: seq<string>, ks: seq<nat>)
    requires i < |ts| && NamesAt(ts, ids, ks)
    ensures NamesAt(ts, [ts[i].id] + ids, [i] + ks)
  {
  }

  lemma {:induction false} WaveMeans(ts: seq<Task>, i: nat, n: nat)
    requires i <= |ts|
    ensures NamesAt(ts, WaveFrom(ts, i, n), FirstOf(PositionsFrom(ts, IsReady(), i), n))
    decreases |ts| - i
  {
    if i < |ts| {
      FirstPositions(ts, i, n);
      if ts[i].state == Ready && n > 0 {
        WaveMeans(ts, i + 1, n - 1);
        OneMoreName(ts, i, WaveFrom(ts, i + 1, n - 1), FirstOf(PositionsFrom(ts, IsReady(), i + 1), n - 1));
      } else {
        WaveMeans(ts, i + 1, n);
      }
    }
  }

  // ---- one dispatch ----

  /** The tasks once refreshed: what refresh leaves of task i, with a branch and a sandbox when it is ready. */
  ghost predicate Packed(ts: seq<Task>, qs: seq<Task>, branchFor: string -> string, i: nat)
    requires i < |ts| == |qs|
  {
    && Settles(qs, ts[i], qs[i], ts[i].state)
    && qs[i] == if qs[i].state == Ready then ts[i].(state := Ready, branch := branchFor(ts[i].id), sandbox := true)
                else ts[i]
  }

  lemma PreparedMeans(f: Fleet, p: DispatchPlan, i: nat)
    requires i < |f.tasks|
    ensures |Prepared(f, p)| == |f.tasks| && Packed(f.tasks, Prepared(f, p), p.branchFor, i)
  {
    var rs, qs := Refreshed(f.tasks), Prepared(f, p);
    RefreshSettles(f.tasks, i);
    forall j | 0 <= j < |rs| ensures qs[j].id == rs[j].id && qs[j].state == rs[j].state {
      assert qs[j] == Prepare(rs[j], p.branchFor);
    }
    SameUnblocked(rs, qs, f.tasks[i]);
    assert qs[i] == Prepare(rs[i], p.branchFor);
  }

  lemma SameUnblocked(us: seq<Task>, vs: seq<Task>, t: Task)
    requires |us| == |vs| && forall j :: 0 <= j < |us| ==> vs[j].id == us[j].id && vs[j].state == us[j].state
    ensures Unblocked(us, t) <==> Unblocked(vs, t)
  {
    if Unblocked(us, t) {
      forall d | d in t.dependsOn ensures exists j :: 0 <= j < |vs| && vs[j].id == d && vs[j].state == Merged {
        var j :| 0 <= j < |us| && us[j].id == d && us[j].state == Merged;
        assert vs[j].id == d;
      }
    }
    if Unblocked(vs, t) {
      forall d | d in t.dependsOn ensures exists j :: 0 <= j < |us| && us[j].id == d && us[j].state == Merged {
        var j :| 0 <= j < |vs| && vs[j].id == d && vs[j].state == Merged;
        assert us[j].id == d;
      }
    }
  }

  /** What a dispatch that the budget allows makes of the run: ready tasks are packed, and the first ones in the order
      of the design, all of them or as many as the limit says, are handed out and counted. */
  ghost predicate WaveGoesOut(f: Fleet, g: Fleet, p: DispatchPlan, ids: seq<string>, qs: seq<Task>, ks: seq<nat>) {
    && |qs| == |f.tasks| && (forall i: nat :: i < |f.tasks| ==> Packed(f.tasks, qs, p.branchFor, i))
    && Keeping(qs, IsReady(), ks)
    && var out := if p.limit != 0 then FirstOf(ks, p.limit) else ks;
       && DispatchedAtOnly(qs, g.tasks, out) && g.dispatched == f.dispatched + |out|
       && NamesAt(qs, ids, out)
  }

  lemma {:induction false} FewPositions(ts: seq<Task>, i: nat)
    requires i <= |ts|
    ensures |PositionsFrom(ts, IsReady(), i)| <= |ts| - i
    decreases |ts| - i
  {
    if i < |ts| { FewPositions(ts, i + 1); }
  }

  /** A dispatch does nothing once as many tasks were dispatched as the budget says; otherwise a wave goes out. */
  lemma DispatchMeans(f: Fleet, p: DispatchPlan) returns (qs: seq<Task>, ks: seq<nat>)
    ensures var g := Dispatch(f, p);
            if p.budget != 0.0 && f.dispatched as real >= p.budget then g == f && Chosen(f, p) == []
            else WaveGoesOut(f, g, p, Chosen(f, p), qs, ks)
                 && g == f.(tasks := g.tasks, dispatched := g.dispatched)
  {
    qs := Prepared(f, p);
    ks := PositionsFrom(qs, IsReady(), 0);
    PositionsIncrease(qs, IsReady(), 0);
    PositionsComplete(qs, IsReady(), 0);
    FewPositions(qs, 0);
    forall i: nat | i < |f.tasks| ensures Packed(f.tasks, qs, p.branchFor, i) {
      PreparedMeans(f, p, i);
    }
    HandOutMeans(qs, 0, WaveLimit(f, p));
    WaveMeans(qs, 0, WaveLimit(f, p));
  }

  // ---- the budget over a run ----

  lemma {:induction false} IncreasingIsDistinct(ks: seq<nat>)
    requires Increasing(ks)
    ensures |Elements(ks)| == |ks|
  {
    assert Distinct(ks);
    DistinctSize(ks);
  }

  lemma CountedAreHandedOut(ts: seq<Task>, qs: seq<Task>, us: seq<Task>, branchFor: string -> string, out: seq<nat>)
    requires |qs| == |ts| && forall i: nat :: i < |ts| ==> Packed(ts, qs, branchFor, i)
    requires DispatchedAtOnly(qs, us, out) && forall j :: 0 <= j < |out| ==> out[j] < |qs| && qs[out[j]].state == Ready
    ensures HandedOut(ts, us) == Elements(out)
  {
    forall i: nat | i < |ts| ensures i in HandedOut(ts, us) <==> i in out {
      assert Packed(ts, qs, branchFor, i);
    }
    forall i | i in out ensures i in HandedOut(ts, us) {
      var j :| 0 <= j < |out| && out[j] == i;
    }
  }

  lemma DispatchCountsHandedOut(f: Fleet, p: DispatchPlan)
    ensures var g := Dispatch(f, p); g.dispatched == f.dispatched + |HandedOut(f.tasks, g.tasks)|
    ensures |HandedOut(f.tasks, Dispatch(f, p).tasks)| <= |f.tasks|
  {
    var g := Dispatch(f, p);
    var qs, ks := DispatchMeans(f, p);
    FewHandedOut(f.tasks, g.tasks);
    if p.budget != 0.0 && f.dispatched as real >= p.budget {
      assert HandedOut(f.tasks, f.tasks) == {};
    } else {
      WaveCounts(f, g, p, Chosen(f, p), qs, ks);
    }
  }

  lemma WaveCounts(f: Fleet, g: Fleet, p: DispatchPlan, ids: seq<string>, qs: seq<Task>, ks: seq<nat>)
    requires WaveGoesOut(f, g, p, ids, qs, ks)
    ensures g.dispatched == f.dispatched + |HandedOut(f.tasks, g.tasks)|
  {
    var out := if p.limit != 0 then FirstOf(ks, p.limit) else ks;
    CountedAreHandedOut(f.tasks, qs, g.tasks, p.branchFor, out);
    IncreasingIsDistinct(out);
  }

  function Below(n: nat): set<nat> {
    if n == 0 then {} else Below(n - 1) + {n - 1}
  }

  lemma {:induction false} BelowMeans(n: nat)
    ensures |Below(n)| == n && forall i :: i in Below(n) <==> 0 <= i < n
  {
    if n > 0 { BelowMeans(n - 1); }
  }

  lemma FewHandedOut(ts: seq<Task>, us: seq<Task>)
    ensures |HandedOut(ts, us)| <= |ts|
  {
    BelowMeans(|ts|);
    SubsetSize(HandedOut(ts, us), Below(|ts|));
  }

  /** No step but a dispatch counts anything, and a dispatch counts the tasks that turned to dispatched. */
  lemma DispatchedCounts(glob: Glob, f: Fleet, step: Step)
    ensures var g := Perform(glob, f, step);
            g.dispatched == f.dispatched + if step.DoDispatch? then |HandedOut(f.tasks, g.tasks)| else 0
  {
    match step
    case DoDispatch(p) => DispatchCountsHandedOut(f, p);
    case _ =>
  }

  /** All tasks handed out in the first k steps, counted as often as they were. */
  ghost function AllHandedOut(states: seq<Fleet>, steps: seq<Step>, k: nat): nat
    requires |states| == |steps| + 1 && k <= |steps|
  {
    if k == 0 then 0
    else AllHandedOut(states, steps, k - 1)
         + if steps[k - 1].DoDispatch? then |HandedOut(states[k - 1].tasks, states[k].tasks)| else 0
  }

  /** Over any run the count is that of the tasks handed out. */
  lemma {:induction false} RunCountsHandedOut(glob: Glob, states: seq<Fleet>, steps: seq<Step>, k: nat)
    requires IsTrace(glob, states, steps) && k <= |steps|
    ensures states[k].dispatched == states[0].dispatched + AllHandedOut(states, steps, k)
  {
    if k > 0 {
      RunCountsHandedOut(glob, states, steps, k - 1);
      assert Performed(glob, states, steps, k - 1);
      DispatchedCounts(glob, states[k - 1], steps[k - 1]);
    }
  }

  ghost predicate DispatchesUnder(steps: seq<Step>, budget: real) {
    forall i :: 0 <= i < |steps| && steps[i].DoDispatch? ==> steps[i].plan.budget == budget
  }

  /** The budget is tested before a wave, not within it: a run that never dispatches without it can exceed it, but by
      less than one wave of all tasks. */
  lemma {:induction false} BudgetCapsRun(glob: Glob, states: seq<Fleet>, steps: seq<Step>, k: nat, budget: real)
    requires IsTrace(glob, states, steps) && k <= |steps| && DispatchesUnder(steps, budget)
    requires budget > 0.0 && states[0].dispatched == 0
    ensures states[k].dispatched as real < budget + |states[0].tasks| as real
  {
    if k > 0 {
      BudgetCapsRun(glob, states, steps, k - 1, budget);
      TraceKeepsPlan(glob, states, steps, k - 1);
      assert Performed(glob, states, steps, k - 1);
      assert steps[k - 1].DoDispatch? ==> steps[k - 1].plan.budget == budget;
      StepStaysUnder(glob, states[k - 1], steps[k - 1], budget, |states[0].tasks|);
    }
  }

  lemma StepStaysUnder(glob: Glob, f: Fleet, step: Step, budget: real, n: nat)
    requires |f.tasks| == n && f.dispatched as real < budget + n as real && budget > 0.0
    requires step.DoDispatch? ==> step.plan.budget == budget
    ensures Perform(glob, f, step).dispatched as real < budget + n as real
  {
    DispatchedCounts(glob, f, step);
    if step.DoDispatch? {
      var p := step.plan;
      DispatchCountsHandedOut(f, p);
      if f.dispatched as real >= budget {
        assert Dispatch(f, p) == f;
      }
    }
  }
}
