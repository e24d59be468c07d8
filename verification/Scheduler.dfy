/** The scheduler as an object: its operations change the run record in place (minifleet/scheduler.py). */
module Scheduler {
  import opened Text
  import opened Options
  import opened Dictionary
  import opened Batches
  import opened Scopes
  import opened Ownership
  import opened Gates
  import opened Model
  import opened FleetModel

  class Scheduler {
    const glob: Glob
    const gates: seq<Gate>
    var tasks: seq<Task>
    var status: RunStatus
    var verdict: Verdict
    var attributed: Verdict
    var evidence: seq<Evidence>
    var metrics: Metrics
    var mergeLog: seq<string>
    var dispatched: nat

    ghost function State(): Fleet
      reads this
    {
      Fleet(tasks, gates, status, verdict, attributed, evidence, metrics, mergeLog, dispatched)
    }

    constructor (glob: Glob, f: Fleet)
      ensures this.glob == glob && State() == f
    {
      this.glob, gates, tasks, status, verdict := glob, f.gates, f.tasks, f.status, f.verdict;
      attributed, evidence, metrics, mergeLog, dispatched := f.attributed, f.evidence, f.metrics, f.mergeLog,
          f.dispatched;
    }

    method Refresh()
      modifies this`tasks
      ensures tasks == Refreshed(old(tasks))
    {
      var merged := MergedIds(tasks);
      for i := 0 to |tasks|
        invariant |tasks| == |old(tasks)|
        invariant forall j :: 0 <= j < i ==> tasks[j] == Promote(old(tasks)[j], merged)
        invariant forall j :: i <= j < |tasks| ==> tasks[j] == old(tasks)[j]
      {
        if tasks[i].state == Pending && Elements(tasks[i].dependsOn) <= merged {
          tasks := tasks[i := tasks[i].(state := Ready)];
        }
      }
    }

    method PreparePackets(branchFor: string -> string)
      modifies this`tasks
      ensures tasks == PrepareAll(Refreshed(old(tasks)), branchFor)
    {
      Refresh();
      ghost var refreshed := tasks;
      for i := 0 to |tasks|
        invariant |tasks| == |refreshed|
        invariant forall j :: 0 <= j < i ==> tasks[j] == Prepare(refreshed[j], branchFor)
        invariant forall j :: i <= j < |tasks| ==> tasks[j] == refreshed[j]
      {
        tasks := tasks[i := Prepare(tasks[i], branchFor)];
      }
    }

    /** Hand out the first n ready tasks, and say which. */
    method HandOutWave(n: nat) returns (ids: seq<string>)
      modifies this`tasks
      ensures tasks == HandOut(old(tasks), n) && ids == WaveFrom(old(tasks), 0, n)
    {
      ids := [];
      var left := n;
      for i := 0 to |tasks|
        invariant |tasks| == |old(tasks)| && forall j :: i <= j < |tasks| ==> tasks[j] == old(tasks)[j]
        invariant HandOutFrom(tasks, i, left) == HandOut(old(tasks), n)
        invariant ids + WaveFrom(old(tasks), i, left) == WaveFrom(old(tasks), 0, n)
      {
        if tasks[i].state == Ready && left > 0 {
          ids := ids + [tasks[i].id];
          tasks := tasks[i := tasks[i].(state := Dispatched)];
          left := left - 1;
        }
      }
    }

    method Dispatch(p: DispatchPlan) returns (ids: seq<string>)
      modifies this`tasks, this`dispatched
      ensures State() == FleetModel.Dispatch(old(State()), p) && ids == Chosen(old(State()), p)
    {
      if p.budget != 0.0 && dispatched as real >= p.budget {
        return [];
      }
      PreparePackets(p.branchFor);
      ids := HandOutWave(if p.limit != 0 then p.limit else |tasks|);
      dispatched := dispatched + |ids|;
    }

    method AllWithin(files: seq<string>, owns: seq<string>) returns (inside: bool)
      ensures inside <==> Inside(glob, files, owns)
    {
      for k := 0 to |files|
        invariant forall j :: 0 <= j < k ==> Within(glob, files[j], owns)
      {
        var within := IsWithin(glob, files[k], owns);
        if !within {
          return false;
        }
      }
      return true;
    }

    method Ingest(id: string, s: Submission) returns (known: bool)
      modifies this`tasks, this`evidence, this`metrics
      ensures known <==> exists t :: t in old(tasks) && t.id == id
      ensures State() == FleetModel.Ingest(glob, old(State()), id, s) && (!known ==> State() == old(State()))
    {
      ghost var f := State();
      var i := Find(tasks, id);
      if i == |tasks| {
        return false;
      }
      known := true;
      var t := tasks[i].(attempts := tasks[i].attempts + 1, sandbox := true);
      tasks := tasks[i := t];
      var inside := AllWithin(s.files, t.owns);
      if !inside {
        tasks := tasks[i := t.(state := Failed)];
        assert tasks == f.tasks[i := t.(state := Failed)];
        return;
      }
      var gs := TaskGates(gates, t);
      var runner := new GateRunner(metrics);
      var rows := runner.RunAll(gs, s.observe, t.id);
      metrics := runner.store;
      evidence := evidence + rows;
      t := t.(submittedFiles := Sort(s.files), evidence := rows, state := if AllPass(rows) then Verified else Failed);
      tasks := tasks[i := t];
      assert tasks == f.tasks[i := t];
    }

    method GiveUp(id: string)
      modifies this`tasks
      ensures State() == FleetModel.GiveUp(old(State()), id)
      ensures |tasks| == |old(tasks)|
      ensures forall j :: 0 <= j < |tasks| && old(tasks)[j].id != id ==> tasks[j] == old(tasks)[j]
      ensures var i := Find(old(tasks), id); i < |tasks| ==>
          tasks[i].state == Failed && tasks[i].attempts == old(tasks)[i].attempts
    {
      var i := Find(tasks, id);
      if i < |tasks| {
        tasks := tasks[i := tasks[i].(state := Failed)];
      }
    }

    method CollectBranches(w: GitWorld) returns (d: Branches)
      ensures d == VerifiedBranches(tasks, w)
    {
      d := Empty();
      for i := 0 to |tasks|
        invariant d == VerifiedBranches(tasks[..i], w)
      {
        assert tasks[..i + 1][..i] == tasks[..i];
        if tasks[i].state == Verified {
          d := d.Put(tasks[i].branch, w.diff(tasks[i].id));
        }
      }
      assert tasks[..|tasks|] == tasks;
    }

    /** Walk the waves and merge what is verified; false when a merge failed. */
    method MergeWaves(waves: seq<seq<string>>, w: GitWorld) returns (ok: bool)
      modifies this`tasks, this`mergeLog
      ensures Merging(tasks, mergeLog, ok) == MergeAlong(old(tasks), old(mergeLog), Flatten(waves), w)
    {
      for i := 0 to |waves|
        invariant MergeAlong(tasks, mergeLog, Flatten(waves[i..]), w)
            == MergeAlong(old(tasks), old(mergeLog), Flatten(waves), w)
      {
        var wave := waves[i];
        ghost var rest := Flatten(waves[i + 1..]);
        assert waves[i..][0] == wave && waves[i..][1..] == waves[i + 1..];
        for k := 0 to |wave|
          invariant MergeAlong(tasks, mergeLog, wave[k..] + rest, w)
              == MergeAlong(old(tasks), old(mergeLog), Flatten(waves), w)
        {
          assert (wave[k..] + rest)[0] == wave[k] && (wave[k..] + rest)[1..] == wave[k + 1..] + rest;
          var t := Find(tasks, wave[k]);
          if t < |tasks| && tasks[t].state == Verified {
            if !w.mergeOk(wave[k]) {
              return false;
            }
            tasks := tasks[t := tasks[t].(state := Merged)];
            mergeLog := mergeLog + [wave[k]];
          }
        }
        assert wave[|wave|..] + rest == rest;
      }
      return true;
    }

    method HasConflicts(w: GitWorld) returns (conflicting: bool)
      ensures conflicting <==> !IsDisjoint(VerifiedBranches(tasks, w))
    {
      var branches := CollectBranches(w);
      var conflicts := OwnershipConflicts(branches);
      DisjointTests(branches);
      return conflicts != map[];
    }

    /** Everything the source guards with one exception handler; false when an exception was caught. */
    method MergeVerified(w: GitWorld) returns (ok: bool)
      modifies this`tasks, this`mergeLog
      ensures Merging(tasks, mergeLog, ok) == MergeAttempt(old(tasks), old(mergeLog), w)
    {
      if !w.checkoutOk {
        return false;
      }
      var dict := BuildDependencyDict(tasks);
      var plan := TopologicalBatches(dict);
      if plan.NotADag? {
        return false;
      }
      ok := MergeWaves(plan.batches, w);
    }

    method Integrate(w: GitWorld) returns (r: IntegrationResult)
      modifies this`tasks, this`mergeLog, this`status, this`verdict
      ensures State() == FleetModel.Integrate(old(State()), w) && r == IntegrationOutcome(old(State()), w).0
    {
      status := Integrating;
      var conflicting := HasConflicts(w);
      if conflicting {
        verdict := OwnershipConflict;
        return Conflicting;
      }
      var ok := MergeVerified(w);
      if !ok {
        status, verdict := RunFailed, IntegrationError;
        return Broken;
      }
      Refresh();
      return Integrated;
    }

    method ImplicateComponent(item: Evidence, component: string, maxAttempts: int, ghost a: Attribution)
      returns (reopened: set<string>, escalated: set<string>, unattributed: set<string>)
      requires a.tasks == tasks
      modifies this`tasks
      ensures var b := AttributeTarget(a, item, component, maxAttempts);
              && tasks == b.tasks && a.reopened + reopened == b.reopened
              && a.escalated + escalated == b.escalated && a.unattributed + unattributed == b.unattributed
    {
      reopened, escalated, unattributed := {}, {}, {};
      var i := FindComponent(tasks, component);
      if i == |tasks| {
        unattributed := {item.gateId + "->" + component};
      } else {
        var t := tasks[i];
        tasks := tasks[i := t.(evidence := DropRows(t.evidence, item.gateId) + [item],
                                  state := Failed, sandbox := false)];
        if Escalates(t, maxAttempts) {
          escalated := {t.id};
        } else {
          tasks := tasks[i := tasks[i].(state := Pending)];
          reopened := {t.id};
        }
      }
    }

    /** The rows in order, then a refresh. */
    method AttributeFailures(rows: seq<Evidence>, required: Option<set<string>>, maxAttempts: int)
      returns (report: Attribution)
      modifies this`tasks
      ensures var a := AttributeRows(old(tasks), gates, rows, required, maxAttempts);
              tasks == Refreshed(a.tasks) && report == a.(tasks := tasks)
    {
      var reopened: set<string>, escalated: set<string>, unattributed: set<string> := {}, {}, {};
      for i := 0 to |rows|
        invariant Attribution(tasks, reopened, escalated, unattributed)
            == AttributeRows(old(tasks), gates, rows[..i], required, maxAttempts)
      {
        assert rows[..i + 1][..i] == rows[..i];
        if Considered(rows[i], required) {
          var gate := FindGate(gates, rows[i].gateId);
          if gate.None? || gate.value.attributedTo == [] {
            unattributed := unattributed + {rows[i].gateId};
          } else {
            var targets := gate.value.attributedTo;
            ghost var before := Attribution(tasks, reopened, escalated, unattributed);
            for k := 0 to |targets|
              invariant Attribution(tasks, reopened, escalated, unattributed)
                  == AttributeTargets(before, rows[i], targets[..k], maxAttempts)
            {
              assert targets[..k + 1][..k] == targets[..k];
              var r, e, u := ImplicateComponent(rows[i], targets[k], maxAttempts,
                  Attribution(tasks, reopened, escalated, unattributed));
              reopened, escalated, unattributed := reopened + r, escalated + e, unattributed + u;
            }
            assert targets[..|targets|] == targets;
          }
        }
      }
      assert rows[..|rows|] == rows;
      Refresh();
      report := Attribution(tasks, reopened, escalated, unattributed);
    }

    method Verify(observe: nat -> Observation, maxAttempts: int) returns (report: Option<Attribution>)
      modifies this`tasks, this`status, this`verdict, this`attributed, this`evidence, this`metrics
      ensures State() == FleetModel.Verify(old(State()), observe, maxAttempts)
      ensures report.None? <==> status == Passed
    {
      status := Verifying;
      var runner := new GateRunner(metrics);
      var system := BudgetsLast(SystemGates(gates));
      var rows := runner.RunAll(system, observe, "");
      metrics := runner.store;
      evidence := evidence + rows;
      var required := RequiredIds(SystemGates(gates));
      verdict := Judge(rows, required);
      if verdict == AllGreen {
        status := Passed;
        return None;
      }
      status := RunFailed;
      var a := AttributeFailures(rows, Some(required), maxAttempts);
      assert tasks == Refreshed(AttributeRows(old(tasks), gates, rows, Some(required), maxAttempts).tasks);
      attributed := verdict;
      return Some(a);
    }

    /** The latest row of each gate that did not pass, when the verdict still wants attribution. */
    method CollectFailing() returns (rows: seq<Evidence>)
      ensures rows == FailingNow(State())
    {
      if verdict == NoVerdict || verdict == AllGreen || verdict == attributed {
        return [];
      }
      var latest: Dict<string, Evidence> := Empty();
      for i := 0 to |evidence|
        invariant latest == LatestRows(evidence[..i])
      {
        assert evidence[..i + 1][..i] == evidence[..i];
        latest := latest.Put(evidence[i].gateId, evidence[i]);
      }
      assert evidence[..|evidence|] == evidence;
      rows := FailingRows(latest, latest.keys);
    }

    /** The first pass of repair: every failed task is reopened, or escalated when its attempts are used up. */
    method ReopenFailed(maxAttempts: int) returns (reopened: set<string>, escalated: set<string>)
      modifies this`tasks
      ensures tasks == ReopenAll(old(tasks), maxAttempts)
      ensures reopened == FailedIds(old(tasks), maxAttempts, false)
          && escalated == FailedIds(old(tasks), maxAttempts, true)
    {
      reopened, escalated := {}, {};
      for i := 0 to |tasks|
        invariant |tasks| == |old(tasks)|
        invariant forall j :: 0 <= j < i ==> tasks[j] == Reopen(old(tasks)[j], maxAttempts)
        invariant forall j :: i <= j < |tasks| ==> tasks[j] == old(tasks)[j]
        invariant reopened == FailedIds(old(tasks)[..i], maxAttempts, false)
        invariant escalated == FailedIds(old(tasks)[..i], maxAttempts, true)
      {
        FailedIdsSnoc(old(tasks), i, maxAttempts);
        if tasks[i].state == Failed {
          tasks := tasks[i := tasks[i].(sandbox := false)];
          if Escalates(tasks[i], maxAttempts) {
            escalated := escalated + {tasks[i].id};
          } else {
            tasks := tasks[i := tasks[i].(state := Pending)];
            reopened := reopened + {tasks[i].id};
          }
        }
      }
      assert tasks == ReopenAll(old(tasks), maxAttempts);
      assert old(tasks)[..|tasks|] == old(tasks);
    }

    method RepairFailed(maxAttempts: int)
      returns (reopened: set<string>, escalated: set<string>, unattributed: set<string>)
      modifies this`tasks
      ensures State() == FleetModel.RepairFailed(old(State()), maxAttempts)
      ensures reopened == FailedIds(old(tasks), maxAttempts, false) + Repaired(old(State()), maxAttempts).reopened
      ensures escalated == FailedIds(old(tasks), maxAttempts, true) + Repaired(old(State()), maxAttempts).escalated
      ensures unattributed == Repaired(old(State()), maxAttempts).unattributed
    {
      reopened, escalated := ReopenFailed(maxAttempts);
      unattributed := {};
      var failing := CollectFailing();
      if failing != [] {
        var a := AttributeFailures(failing, None, maxAttempts);
        reopened, escalated, unattributed := reopened + a.reopened, escalated + a.escalated, a.unattributed;
        RefreshTwice(AttributeRows(ReopenAll(old(tasks), maxAttempts), gates, failing, None, maxAttempts).tasks);
      }
      Refresh();
    }
  }

  /** Failed tasks whose attempts are, or are not, used up. */
  function FailedIds(tasks: seq<Task>, maxAttempts: int, escalated: bool): set<string> {
    set t | t in tasks && t.state == Failed && Escalates(t, maxAttempts) == escalated :: t.id
  }

  lemma FailedIdsSnoc(tasks: seq<Task>, i: nat, maxAttempts: int)
    requires i < |tasks|
    ensures forall e :: FailedIds(tasks[..i + 1], maxAttempts, e) == FailedIds(tasks[..i], maxAttempts, e)
              + if tasks[i].state == Failed && Escalates(tasks[i], maxAttempts) == e then {tasks[i].id} else {}
  {
    assert tasks[..i + 1] == tasks[..i] + [tasks[i]];
  }

  /** The test on file lists agrees with the one on branches. */
  lemma DisjointTests(d: Branches)
    ensures IsDisjoint(d) <==> PairwiseDisjoint(d)
  {
    if IsDisjoint(d) {
      forall a, b, p | Touches(d, a, p) && Touches(d, b, p) ensures a == b {}
    }
    if PairwiseDisjoint(d) {
      forall a, b | a in d.table && b in d.table && a != b ensures forall p :: p in d.table[a] ==> p !in d.table[b] {
        forall p | p in d.table[a] ensures p !in d.table[b] {
          assert Touches(d, a, p);
          assert p in d.table[b] ==> Touches(d, b, p);
        }
      }
    }
  }

  /** Refreshing again changes nothing: promotion adds no merged task. */
  lemma RefreshTwice(tasks: seq<Task>)
    ensures Refreshed(Refreshed(tasks)) == Refreshed(tasks)
  {
    var r := Refreshed(tasks);
    forall x ensures x in MergedIds(r) <==> x in MergedIds(tasks) {
      if t :| t in r && t.state == Merged && t.id == x {
        var i :| 0 <= i < |r| && r[i] == t;
        assert tasks[i] == t && tasks[i] in tasks;
      }
      if t :| t in tasks && t.state == Merged && t.id == x {
        var i :| 0 <= i < |tasks| && tasks[i] == t;
        assert r[i] == t && r[i] in r;
      }
    }
    assert MergedIds(r) == MergedIds(tasks);
  }
}
