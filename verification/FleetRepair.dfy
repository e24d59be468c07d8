/** Which tasks attribution reopens, and what a second repair finds to do. */
module FleetRepair {
  import opened Options
  import opened Model
  import opened FleetModel

  /** Reopened while the attempt budget lasts, failed afterwards. */
  function OutcomeOf(t: Task, maxAttempts: int): TaskState {
    if Escalates(t, maxAttempts) then Failed else Pending
  }

  /** Positions of the tasks that own the listed components. */
  function OwnersOf(ts: seq<Task>, components: seq<string>): set<nat> {
    if components == [] then {}
    else
      var i := FindComponent(ts, components[|components| - 1]);
      OwnersOf(ts, components[..|components| - 1]) + if i < |ts| then {i} else {}
  }

  /** Positions of the tasks that one row of evidence implicates. */
  function ImplicatedBy(ts: seq<Task>, gates: seq<Gate>, item: Evidence, required: Option<set<string>>): set<nat> {
    if Considered(item, required) && FindGate(gates, item.gateId).Some?
    then OwnersOf(ts, FindGate(gates, item.gateId).value.attributedTo)
    else {}
  }

  /** Positions of the tasks that some row implicates; the order of the rows does not matter. */
  function Implicated(ts: seq<Task>, gates: seq<Gate>, rows: seq<Evidence>, required: Option<set<string>>): set<nat> {
    set i: nat | i < |ts| && SomeRowImplicates(ts, gates, rows, required, i)
  }

  predicate SomeRowImplicates(ts: seq<Task>, gates: seq<Gate>, rows: seq<Evidence>, required: Option<set<string>>,
                              i: nat) {
    exists k :: 0 <= k < |rows| && i in ImplicatedBy(ts, gates, rows[k], required)
  }

  function IdsAt(ts: seq<Task>, hit: set<nat>, maxAttempts: int, escalated: bool): set<string> {
    set i: nat | i < |ts| && i in hit && Escalates(ts[i], maxAttempts) == escalated :: ts[i].id
  }

  /** a is what becomes of ts when exactly the tasks at the hit positions are implicated. */
  ghost predicate Reflects(ts: seq<Task>, a: Attribution, hit: set<nat>, maxAttempts: int) {
    && |a.tasks| == |ts|
    && (forall i :: 0 <= i < |ts| ==> ReflectsAt(ts[i], a.tasks[i], i in hit, maxAttempts))
    && a.reopened == IdsAt(ts, hit, maxAttempts, false)
    && a.escalated == IdsAt(ts, hit, maxAttempts, true)
  }

  ghost predicate ReflectsAt(t: Task, t': Task, hit: bool, maxAttempts: int) {
    && t'.id == t.id && t'.componentId == t.componentId && t'.attempts == t.attempts && t'.dependsOn == t.dependsOn
    && t'.state == if hit then OutcomeOf(t, maxAttempts) else t.state
  }

  ghost predicate SameComponents(ts: seq<Task>, us: seq<Task>) {
    |us| == |ts| && forall i :: 0 <= i < |ts| ==> us[i].componentId == ts[i].componentId
  }

  lemma SameOwner(ts: seq<Task>, us: seq<Task>, component: string)
    requires SameComponents(ts, us)
    ensures FindComponent(us, component) == FindComponent(ts, component)
  {
    var i, k := FindComponent(ts, component), FindComponent(us, component);
    assert i < |ts| ==> us[i].componentId == component;
    assert k < |us| ==> ts[k].componentId == component;
  }

  lemma AddHit(ts: seq<Task>, hit: set<nat>, i: nat, maxAttempts: int, escalated: bool)
    requires i < |ts|
    ensures IdsAt(ts, hit + {i}, maxAttempts, escalated)
         == IdsAt(ts, hit, maxAttempts, escalated)
            + if Escalates(ts[i], maxAttempts) == escalated then {ts[i].id} else {}
  {
    var more := IdsAt(ts, hit + {i}, maxAttempts, escalated);
    forall x | x in IdsAt(ts, hit, maxAttempts, escalated) ensures x in more {
      var j: nat :| j < |ts| && j in hit && Escalates(ts[j], maxAttempts) == escalated && ts[j].id == x;
      assert j in hit + {i};
    }
    if Escalates(ts[i], maxAttempts) == escalated { assert i in hit + {i}; }
  }

  lemma ReflectsSameComponents(ts: seq<Task>, a: Attribution, hit: set<nat>, maxAttempts: int)
    requires Reflects(ts, a, hit, maxAttempts)
    ensures SameComponents(ts, a.tasks)
  {
    forall i | 0 <= i < |ts| ensures a.tasks[i].componentId == ts[i].componentId {
      assert ReflectsAt(ts[i], a.tasks[i], i in hit, maxAttempts);
    }
  }

  lemma TargetReflects(ts: seq<Task>, a: Attribution, hit: set<nat>, item: Evidence, component: string,
                       maxAttempts: int)
    requires Reflects(ts, a, hit, maxAttempts)
    ensures var i := FindComponent(ts, component);
            Reflects(ts, AttributeTarget(a, item, component, maxAttempts),
                     if i < |ts| then hit + {i} else hit, maxAttempts)
  {
    ReflectsSameComponents(ts, a, hit, maxAttempts);
    SameOwner(ts, a.tasks, component);
    var i := FindComponent(ts, component);
    if i < |ts| {
      assert ReflectsAt(ts[i], a.tasks[i], i in hit, maxAttempts);
      AddHit(ts, hit, i, maxAttempts, true);
      AddHit(ts, hit, i, maxAttempts, false);
      var b := AttributeTarget(a, item, component, maxAttempts);
      forall j | 0 <= j < |ts| ensures ReflectsAt(ts[j], b.tasks[j], j in hit + {i}, maxAttempts) {
        assert ReflectsAt(ts[j], a.tasks[j], j in hit, maxAttempts);
      }
    }
  }

  lemma {:induction false} TargetsReflect(ts: seq<Task>, a: Attribution, hit: set<nat>, item: Evidence,
                                          targets: seq<string>, maxAttempts: int)
    requires Reflects(ts, a, hit, maxAttempts)
    ensures Reflects(ts, AttributeTargets(a, item, targets, maxAttempts), hit + OwnersOf(ts, targets), maxAttempts)
    decreases |targets|
  {
    if targets == [] {
      assert hit + OwnersOf(ts, targets) == hit;
    } else {
      var n := |targets| - 1;
      TargetsReflect(ts, a, hit, item, targets[..n], maxAttempts);
      var b, h := AttributeTargets(a, item, targets[..n], maxAttempts), hit + OwnersOf(ts, targets[..n]);
      TargetReflects(ts, b, h, item, targets[n], maxAttempts);
      var i := FindComponent(ts, targets[n]);
      assert hit + OwnersOf(ts, targets) == if i < |ts| then h + {i} else h;
    }
  }

  lemma RowReflects(ts: seq<Task>, a: Attribution, hit: set<nat>, gates: seq<Gate>, item: Evidence,
                    required: Option<set<string>>, maxAttempts: int)
    requires Reflects(ts, a, hit, maxAttempts)
    ensures Reflects(ts, AttributeRow(a, gates, item, required, maxAttempts),
                     hit + ImplicatedBy(ts, gates, item, required), maxAttempts)
  {
    assert hit + {} == hit;
    if Considered(item, required) && FindGate(gates, item.gateId).Some? {
      var targets := FindGate(gates, item.gateId).value.attributedTo;
      TargetsReflect(ts, a, hit, item, targets, maxAttempts);
      if targets == [] { assert OwnersOf(ts, targets) == {}; }
    }
  }

  lemma ImplicatedBelow(ts: seq<Task>, gates: seq<Gate>, item: Evidence, required: Option<set<string>>, i: nat)
    requires i in ImplicatedBy(ts, gates, item, required)
    ensures i < |ts|
  {
    OwnersBelow(ts, FindGate(gates, item.gateId).value.attributedTo, i);
  }

  lemma {:induction false} OwnersBelow(ts: seq<Task>, components: seq<string>, i: nat)
    requires i in OwnersOf(ts, components)
    ensures i < |ts|
  {
    var n := |components| - 1;
    if i in OwnersOf(ts, components[..n]) { OwnersBelow(ts, components[..n], i); }
  }

  lemma ImplicatedSnoc(ts: seq<Task>, gates: seq<Gate>, rows: seq<Evidence>, row: Evidence,
                       required: Option<set<string>>)
    ensures Implicated(ts, gates, rows + [row], required)
         == Implicated(ts, gates, rows, required) + ImplicatedBy(ts, gates, row, required)
  {
    var all := rows + [row];
    forall j: nat
      ensures j in Implicated(ts, gates, all, required) <==>
              j in Implicated(ts, gates, rows, required) || j in ImplicatedBy(ts, gates, row, required)
    {
      if j in Implicated(ts, gates, rows, required) {
        var k :| 0 <= k < |rows| && j in ImplicatedBy(ts, gates, rows[k], required);
        assert all[k] == rows[k];
      }
      if j in ImplicatedBy(ts, gates, row, required) {
        ImplicatedBelow(ts, gates, row, required, j);
        assert all[|rows|] == row;
      }
    }
  }

  /** Attribution is exact: implicated tasks are reopened or, with their attempts used up, left failed;
      every other task keeps its state, and no task's attempts change. */
  lemma {:induction false} AttributionExact(ts: seq<Task>, gates: seq<Gate>, rows: seq<Evidence>,
                                            required: Option<set<string>>, maxAttempts: int)
    ensures Reflects(ts, AttributeRows(ts, gates, rows, required, maxAttempts), Implicated(ts, gates, rows, required),
        maxAttempts)
    decreases |rows|
  {
    if rows == [] {
      assert Implicated(ts, gates, rows, required) == {};
      assert IdsAt(ts, {}, maxAttempts, true) == {} && IdsAt(ts, {}, maxAttempts, false) == {};
    } else {
      var n := |rows| - 1;
      AttributionExact(ts, gates, rows[..n], required, maxAttempts);
      ImplicatedSnoc(ts, gates, rows[..n], rows[n], required);
      assert rows[..n] + [rows[n]] == rows;
      RowReflects(ts, AttributeRows(ts, gates, rows[..n], required, maxAttempts),
          Implicated(ts, gates, rows[..n], required),
                  gates, rows[n], required, maxAttempts);
    }
  }

  lemma SameRowsSameImplicated(ts: seq<Task>, gates: seq<Gate>, rows: seq<Evidence>, rows': seq<Evidence>,
                               required: Option<set<string>>)
    requires forall e :: e in rows <==> e in rows'
    ensures Implicated(ts, gates, rows, required) == Implicated(ts, gates, rows', required)
  {
    SomeRowsImplicate(ts, gates, rows, rows', required);
    SomeRowsImplicate(ts, gates, rows', rows, required);
  }

  lemma SomeRowsImplicate(ts: seq<Task>, gates: seq<Gate>, rows: seq<Evidence>, rows': seq<Evidence>,
                          required: Option<set<string>>)
    requires forall e :: e in rows ==> e in rows'
    ensures Implicated(ts, gates, rows, required) <= Implicated(ts, gates, rows', required)
  {
    forall i | i in Implicated(ts, gates, rows, required) ensures i in Implicated(ts, gates, rows', required) {
      var k :| 0 <= k < |rows| && i in ImplicatedBy(ts, gates, rows[k], required);
      assert rows[k] in rows';
      var m :| 0 <= m < |rows'| && rows'[m] == rows[k];
    }
  }

  /** The outcome does not depend on the order of the evidence, and no task is both reopened and escalated. */
  lemma AttributionOrderIndependent(ts: seq<Task>, gates: seq<Gate>, rows: seq<Evidence>, rows': seq<Evidence>,
                                    required: Option<set<string>>, maxAttempts: int)
    requires UniqueIds(ts) && forall e :: e in rows <==> e in rows'
    ensures var a := AttributeRows(ts, gates, rows, required, maxAttempts);
            var b := AttributeRows(ts, gates, rows', required, maxAttempts);
            && a.reopened == b.reopened && a.escalated == b.escalated && a.reopened !! a.escalated
            && |a.tasks| == |b.tasks| == |ts|
            && forall i :: 0 <= i < |ts| ==>
                 a.tasks[i].state == b.tasks[i].state && a.tasks[i].attempts == b.tasks[i].attempts
  {
    AttributionExact(ts, gates, rows, required, maxAttempts);
    AttributionExact(ts, gates, rows', required, maxAttempts);
    SameRowsSameImplicated(ts, gates, rows, rows', required);
    var a := AttributeRows(ts, gates, rows, required, maxAttempts);
    var b := AttributeRows(ts, gates, rows', required, maxAttempts);
    var hit := Implicated(ts, gates, rows, required);
    forall i | 0 <= i < |ts|
      ensures a.tasks[i].state == b.tasks[i].state && a.tasks[i].attempts == b.tasks[i].attempts
    {
      assert ReflectsAt(ts[i], a.tasks[i], i in hit, maxAttempts)
          && ReflectsAt(ts[i], b.tasks[i], i in hit, maxAttempts);
    }
    IdsDisjoint(ts, hit, maxAttempts);
  }

  lemma IdsDisjoint(ts: seq<Task>, hit: set<nat>, maxAttempts: int)
    requires UniqueIds(ts)
    ensures IdsAt(ts, hit, maxAttempts, false) !! IdsAt(ts, hit, maxAttempts, true)
  {
    forall x | x in IdsAt(ts, hit, maxAttempts, false) ensures x !in IdsAt(ts, hit, maxAttempts, true) {
      var i: nat :| i < |ts| && i in hit && !Escalates(ts[i], maxAttempts) && ts[i].id == x;
      assert forall j: nat :: j < |ts| && ts[j].id == x ==> j == i;
    }
  }

  // ---- repair twice ----

  /** The states repair leaves before its final refresh. */
  function RepairedState(t: Task, hit: bool, maxAttempts: int): TaskState {
    if hit || t.state == Failed then OutcomeOf(t, maxAttempts) else t.state
  }

  lemma RepairedAt(f: Fleet, maxAttempts: int, i: nat)
    requires i < |f.tasks|
    ensures var a, hit := Repaired(f, maxAttempts), Implicated(f.tasks, f.gates, FailingNow(f), None);
            && |a.tasks| == |f.tasks|
            && a.tasks[i].id == f.tasks[i].id && a.tasks[i].componentId == f.tasks[i].componentId
            && a.tasks[i].attempts == f.tasks[i].attempts && a.tasks[i].dependsOn == f.tasks[i].dependsOn
            && a.tasks[i].state == RepairedState(f.tasks[i], i in hit, maxAttempts)
  {
    var r := ReopenAll(f.tasks, maxAttempts);
    AttributionExact(r, f.gates, FailingNow(f), None, maxAttempts);
    SameImplicated(f.tasks, r, f.gates, FailingNow(f), None);
    assert ReflectsAt(r[i], Repaired(f, maxAttempts).tasks[i], i in Implicated(r, f.gates, FailingNow(f), None),
        maxAttempts);
  }

  lemma SameImplicated(ts: seq<Task>, us: seq<Task>, gates: seq<Gate>, rows: seq<Evidence>,
                       required: Option<set<string>>)
    requires SameComponents(ts, us)
    ensures Implicated(us, gates, rows, required) == Implicated(ts, gates, rows, required)
  {
    forall k | 0 <= k < |rows|
      ensures ImplicatedBy(us, gates, rows[k], required) == ImplicatedBy(ts, gates, rows[k], required)
    {
      if Considered(rows[k], required) && FindGate(gates, rows[k].gateId).Some? {
        SameOwners(ts, us, FindGate(gates, rows[k].gateId).value.attributedTo);
      }
    }
  }

  lemma {:induction false} SameOwners(ts: seq<Task>, us: seq<Task>, components: seq<string>)
    requires SameComponents(ts, us)
    ensures OwnersOf(us, components) == OwnersOf(ts, components)
  {
    if components != [] {
      SameOwners(ts, us, components[..|components| - 1]);
      SameOwner(ts, us, components[|components| - 1]);
    }
  }

  /** No task is left failed with attempts to spare. */
  lemma RepairLeavesOnlyExhausted(f: Fleet, maxAttempts: int, i: nat)
    requires i < |f.tasks|
    ensures |RepairFailed(f, maxAttempts).tasks| == |f.tasks|
    ensures var t := RepairFailed(f, maxAttempts).tasks[i]; t.state == Failed ==> t.attempts >= maxAttempts
  {
    RepairedAt(f, maxAttempts, i);
  }

  /** A task refused for its attempts stays failed under repair with the same budget. */
  lemma RepairNeverReopensExhausted(f: Fleet, maxAttempts: int, i: nat)
    requires i < |f.tasks| && f.tasks[i].state == Failed && f.tasks[i].attempts >= maxAttempts
    ensures |RepairFailed(f, maxAttempts).tasks| == |f.tasks|
    ensures RepairFailed(f, maxAttempts).tasks[i].state == Failed
  {
    RepairedAt(f, maxAttempts, i);
  }

  lemma SameMerged(ts: seq<Task>, us: seq<Task>)
    requires |us| == |ts| && forall i :: 0 <= i < |ts| ==>
        us[i].id == ts[i].id && (us[i].state == Merged <==> ts[i].state == Merged)
    ensures MergedIds(us) == MergedIds(ts)
  {
    forall x ensures x in MergedIds(us) <==> x in MergedIds(ts) {
      if t :| t in us && t.state == Merged && t.id == x {
        var i :| 0 <= i < |us| && us[i] == t;
        assert ts[i] in ts;
      }
      if t :| t in ts && t.state == Merged && t.id == x {
        var i :| 0 <= i < |ts| && ts[i] == t;
        assert us[i] in us;
      }
    }
  }

  /** Repair is idempotent: a second call with the same budget changes no state and no attempt count. */
  lemma RepairIdempotent(f: Fleet, maxAttempts: int)
    ensures var once := RepairFailed(f, maxAttempts); var twice := RepairFailed(once, maxAttempts);
            && |twice.tasks| == |once.tasks| == |f.tasks|
            && forall i :: 0 <= i < |f.tasks| ==>
                 twice.tasks[i].state == once.tasks[i].state && twice.tasks[i].attempts == once.tasks[i].attempts
  {
    var once := RepairFailed(f, maxAttempts);
    var first, second := Repaired(f, maxAttempts).tasks, Repaired(once, maxAttempts).tasks;
    RepairLengths(f, maxAttempts);
    RepairLengths(once, maxAttempts);
    forall i | 0 <= i < |f.tasks|
      ensures second[i].id == first[i].id && (second[i].state == Merged <==> first[i].state == Merged)
    {
      SecondRepairAt(f, maxAttempts, i);
    }
    SameMerged(first, second);
    forall i | 0 <= i < |f.tasks|
      ensures Refreshed(second)[i].state == once.tasks[i].state
          && Refreshed(second)[i].attempts == once.tasks[i].attempts
    {
      SecondRepairAt(f, maxAttempts, i);
    }
  }

  lemma RepairLengths(f: Fleet, maxAttempts: int)
    ensures |Repaired(f, maxAttempts).tasks| == |f.tasks|
  {
    AttributionExact(ReopenAll(f.tasks, maxAttempts), f.gates, FailingNow(f), None, maxAttempts);
  }

  /** What the second repair makes of a task, seen against the first one. */
  lemma SecondRepairAt(f: Fleet, maxAttempts: int, i: nat)
    requires i < |f.tasks|
    ensures var once := RepairFailed(f, maxAttempts);
            var first, second := Repaired(f, maxAttempts).tasks, Repaired(once, maxAttempts).tasks;
            && |first| == |second| == |f.tasks| == |once.tasks|
            && second[i].id == first[i].id && second[i].dependsOn == first[i].dependsOn
                && second[i].attempts == first[i].attempts
            && (second[i].state == first[i].state || second[i].state == Promote(first[i], MergedIds(first)).state)
            && (second[i].state == Merged <==> first[i].state == Merged)
  {
    var once := RepairFailed(f, maxAttempts);
    RepairLengths(f, maxAttempts);
    forall j | 0 <= j < |f.tasks| ensures once.tasks[j].componentId == f.tasks[j].componentId {
      RepairedAt(f, maxAttempts, j);
    }
    RepairedAt(f, maxAttempts, i);
    RepairedAt(once, maxAttempts, i);
    assert FailingNow(once) == FailingNow(f);
    SameImplicated(f.tasks, once.tasks, f.gates, FailingNow(f), None);
  }
}
