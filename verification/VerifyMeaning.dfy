/** What system verification and repair make of a run, said with the fields of the record
    (minifleet/scheduler.py, verify and repair_failed). */
module VerifyMeaning {
  import opened Text
  import opened Options
  import opened Dictionary
  import opened Filters
  import opened Gates
  import opened GateRows
  import opened Model
  import opened FleetModel
  import opened FleetRepair
  import opened Blame
  import opened Scheduler

  // ---- which gates run, and in which order ----

  function OfSystem(budget: bool): Gate -> bool {
    (g: Gate) => g.scope == System && (g.kind == Budget) == budget
  }

  /** gs are the system gates of the design: first those that measure, then the budgets, each kind in the order of
      the design. */
  ghost predicate MeasuresFirst(gates: seq<Gate>, gs: seq<Gate>) {
    exists ms, bs ::
      && Keeping(gates, OfSystem(false), ms) && Keeping(gates, OfSystem(true), bs)
      && gs == At(gates, ms) + At(gates, bs)
  }

  lemma {:induction false} SystemKindKept(gates: seq<Gate>, budget: bool)
    ensures WhereBudget(SystemGates(gates), budget) == Filter(gates, OfSystem(budget))
  {
    if gates != [] {
      SystemKindKept(gates[1..], budget);
      var rest := SystemGates(gates[1..]);
      if gates[0].scope == System {
        assert ([gates[0]] + rest)[1..] == rest;
      } else {
        assert [] + rest == rest;
      }
    }
  }

  lemma SystemMeasuresFirst(gates: seq<Gate>)
    ensures MeasuresFirst(gates, BudgetsLast(SystemGates(gates)))
  {
    SystemKindKept(gates, false);
    SystemKindKept(gates, true);
    var ms := FilterKeeps(gates, OfSystem(false));
    var bs := FilterKeeps(gates, OfSystem(true));
  }

  // ---- the verdict ----

  ghost predicate RequiredGate(gates: seq<Gate>, id: string) {
    exists k :: 0 <= k < |gates| && gates[k].scope == System && gates[k].required && gates[k].id == id
  }

  lemma {:induction false} RequiredIdsMean(gates: seq<Gate>, id: string)
    ensures id in RequiredIds(SystemGates(gates)) <==> RequiredGate(gates, id)
  {
    var gs := SystemGates(gates);
    if id in RequiredIds(gs) {
      var g :| g in gs && g.required && g.id == id;
      SystemGateMeans(gates, g);
      var k :| 0 <= k < |gates| && gates[k] == g;
    }
    if RequiredGate(gates, id) {
      var k :| 0 <= k < |gates| && gates[k].scope == System && gates[k].required && gates[k].id == id;
      SystemGateMeans(gates, gates[k]);
    }
  }

  lemma {:induction false} SystemGateMeans(gates: seq<Gate>, g: Gate)
    ensures g in SystemGates(gates) <==> g in gates && g.scope == System
  {
    if gates != [] {
      assert gates == [gates[0]] + gates[1..];
      SystemGateMeans(gates[1..], g);
    }
  }

  /** The last row of its gate. */
  ghost predicate LastRow(rows: seq<Evidence>, k: nat) {
    k < |rows| && forall m :: k < m < |rows| ==> rows[m].gateId != rows[k].gateId
  }

  /** The last row of gate id did not pass; it gave this status. */
  ghost predicate EndsRed(rows: seq<Evidence>, id: string, status: Status) {
    status != Pass && exists k: nat :: LastRow(rows, k) && rows[k].gateId == id && rows[k].status == status
  }

  lemma LastRowSnoc(rows: seq<Evidence>, id: string, k: nat)
    requires rows != []
    ensures var n := |rows| - 1;
            LastRow(rows, k) && rows[k].gateId == id <==>
              if rows[n].gateId == id then k == n else LastRow(rows[..n], k) && rows[..n][k].gateId == id
  {
    var n := |rows| - 1;
    if k < n { assert forall m :: 0 <= m < n ==> rows[..n][m] == rows[m]; }
  }

  lemma {:induction false} HasLastRow(rows: seq<Evidence>, id: string)
    ensures (exists k: nat :: LastRow(rows, k) && rows[k].gateId == id) <==>
              exists k :: 0 <= k < |rows| && rows[k].gateId == id
  {
    if rows != [] {
      var n := |rows| - 1;
      HasLastRow(rows[..n], id);
      if rows[n].gateId == id {
        assert LastRow(rows, n);
      } else if k :| 0 <= k < |rows| && rows[k].gateId == id {
        assert rows[..n][k] == rows[k];
        var m: nat :| LastRow(rows[..n], m) && rows[..n][m].gateId == id;
        LastRowSnoc(rows, id, m);
      }
    }
  }

  lemma {:induction false} LatestMembers(rows: seq<Evidence>, id: string)
    ensures id in Latest(rows) <==> exists k :: 0 <= k < |rows| && rows[k].gateId == id
  {
    if rows != [] {
      var n := |rows| - 1;
      LatestMembers(rows[..n], id);
      if k :| 0 <= k < n && rows[..n][k].gateId == id { assert rows[k] == rows[..n][k]; }
      if k :| 0 <= k < |rows| && rows[k].gateId == id && rows[n].gateId != id { assert rows[..n][k] == rows[k]; }
    }
  }

  lemma {:induction false} LatestIsLastRow(rows: seq<Evidence>, id: string, k: nat)
    requires LastRow(rows, k) && rows[k].gateId == id
    ensures id in Latest(rows) && Latest(rows)[id] == rows[k].status
  {
    var n := |rows| - 1;
    LastRowSnoc(rows, id, k);
    if k < n { LatestIsLastRow(rows[..n], id, k); }
  }

  /** A required gate whose last row is red. */
  ghost predicate Spoils(gates: seq<Gate>, rows: seq<Evidence>, id: string, status: Status) {
    RequiredGate(gates, id) && EndsRed(rows, id, status)
  }

  ghost predicate NothingSpoils(gates: seq<Gate>, rows: seq<Evidence>) {
    forall id, status :: !Spoils(gates, rows, id, status)
  }

  ghost predicate NamesSpoilers(gates: seq<Gate>, rows: seq<Evidence>, bad: map<string, Status>) {
    forall id, status :: Spoils(gates, rows, id, status) <==> id in bad && bad[id] == status
  }

  /** Every required system gate has a row. */
  ghost predicate AllRan(gates: seq<Gate>, rows: seq<Evidence>) {
    forall id :: RequiredGate(gates, id) ==> exists k :: 0 <= k < |rows| && rows[k].gateId == id
  }

  ghost predicate NeverRan(rows: seq<Evidence>, id: string) {
    forall k :: 0 <= k < |rows| ==> rows[k].gateId != id
  }

  lemma LatestIsRed(rows: seq<Evidence>, id: string, status: Status)
    ensures NeverRan(rows, id) <==> id !in Latest(rows)
    ensures EndsRed(rows, id, status) <==> id in Latest(rows) && Latest(rows)[id] == status && status != Pass
  {
    LatestMembers(rows, id);
    HasLastRow(rows, id);
    forall k: nat | LastRow(rows, k) && rows[k].gateId == id
      ensures id in Latest(rows) && Latest(rows)[id] == rows[k].status
    {
      LatestIsLastRow(rows, id, k);
    }
  }

  /** The verdict over any rows: required gates without a row are missing; when none is, those that ended red fail it,
      with the status they ended with; when there are none of these either, it passes. */
  lemma JudgeMeans(rows: seq<Evidence>, required: set<string>)
    ensures match Judge(rows, required)
            case MissingEvidence(gates) =>
              gates != {} && forall id :: id in gates <==> id in required && NeverRan(rows, id)
            case Failing(bad) =>
              && bad != map[] && (forall id :: id in required ==> !NeverRan(rows, id))
              && forall id, status :: id in bad && bad[id] == status <==> id in required && EndsRed(rows, id, status)
            case AllGreen =>
              forall id, status :: id in required ==> !NeverRan(rows, id) && !EndsRed(rows, id, status)
            case _ => false
  {
    forall id ensures NeverRan(rows, id) <==> id !in Latest(rows) {
      LatestIsRed(rows, id, Pass);
    }
    forall id, status
      ensures EndsRed(rows, id, status) <==> id in Latest(rows) && Latest(rows)[id] == status && status != Pass
    {
      LatestIsRed(rows, id, status);
    }
    var bad := map g | g in Latest(rows) && g in required && Latest(rows)[g] != Pass :: Latest(rows)[g];
    if id :| id in required && NeverRan(rows, id) { assert id in required - Latest(rows).Keys; }
    if id, status :| id in required && EndsRed(rows, id, status) { assert id in bad; }
  }

  /** A pass means that no required gate ended red; otherwise the verdict names those that did. */
  lemma VerdictMeans(gates: seq<Gate>, rows: seq<Evidence>)
    requires AllRan(gates, rows)
    ensures var verdict := Judge(rows, RequiredIds(SystemGates(gates)));
            if NothingSpoils(gates, rows) then verdict == AllGreen
            else verdict.Failing? && NamesSpoilers(gates, rows, verdict.bad)
  {
    var required := RequiredIds(SystemGates(gates));
    forall id ensures id in required <==> RequiredGate(gates, id) {
      RequiredIdsMean(gates, id);
    }
    JudgeMeans(rows, required);
    var verdict := Judge(rows, required);
    assert forall id :: id in required ==> !NeverRan(rows, id);
    assert !verdict.MissingEvidence?;
    if verdict.Failing? {
      assert NamesSpoilers(gates, rows, verdict.bad);
      var id :| id in verdict.bad;
      assert Spoils(gates, rows, id, verdict.bad[id]);
    }
  }

  lemma EveryGateRan(gates: seq<Gate>, rows: seq<Evidence>)
    requires var gs := BudgetsLast(SystemGates(gates)); |rows| == |gs| && forall k :: 0 <= k < |gs| ==>
                 rows[k].gateId == gs[k].id
    ensures AllRan(gates, rows)
  {
    var gs := BudgetsLast(SystemGates(gates));
    forall id | RequiredGate(gates, id) ensures exists k :: 0 <= k < |rows| && rows[k].gateId == id {
      var k :| 0 <= k < |gates| && gates[k].scope == System && gates[k].required && gates[k].id == id;
      SystemGateMeans(gates, gates[k]);
      BudgetsLastMembers(SystemGates(gates), gates[k]);
      var m :| 0 <= m < |gs| && gs[m] == gates[k];
      assert rows[m].gateId == id;
    }
  }

  // ---- promotion ----

  /** All dependencies of t are merged. */
  ghost predicate Unblocked(us: seq<Task>, t: Task) {
    forall d :: d in t.dependsOn ==> exists j :: 0 <= j < |us| && us[j].id == d && us[j].state == Merged
  }

  /** What refresh leaves of a task that came out in state s. */
  ghost predicate Settles(us: seq<Task>, t: Task, u: Task, s: TaskState) {
    u.state == if s == Pending && Unblocked(us, t) then Ready else s
  }

  lemma RefreshSettles(ts: seq<Task>, i: nat)
    requires i < |ts|
    ensures var us := Refreshed(ts); Settles(us, ts[i], us[i], ts[i].state) && us[i] == ts[i].(state := us[i].state)
  {
    var us := Refreshed(ts);
    forall d ensures d in MergedIds(ts) <==> exists j :: 0 <= j < |us| && us[j].id == d && us[j].state == Merged {
      if d in MergedIds(ts) {
        var t :| t in ts && t.state == Merged && t.id == d;
        var j :| 0 <= j < |ts| && ts[j] == t;
        assert us[j] == ts[j];
      }
      if j :| 0 <= j < |us| && us[j].id == d && us[j].state == Merged {
        assert ts[j] == us[j] && ts[j] in ts;
      }
    }
    if Unblocked(us, ts[i]) {
      assert forall d :: d in Elements(ts[i].dependsOn) ==> d in MergedIds(ts);
    }
    if Elements(ts[i].dependsOn) <= MergedIds(ts) {
      assert forall d :: d in ts[i].dependsOn ==> d in Elements(ts[i].dependsOn);
    }
  }

  // ---- verify ----

  /** What is left of the tasks when rows are answered for and the tasks are refreshed. */
  ghost predicate AnsweredFor(ts: seq<Task>, us: seq<Task>, gates: seq<Gate>, rows: seq<Evidence>,
                              required: Option<set<string>>, maxAttempts: int) {
    && |us| == |ts|
    && forall i :: 0 <= i < |ts| ==> AnsweredAt(ts, us, gates, rows, required, maxAttempts, i)
  }

  ghost predicate AnsweredAt(ts: seq<Task>, us: seq<Task>, gates: seq<Gate>, rows: seq<Evidence>,
                             required: Option<set<string>>, maxAttempts: int, i: nat)
    requires i < |ts| == |us|
  {
    && us[i].id == ts[i].id && us[i].attempts == ts[i].attempts
    && us[i].sandbox == (ts[i].sandbox && !Blamed(ts, gates, rows, required, i))
    && Settles(us, ts[i], us[i],
               if !Blamed(ts, gates, rows, required, i) then ts[i].state
               else if ts[i].attempts < maxAttempts then Pending else Failed)
  }

  lemma RowsAnsweredFor(ts: seq<Task>, gates: seq<Gate>, rows: seq<Evidence>, required: Option<set<string>>,
                        maxAttempts: int)
    ensures AnsweredFor(ts, Refreshed(AttributeRows(ts, gates, rows, required, maxAttempts).tasks), gates, rows,
                        required, maxAttempts)
  {
    var a := AttributeRows(ts, gates, rows, required, maxAttempts);
    AttributionBlames(ts, gates, rows, required, maxAttempts);
    forall i | 0 <= i < |ts| ensures AnsweredAt(ts, Refreshed(a.tasks), gates, rows, required, maxAttempts, i) {
      assert Answered(ts[i], a.tasks[i], Blamed(ts, gates, rows, required, i), maxAttempts);
      AttributionBriefs(ts, gates, rows, required, maxAttempts, i, "");
      RefreshSettles(a.tasks, i);
    }
  }

  /** Verify runs every system gate, budgets last, and keeps all rows and measurements. */
  lemma VerifyRuns(f: Fleet, observe: nat -> Observation, maxAttempts: int) returns (gs: seq<Gate>, rows: seq<Evidence>)
    ensures gs == BudgetsLast(SystemGates(f.gates)) && rows == EvidenceOf(gs, f.metrics, observe, "")
    ensures MeasuresFirst(f.gates, gs) && RowsOf(gs, f.metrics, observe, "", rows)
    ensures Known(gs, f.metrics, observe, |gs|, Verify(f, observe, maxAttempts).metrics)
    ensures Verify(f, observe, maxAttempts).evidence == f.evidence + rows
  {
    gs := BudgetsLast(SystemGates(f.gates));
    rows := EvidenceOf(gs, f.metrics, observe, "");
    SystemMeasuresFirst(f.gates);
    PassRows(gs, f.metrics, observe, "");
    StoreIsKnown(gs, f.metrics, observe, |gs|);
    VerifyKeepsRows(f, observe, maxAttempts);
  }

  lemma VerifyKeepsRows(f: Fleet, observe: nat -> Observation, maxAttempts: int)
    ensures var v, gs := Verify(f, observe, maxAttempts), BudgetsLast(SystemGates(f.gates));
            && v.evidence == f.evidence + EvidenceOf(gs, f.metrics, observe, "")
            && v.metrics == StoreAt(gs, f.metrics, observe, |gs|)
            && v.gates == f.gates && v.mergeLog == f.mergeLog && v.dispatched == f.dispatched
  {
  }

  ghost predicate AreRequired(gates: seq<Gate>, required: set<string>) {
    forall id :: id in required <==> RequiredGate(gates, id)
  }

  /** What the verdict of a pass over the system gates, with these rows, does to the run. */
  ghost predicate Concluded(f: Fleet, v: Fleet, rows: seq<Evidence>, required: set<string>, maxAttempts: int) {
    if NothingSpoils(f.gates, rows) then
      v.status == Passed && v.verdict == AllGreen && v.tasks == f.tasks && v.attributed == f.attributed
    else
      && v.status == RunFailed && v.verdict.Failing? && NamesSpoilers(f.gates, rows, v.verdict.bad)
      && v.attributed == v.verdict
      && AnsweredFor(f.tasks, v.tasks, f.gates, rows, Some(required), maxAttempts)
  }

  /** The run passes exactly when no required gate ended red, and then the tasks stay. Otherwise the verdict names
      the gates, exactly the tasks that red required rows blame are reopened or given up, and the verdict counts as
      attributed. */
  lemma VerifyMeans(f: Fleet, observe: nat -> Observation, maxAttempts: int)
    returns (gs: seq<Gate>, rows: seq<Evidence>, required: set<string>)
    ensures MeasuresFirst(f.gates, gs) && RowsOf(gs, f.metrics, observe, "", rows) && AreRequired(f.gates, required)
    ensures Verify(f, observe, maxAttempts).evidence == f.evidence + rows
    ensures Concluded(f, Verify(f, observe, maxAttempts), rows, required, maxAttempts)
  {
    gs, rows := VerifyRuns(f, observe, maxAttempts);
    required := RequiredIds(SystemGates(f.gates));
    forall id ensures id in required <==> RequiredGate(f.gates, id) {
      RequiredIdsMean(f.gates, id);
    }
    EveryGateRan(f.gates, rows);
    VerdictMeans(f.gates, rows);
    RowsAnsweredFor(f.tasks, f.gates, rows, Some(required), maxAttempts);
  }

  // ---- repair ----

  /** The verdict failed, and nobody has been asked to answer for it yet. */
  predicate Unanswered(f: Fleet) {
    f.verdict != NoVerdict && f.verdict != AllGreen && f.verdict != f.attributed
  }

  /** Repair asks about the last row of each gate in the whole log, when the verdict is unanswered. */
  ghost predicate RepairAsks(f: Fleet, row: Evidence) {
    Unanswered(f) && row.status != Pass && exists k: nat :: LastRow(f.evidence, k) && f.evidence[k] == row
  }

  ghost predicate RepairBlames(f: Fleet, i: nat) {
    exists row :: RepairAsks(f, row) && Blames(f.tasks, f.gates, row, None, i)
  }

  lemma {:induction false} LatestRowsMean(evidence: seq<Evidence>, id: string)
    ensures id in LatestRows(evidence).table ==> exists k: nat :: LastRow(evidence, k) && evidence[k].gateId == id
    ensures forall k: nat :: LastRow(evidence, k) && evidence[k].gateId == id ==>
              id in LatestRows(evidence).table && LatestRows(evidence).table[id] == evidence[k]
  {
    if evidence != [] {
      var n := |evidence| - 1;
      LatestRowsMean(evidence[..n], id);
      if evidence[n].gateId == id {
        assert LastRow(evidence, n);
      } else if id in LatestRows(evidence).table {
        var k: nat :| LastRow(evidence[..n], k) && evidence[..n][k].gateId == id;
        LastRowSnoc(evidence, id, k);
      }
      forall k: nat | LastRow(evidence, k) && evidence[k].gateId == id
        ensures id in LatestRows(evidence).table && LatestRows(evidence).table[id] == evidence[k]
      {
        LastRowSnoc(evidence, id, k);
      }
    }
  }

  lemma {:induction false} FailingRowsMean(d: Dict<string, Evidence>, keys: seq<string>, row: Evidence)
    ensures row in FailingRows(d, keys) <==> exists id :: id in keys && id in d.table && d.table[id] == row
                                                          && row.status != Pass
  {
    if keys != [] {
      FailingRowsMean(d, keys[1..], row);
      assert keys == [keys[0]] + keys[1..];
    }
  }

  lemma FailingNowMeans(f: Fleet, row: Evidence)
    ensures row in FailingNow(f) <==> RepairAsks(f, row)
  {
    var d := LatestRows(f.evidence);
    FailingRowsMean(d, d.keys, row);
    if RepairAsks(f, row) {
      var k: nat :| LastRow(f.evidence, k) && f.evidence[k] == row;
      LatestRowsMean(f.evidence, row.gateId);
      assert row.gateId in Elements(d.keys);
    }
    if row in FailingNow(f) {
      var id :| id in d.keys && id in d.table && d.table[id] == row && row.status != Pass;
      LatestRowsMean(f.evidence, id);
      var k: nat :| LastRow(f.evidence, k) && f.evidence[k].gateId == id;
    }
  }

  lemma RepairBlamesMeans(f: Fleet, i: nat)
    ensures Blamed(f.tasks, f.gates, FailingNow(f), None, i) <==> RepairBlames(f, i)
  {
    var rows := FailingNow(f);
    if r :| 0 <= r < |rows| && Blames(f.tasks, f.gates, rows[r], None, i) {
      assert rows[r] in rows;
      FailingNowMeans(f, rows[r]);
    }
    if row :| RepairAsks(f, row) && Blames(f.tasks, f.gates, row, None, i) {
      FailingNowMeans(f, row);
      var r :| 0 <= r < |rows| && rows[r] == row;
    }
  }

  /** A task that repair touches: it failed, or an unanswered red gate blames it. */
  ghost predicate Faulty(f: Fleet, i: nat)
    requires i < |f.tasks|
  {
    f.tasks[i].state == Failed || RepairBlames(f, i)
  }

  /** Repair reopens every faulty task with attempts left and gives up the others, and takes their sandbox; it changes
      nothing else of the run. */
  lemma RepairMeans(f: Fleet, maxAttempts: int, i: nat)
    requires i < |f.tasks|
    ensures var us := RepairFailed(f, maxAttempts).tasks;
            && RepairFailed(f, maxAttempts) == f.(tasks := us) && |us| == |f.tasks|
            && us[i].id == f.tasks[i].id && us[i].attempts == f.tasks[i].attempts
            && us[i].sandbox == (f.tasks[i].sandbox && !Faulty(f, i))
            && Settles(us, f.tasks[i], us[i],
                       if !Faulty(f, i) then f.tasks[i].state
                       else if f.tasks[i].attempts < maxAttempts then Pending else Failed)
  {
    var a := Repaired(f, maxAttempts);
    RepairedAt(f, maxAttempts, i);
    HitIsBlamed(f.tasks, f.gates, FailingNow(f), None, i);
    RepairBlamesMeans(f, i);
    ReopenedBlame(f, maxAttempts, i);
    AttributionBriefs(ReopenAll(f.tasks, maxAttempts), f.gates, FailingNow(f), None, maxAttempts, i, "");
    RefreshSettles(a.tasks, i);
  }

  lemma SameBlame(ts: seq<Task>, us: seq<Task>, gates: seq<Gate>, row: Evidence, required: Option<set<string>>, i: nat)
    requires SameComponents(ts, us)
    ensures Blames(us, gates, row, required, i) <==> Blames(ts, gates, row, required, i)
  {
    ImplicatedIsBlamed(ts, gates, row, required, i);
    ImplicatedIsBlamed(us, gates, row, required, i);
    if FindGate(gates, row.gateId).Some? {
      SameOwners(ts, us, FindGate(gates, row.gateId).value.attributedTo);
    }
  }

  lemma ReopenedBlame(f: Fleet, maxAttempts: int, i: nat)
    ensures Blamed(ReopenAll(f.tasks, maxAttempts), f.gates, FailingNow(f), None, i) <==> RepairBlames(f, i)
  {
    var r, rows := ReopenAll(f.tasks, maxAttempts), FailingNow(f);
    RepairBlamesMeans(f, i);
    forall k | 0 <= k < |rows|
      ensures Blames(r, f.gates, rows[k], None, i) <==> Blames(f.tasks, f.gates, rows[k], None, i)
    {
      SameBlame(f.tasks, r, f.gates, rows[k], None, i);
    }
  }

  /** x is the id of a faulty task with, or without, an attempt left. */
  ghost predicate NamesFaulty(f: Fleet, maxAttempts: int, left: bool, x: string) {
    exists i :: 0 <= i < |f.tasks| && Faulty(f, i) && f.tasks[i].id == x && (f.tasks[i].attempts < maxAttempts) == left
  }

  lemma FaultyIsReported(f: Fleet, maxAttempts: int, left: bool, x: string)
    requires NamesFaulty(f, maxAttempts, left, x)
    ensures x in FailedIds(f.tasks, maxAttempts, !left)
         || NamesBlamed(ReopenAll(f.tasks, maxAttempts), f.gates, FailingNow(f), None, maxAttempts, left, x)
  {
    var i :| 0 <= i < |f.tasks| && Faulty(f, i) && f.tasks[i].id == x && (f.tasks[i].attempts < maxAttempts) == left;
    ReopenedBlame(f, maxAttempts, i);
    if f.tasks[i].state == Failed {
      assert f.tasks[i] in f.tasks;
    } else {
      assert ReopenAll(f.tasks, maxAttempts)[i].id == x;
    }
  }

  lemma ReportedIsFaulty(f: Fleet, maxAttempts: int, left: bool, x: string)
    requires x in FailedIds(f.tasks, maxAttempts, !left)
          || NamesBlamed(ReopenAll(f.tasks, maxAttempts), f.gates, FailingNow(f), None, maxAttempts, left, x)
    ensures NamesFaulty(f, maxAttempts, left, x)
  {
    var r := ReopenAll(f.tasks, maxAttempts);
    if x in FailedIds(f.tasks, maxAttempts, !left) {
      var t :| t in f.tasks && t.state == Failed && Escalates(t, maxAttempts) == !left && t.id == x;
      var i :| 0 <= i < |f.tasks| && f.tasks[i] == t;
      assert Faulty(f, i);
    } else {
      var i :| 0 <= i < |r| && Blamed(r, f.gates, FailingNow(f), None, i) && r[i].id == x
               && (r[i].attempts < maxAttempts) == left;
      ReopenedBlame(f, maxAttempts, i);
      assert Faulty(f, i) && f.tasks[i].id == x && f.tasks[i].attempts == r[i].attempts;
    }
  }

  lemma FaultyIsNamed(f: Fleet, maxAttempts: int, left: bool, x: string)
    ensures NamesFaulty(f, maxAttempts, left, x)
       <==> x in FailedIds(f.tasks, maxAttempts, !left)
            || NamesBlamed(ReopenAll(f.tasks, maxAttempts), f.gates, FailingNow(f), None, maxAttempts, left, x)
  {
    if NamesFaulty(f, maxAttempts, left, x) {
      FaultyIsReported(f, maxAttempts, left, x);
    } else if x in FailedIds(f.tasks, maxAttempts, !left)
           || NamesBlamed(ReopenAll(f.tasks, maxAttempts), f.gates, FailingNow(f), None, maxAttempts, left, x) {
      ReportedIsFaulty(f, maxAttempts, left, x);
    }
  }

  /** The reports of repair: the faulty tasks with and without attempts left. */
  lemma RepairReports(f: Fleet, maxAttempts: int, x: string)
    ensures x in FailedIds(f.tasks, maxAttempts, false) + Repaired(f, maxAttempts).reopened
       <==> NamesFaulty(f, maxAttempts, true, x)
    ensures x in FailedIds(f.tasks, maxAttempts, true) + Repaired(f, maxAttempts).escalated
       <==> NamesFaulty(f, maxAttempts, false, x)
  {
    AttributionBlames(ReopenAll(f.tasks, maxAttempts), f.gates, FailingNow(f), None, maxAttempts);
    FaultyIsNamed(f, maxAttempts, true, x);
    FaultyIsNamed(f, maxAttempts, false, x);
  }

  /** And of the red rows it asks about, exactly those that blame nobody. */
  lemma RepairReportsOrphans(f: Fleet, maxAttempts: int, x: string)
    ensures x in Repaired(f, maxAttempts).unattributed
       <==> exists row :: RepairAsks(f, row) && Orphan(f.tasks, f.gates, row, None, x)
  {
    var r, rows := ReopenAll(f.tasks, maxAttempts), FailingNow(f);
    AttributionReportsOrphans(r, f.gates, rows, None, maxAttempts, x);
    forall row ensures Orphan(r, f.gates, row, None, x) <==> Orphan(f.tasks, f.gates, row, None, x) {
      SameOrphan(f.tasks, r, f.gates, row, x);
    }
    if k :| 0 <= k < |rows| && Orphan(r, f.gates, rows[k], None, x) {
      assert rows[k] in rows;
      FailingNowMeans(f, rows[k]);
    }
    if row :| RepairAsks(f, row) && Orphan(f.tasks, f.gates, row, None, x) {
      FailingNowMeans(f, row);
      var k :| 0 <= k < |rows| && rows[k] == row;
    }
  }

  lemma SameOrphan(ts: seq<Task>, us: seq<Task>, gates: seq<Gate>, row: Evidence, x: string)
    requires SameComponents(ts, us)
    ensures Orphan(us, gates, row, None, x) <==> Orphan(ts, gates, row, None, x)
  {
    forall c ensures Uncarried(us, c) <==> Uncarried(ts, c) {
      CarriedIsFound(ts, c, 0);
      CarriedIsFound(us, c, 0);
      SameOwner(ts, us, c);
    }
    forall k: nat | k < |gates| ensures OrphanOf(us, gates[k], x) <==> OrphanOf(ts, gates[k], x) {
    }
  }
}
