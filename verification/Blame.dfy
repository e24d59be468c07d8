/** Whom evidence implicates, said with the rows, the gates and the tasks alone (minifleet/scheduler.py,
    attribute_failures, verify and repair_failed). */
module Blame {
  import opened Options
  import opened Filters
  import opened Model
  import opened FleetModel
  import opened FleetRepair

  /** The gate at position k is the one the design declares under an id. */
  ghost predicate Declares(gates: seq<Gate>, id: string, k: nat) {
    k < |gates| && gates[k].id == id && forall j :: 0 <= j < k ==> gates[j].id != id
  }

  ghost predicate Undeclared(gates: seq<Gate>, id: string) {
    forall k :: 0 <= k < |gates| ==> gates[k].id != id
  }

  /** Task i is the one that carries a component. */
  ghost predicate Carries(ts: seq<Task>, component: string, i: nat) {
    i < |ts| && ts[i].componentId == component && forall j :: 0 <= j < i ==> ts[j].componentId != component
  }

  ghost predicate Uncarried(ts: seq<Task>, component: string) {
    forall i :: 0 <= i < |ts| ==> ts[i].componentId != component
  }

  /** A row that wants an answer: it did not pass, be it a failure, an error or a skip, and its gate is required when
      only required gates are asked about. */
  ghost predicate Red(row: Evidence, required: Option<set<string>>) {
    row.status != Pass && (required.Some? ==> row.gateId in required.value)
  }

  /** A red row's gate names the component that task i carries. */
  ghost predicate Blames(ts: seq<Task>, gates: seq<Gate>, row: Evidence, required: Option<set<string>>, i: nat) {
    Red(row, required) && exists k: nat, c ::
      Declares(gates, row.gateId, k) && c in gates[k].attributedTo && Carries(ts, c, i)
  }

  ghost predicate Blamed(ts: seq<Task>, gates: seq<Gate>, rows: seq<Evidence>, required: Option<set<string>>, i: nat) {
    exists r :: 0 <= r < |rows| && Blames(ts, gates, rows[r], required, i)
  }

  lemma {:induction false} FoundIsDeclared(gates: seq<Gate>, id: string)
    ensures FindGate(gates, id).None? <==> Undeclared(gates, id)
    ensures FindGate(gates, id).Some? ==>
              exists k: nat :: Declares(gates, id, k) && gates[k] == FindGate(gates, id).value
  {
    if gates != [] {
      if gates[0].id == id {
        assert Declares(gates, id, 0);
      } else {
        FoundIsDeclared(gates[1..], id);
        if FindGate(gates[1..], id).Some? {
          var k: nat :| Declares(gates[1..], id, k) && gates[1..][k] == FindGate(gates, id).value;
          assert forall j :: 0 < j < k + 1 ==> gates[j] == gates[1..][j - 1];
          assert Declares(gates, id, k + 1);
        } else {
          assert forall j :: 0 < j < |gates| ==> gates[j] == gates[1..][j - 1];
        }
      }
    }
  }

  lemma DeclaredOnce(gates: seq<Gate>, id: string, j: nat, k: nat)
    requires Declares(gates, id, j) && Declares(gates, id, k)
    ensures j == k
  {
  }

  lemma CarriedIsFound(ts: seq<Task>, component: string, i: nat)
    ensures Carries(ts, component, i) <==> i < |ts| && i == FindComponent(ts, component)
    ensures Uncarried(ts, component) <==> FindComponent(ts, component) == |ts|
  {
    var k := FindComponent(ts, component);
    if k < |ts| { assert ts[k].componentId == component; }
  }

  lemma {:induction false} OwnersAreCarriers(ts: seq<Task>, components: seq<string>, i: nat)
    ensures i in OwnersOf(ts, components) <==> exists c :: c in components && Carries(ts, c, i)
  {
    if components != [] {
      var n := |components| - 1;
      var last := components[n];
      assert components == components[..n] + [last];
      OwnersAreCarriers(ts, components[..n], i);
      CarriedIsFound(ts, last, i);
      if c :| c in components && Carries(ts, c, i) { assert c == last || c in components[..n]; }
    }
  }

  lemma ImplicatedIsBlamed(ts: seq<Task>, gates: seq<Gate>, row: Evidence, required: Option<set<string>>, i: nat)
    ensures i in ImplicatedBy(ts, gates, row, required) <==> Blames(ts, gates, row, required, i)
  {
    FoundIsDeclared(gates, row.gateId);
    var found := FindGate(gates, row.gateId);
    if found.Some? {
      var k: nat :| Declares(gates, row.gateId, k) && gates[k] == found.value;
      OwnersAreCarriers(ts, found.value.attributedTo, i);
      forall j: nat | Declares(gates, row.gateId, j) ensures j == k {
        DeclaredOnce(gates, row.gateId, j, k);
      }
    }
  }

  lemma HitIsBlamed(ts: seq<Task>, gates: seq<Gate>, rows: seq<Evidence>, required: Option<set<string>>, i: nat)
    requires i < |ts|
    ensures i in Implicated(ts, gates, rows, required) <==> Blamed(ts, gates, rows, required, i)
  {
    forall r | 0 <= r < |rows|
      ensures i in ImplicatedBy(ts, gates, rows[r], required) <==> Blames(ts, gates, rows[r], required, i)
    {
      ImplicatedIsBlamed(ts, gates, rows[r], required, i);
    }
  }

  /** What becomes of a blamed task, and of any other. */
  ghost predicate Answered(t: Task, u: Task, blamed: bool, maxAttempts: int) {
    && u.id == t.id && u.componentId == t.componentId && u.dependsOn == t.dependsOn && u.attempts == t.attempts
    && u.state == if !blamed then t.state else if t.attempts < maxAttempts then Pending else Failed
  }

  /** Attribution over the record: exactly the blamed tasks are reopened, or left failed once their attempts are used
      up, and the reports name them. */
  lemma AttributionBlames(ts: seq<Task>, gates: seq<Gate>, rows: seq<Evidence>, required: Option<set<string>>,
                          maxAttempts: int)
    ensures var a := AttributeRows(ts, gates, rows, required, maxAttempts);
            && |a.tasks| == |ts|
            && (forall i :: 0 <= i < |ts| ==>
                  Answered(ts[i], a.tasks[i], Blamed(ts, gates, rows, required, i), maxAttempts))
            && (forall x :: x in a.reopened <==> NamesBlamed(ts, gates, rows, required, maxAttempts, true, x))
            && (forall x :: x in a.escalated <==> NamesBlamed(ts, gates, rows, required, maxAttempts, false, x))
  {
    var a, hit := AttributeRows(ts, gates, rows, required, maxAttempts), Implicated(ts, gates, rows, required);
    AttributionExact(ts, gates, rows, required, maxAttempts);
    forall i | 0 <= i < |ts|
      ensures Answered(ts[i], a.tasks[i], Blamed(ts, gates, rows, required, i), maxAttempts)
      ensures i in hit <==> Blamed(ts, gates, rows, required, i)
    {
      HitIsBlamed(ts, gates, rows, required, i);
      assert ReflectsAt(ts[i], a.tasks[i], i in hit, maxAttempts);
    }
  }

  /** x is the id of a blamed task with, or without, an attempt left. */
  ghost predicate NamesBlamed(ts: seq<Task>, gates: seq<Gate>, rows: seq<Evidence>, required: Option<set<string>>,
                              maxAttempts: int, left: bool, x: string) {
    exists i :: 0 <= i < |ts| && Blamed(ts, gates, rows, required, i) && ts[i].id == x
                && (ts[i].attempts < maxAttempts) == left
  }

  // ---- what nobody can be blamed for ----

  /** A red row nobody answers for: x is its gate when the design does not declare it or names nobody, and the gate
      with the component when no task carries that. */
  ghost predicate Orphan(ts: seq<Task>, gates: seq<Gate>, row: Evidence, required: Option<set<string>>, x: string) {
    Red(row, required) &&
    (|| (x == row.gateId && Undeclared(gates, row.gateId))
     || exists k: nat :: Declares(gates, row.gateId, k) && OrphanOf(ts, gates[k], x))
  }

  ghost predicate OrphanOf(ts: seq<Task>, gate: Gate, x: string) {
    || (x == gate.id && gate.attributedTo == [])
    || exists c :: c in gate.attributedTo && Uncarried(ts, c) && x == gate.id + "->" + c
  }

  lemma {:induction false} TargetsReportOrphans(ts: seq<Task>, a: Attribution, item: Evidence, targets: seq<string>,
                                                maxAttempts: int, x: string)
    requires SameComponents(ts, a.tasks)
    ensures var b := AttributeTargets(a, item, targets, maxAttempts);
            && SameComponents(ts, b.tasks)
            && (x in b.unattributed <==>
                  x in a.unattributed || exists c :: c in targets && Uncarried(ts, c) && x == item.gateId + "->" + c)
    decreases |targets|
  {
    if targets != [] {
      var n := |targets| - 1;
      var last := targets[n];
      assert targets == targets[..n] + [last];
      TargetsReportOrphans(ts, a, item, targets[..n], maxAttempts, x);
      var b := AttributeTargets(a, item, targets[..n], maxAttempts);
      CarriedIsFound(ts, last, 0);
      SameOwner(ts, b.tasks, last);
    }
  }

  lemma RowReportsOrphans(ts: seq<Task>, a: Attribution, gates: seq<Gate>, row: Evidence,
                          required: Option<set<string>>, maxAttempts: int, x: string)
    requires SameComponents(ts, a.tasks)
    ensures var b := AttributeRow(a, gates, row, required, maxAttempts);
            && SameComponents(ts, b.tasks)
            && (x in b.unattributed <==> x in a.unattributed || Orphan(ts, gates, row, required, x))
  {
    FoundIsDeclared(gates, row.gateId);
    var found := FindGate(gates, row.gateId);
    if found.Some? {
      var k: nat :| Declares(gates, row.gateId, k) && gates[k] == found.value;
      TargetsReportOrphans(ts, a, row, found.value.attributedTo, maxAttempts, x);
      forall j: nat | Declares(gates, row.gateId, j) ensures j == k {
        DeclaredOnce(gates, row.gateId, j, k);
      }
    }
  }

  /** Every red row is answered for: what is reported as unattributed is exactly what blames nobody. */
  lemma {:induction false} AttributionReportsOrphans(ts: seq<Task>, gates: seq<Gate>, rows: seq<Evidence>,
                                                     required: Option<set<string>>, maxAttempts: int, x: string)
    ensures var a := AttributeRows(ts, gates, rows, required, maxAttempts);
            && SameComponents(ts, a.tasks)
            && (x in a.unattributed <==> exists r :: 0 <= r < |rows| && Orphan(ts, gates, rows[r], required, x))
    decreases |rows|
  {
    if rows != [] {
      var n := |rows| - 1;
      AttributionReportsOrphans(ts, gates, rows[..n], required, maxAttempts, x);
      RowReportsOrphans(ts, AttributeRows(ts, gates, rows[..n], required, maxAttempts), gates, rows[n], required,
                        maxAttempts, x);
      if r :| 0 <= r < |rows| && Orphan(ts, gates, rows[r], required, x) {
        if r < n { assert rows[..n][r] == rows[r]; }
      }
      if r :| 0 <= r < n && Orphan(ts, gates, rows[..n][r], required, x) { assert rows[r] == rows[..n][r]; }
    }
  }

  /** No red row goes without an answer. */
  lemma RedIsAnswered(ts: seq<Task>, gates: seq<Gate>, row: Evidence, required: Option<set<string>>)
    requires Red(row, required)
    ensures (exists i :: Blames(ts, gates, row, required, i)) || exists x :: Orphan(ts, gates, row, required, x)
  {
    FoundIsDeclared(gates, row.gateId);
    if FindGate(gates, row.gateId).None? {
      assert Orphan(ts, gates, row, required, row.gateId);
    } else {
      var k: nat :| Declares(gates, row.gateId, k);
      if gates[k].attributedTo == [] {
        assert OrphanOf(ts, gates[k], row.gateId);
        assert Orphan(ts, gates, row, required, row.gateId);
      } else {
        var c := gates[k].attributedTo[0];
        var i := FindComponent(ts, c);
        CarriedIsFound(ts, c, i);
        if i < |ts| {
          assert Blames(ts, gates, row, required, i);
        } else {
          assert OrphanOf(ts, gates[k], gates[k].id + "->" + c);
          assert Orphan(ts, gates, row, required, gates[k].id + "->" + c);
        }
      }
    }
  }

  // ---- the brief of the next attempt ----

  function RowsFor(evidence: seq<Evidence>, gateId: string): seq<Evidence> {
    Filter(evidence, (e: Evidence) => e.gateId == gateId)
  }

  /** A blamed task carries the row that blames it, and no older row of that gate; its sandbox is gone. */
  ghost predicate Briefed(t: Task, u: Task, row: Evidence, blamed: bool) {
    if blamed then !u.sandbox && RowsFor(u.evidence, row.gateId) == [row] && OtherRowsStay(t, u, row.gateId)
    else u.sandbox == t.sandbox && u.evidence == t.evidence
  }

  ghost predicate OtherRowsStay(t: Task, u: Task, gateId: string) {
    forall h :: h != gateId ==> RowsFor(u.evidence, h) == RowsFor(t.evidence, h)
  }

  lemma {:induction false} DropRowsMeans(rows: seq<Evidence>, gateId: string, h: string)
    ensures RowsFor(DropRows(rows, gateId), h) == if h == gateId then [] else RowsFor(rows, h)
  {
    if rows != [] {
      DropRowsMeans(rows[1..], gateId, h);
      if rows[0].gateId != gateId {
        var rest := DropRows(rows[1..], gateId);
        assert ([rows[0]] + rest)[1..] == rest;
      } else {
        assert [] + DropRows(rows[1..], gateId) == DropRows(rows[1..], gateId);
      }
    }
  }

  lemma {:induction false} RowsForSnoc(rows: seq<Evidence>, row: Evidence, h: string)
    ensures RowsFor(rows + [row], h) == RowsFor(rows, h) + if row.gateId == h then [row] else []
  {
    if rows == [] {
      assert [row][1..] == [];
    } else {
      assert (rows + [row])[1..] == rows[1..] + [row];
      RowsForSnoc(rows[1..], row, h);
    }
  }

  lemma ImplicateBriefs(t: Task, row: Evidence, maxAttempts: int)
    ensures Briefed(t, Implicate(t, row, maxAttempts), row, true)
  {
    var kept := DropRows(t.evidence, row.gateId);
    forall h ensures RowsFor(kept + [row], h) == if h == row.gateId then [row] else RowsFor(t.evidence, h) {
      DropRowsMeans(t.evidence, row.gateId, h);
      RowsForSnoc(kept, row, h);
    }
  }

  lemma BriefedTwice(t: Task, u: Task, v: Task, row: Evidence, first: bool, second: bool)
    requires Briefed(t, u, row, first) && Briefed(u, v, row, second)
    ensures Briefed(t, v, row, first || second)
  {
    assert second ==> OtherRowsStay(u, v, row.gateId);
    assert first ==> OtherRowsStay(t, u, row.gateId);
  }

  lemma TargetBriefs(ts: seq<Task>, a: Attribution, item: Evidence, component: string, maxAttempts: int, i: nat)
    requires SameComponents(ts, a.tasks) && i < |ts|
    ensures var b := AttributeTarget(a, item, component, maxAttempts);
            SameComponents(ts, b.tasks) && Briefed(a.tasks[i], b.tasks[i], item, Carries(ts, component, i))
  {
    CarriedIsFound(ts, component, i);
    SameOwner(ts, a.tasks, component);
    ImplicateBriefs(a.tasks[i], item, maxAttempts);
  }

  lemma {:induction false} TargetsBrief(ts: seq<Task>, a: Attribution, item: Evidence, targets: seq<string>,
                                        maxAttempts: int, i: nat)
    requires SameComponents(ts, a.tasks) && i < |ts|
    ensures var b := AttributeTargets(a, item, targets, maxAttempts);
            && SameComponents(ts, b.tasks)
            && Briefed(a.tasks[i], b.tasks[i], item, CarriesOne(ts, targets, i))
    decreases |targets|
  {
    if targets != [] {
      var n := |targets| - 1;
      var b, c := AttributeTargets(a, item, targets[..n], maxAttempts), AttributeTargets(a, item, targets, maxAttempts);
      TargetsBrief(ts, a, item, targets[..n], maxAttempts, i);
      TargetBriefs(ts, b, item, targets[n], maxAttempts, i);
      BriefedTwice(a.tasks[i], b.tasks[i], c.tasks[i], item, CarriesOne(ts, targets[..n], i),
                   Carries(ts, targets[n], i));
      assert targets == targets[..n] + [targets[n]];
    }
  }

  ghost predicate CarriesOne(ts: seq<Task>, components: seq<string>, i: nat) {
    exists c :: c in components && Carries(ts, c, i)
  }

  lemma RowBriefs(ts: seq<Task>, a: Attribution, gates: seq<Gate>, row: Evidence, required: Option<set<string>>,
                  maxAttempts: int, i: nat)
    requires SameComponents(ts, a.tasks) && i < |ts|
    ensures var b := AttributeRow(a, gates, row, required, maxAttempts);
            && SameComponents(ts, b.tasks)
            && Briefed(a.tasks[i], b.tasks[i], row, Blames(ts, gates, row, required, i))
  {
    FoundIsDeclared(gates, row.gateId);
    var found := FindGate(gates, row.gateId);
    if found.Some? {
      var k: nat :| Declares(gates, row.gateId, k) && gates[k] == found.value;
      TargetsBrief(ts, a, row, found.value.attributedTo, maxAttempts, i);
      forall j: nat | Declares(gates, row.gateId, j) ensures j == k {
        DeclaredOnce(gates, row.gateId, j, k);
      }
    }
  }

  /** Of the rows that blame task i, the one at position r is the last of gate h. */
  ghost predicate LastBlaming(ts: seq<Task>, gates: seq<Gate>, rows: seq<Evidence>, required: Option<set<string>>,
                              i: nat, h: string, r: nat) {
    && r < |rows| && Blames(ts, gates, rows[r], required, i) && rows[r].gateId == h
    && forall m :: r < m < |rows| && rows[m].gateId == h ==> !Blames(ts, gates, rows[m], required, i)
  }

  /** Of each gate that blames the task its last such row and nothing older, and the rows of other gates as they
      were. */
  ghost predicate BriefIs(ts: seq<Task>, gates: seq<Gate>, rows: seq<Evidence>, required: Option<set<string>>, i: nat,
                          h: string, u: Task)
    requires i < |ts|
  {
    && (forall r: nat :: LastBlaming(ts, gates, rows, required, i, h, r) ==> RowsFor(u.evidence, h) == [rows[r]])
    && ((forall r: nat :: !LastBlaming(ts, gates, rows, required, i, h, r)) ==>
          RowsFor(u.evidence, h) == RowsFor(ts[i].evidence, h))
  }

  lemma BriefNext(ts: seq<Task>, gates: seq<Gate>, rows: seq<Evidence>, required: Option<set<string>>, i: nat,
                  h: string, t: Task, u: Task)
    requires rows != [] && i < |ts| && BriefIs(ts, gates, rows[..|rows| - 1], required, i, h, t)
    requires var row := rows[|rows| - 1]; Briefed(t, u, row, Blames(ts, gates, row, required, i))
    ensures BriefIs(ts, gates, rows, required, i, h, u)
  {
    var n := |rows| - 1;
    var blaming := rows[n].gateId == h && Blames(ts, gates, rows[n], required, i);
    LastBlamingSnoc(ts, gates, rows, required, i, h);
    if blaming {
      assert LastBlaming(ts, gates, rows, required, i, h, n);
    } else {
      assert RowsFor(u.evidence, h) == RowsFor(t.evidence, h);
      assert forall r: nat :: LastBlaming(ts, gates, rows, required, i, h, r) ==>
          LastBlaming(ts, gates, rows[..n], required, i, h, r) && rows[..n][r] == rows[r];
    }
  }

  /** The brief for the next attempt of a blamed task, which gets a new sandbox. */
  lemma {:induction false} AttributionBriefs(ts: seq<Task>, gates: seq<Gate>, rows: seq<Evidence>,
                                             required: Option<set<string>>, maxAttempts: int, i: nat, h: string)
    requires i < |ts|
    ensures var a := AttributeRows(ts, gates, rows, required, maxAttempts);
            && SameComponents(ts, a.tasks) && BriefIs(ts, gates, rows, required, i, h, a.tasks[i])
            && a.tasks[i].sandbox == (ts[i].sandbox && !Blamed(ts, gates, rows, required, i))
    decreases |rows|
  {
    if rows != [] {
      var n := |rows| - 1;
      var a, b := AttributeRows(ts, gates, rows[..n], required, maxAttempts),
          AttributeRows(ts, gates, rows, required, maxAttempts);
      AttributionBriefs(ts, gates, rows[..n], required, maxAttempts, i, h);
      RowBriefs(ts, a, gates, rows[n], required, maxAttempts, i);
      BlamedSnoc(ts, gates, rows, required, i);
      BriefNext(ts, gates, rows, required, i, h, a.tasks[i], b.tasks[i]);
    }
  }

  lemma BlamedSnoc(ts: seq<Task>, gates: seq<Gate>, rows: seq<Evidence>, required: Option<set<string>>, i: nat)
    requires rows != []
    ensures var n := |rows| - 1;
            Blamed(ts, gates, rows, required, i) <==>
              Blamed(ts, gates, rows[..n], required, i) || Blames(ts, gates, rows[n], required, i)
  {
    var n := |rows| - 1;
    if r :| 0 <= r < |rows| && Blames(ts, gates, rows[r], required, i) {
      if r < n { assert rows[..n][r] == rows[r]; }
    }
    if r :| 0 <= r < n && Blames(ts, gates, rows[..n][r], required, i) { assert rows[r] == rows[..n][r]; }
  }

  lemma LastBlamingSnoc(ts: seq<Task>, gates: seq<Gate>, rows: seq<Evidence>, required: Option<set<string>>, i: nat,
                        h: string)
    requires rows != []
    ensures var n := |rows| - 1;
            forall r: nat :: LastBlaming(ts, gates, rows, required, i, h, r) <==>
              if rows[n].gateId == h && Blames(ts, gates, rows[n], required, i) then r == n
              else LastBlaming(ts, gates, rows[..n], required, i, h, r)
  {
    var n := |rows| - 1;
    assert forall m :: 0 <= m < n ==> rows[..n][m] == rows[m];
  }
}
