/** What the traceability report says of a criterion, read off the evidence log (minifleet/ledger.py, traceability). */
module LedgerMeaning {
  import opened Filters
  import opened Gates
  import opened Ledger
  import opened Model
  import opened VerifyMeaning

  /** The latest row of gate id in the log has this status. */
  ghost predicate Stands(evidence: seq<Evidence>, id: string, status: Status) {
    exists k: nat :: LastRow(evidence, k) && evidence[k].gateId == id && evidence[k].status == status
  }

  lemma LatestStands(evidence: seq<Evidence>, id: string)
    ensures NeverRan(evidence, id) <==> id !in Latest(evidence)
    ensures forall status :: Stands(evidence, id, status) <==> id in Latest(evidence) && Latest(evidence)[id] == status
  {
    LatestMembers(evidence, id);
    HasLastRow(evidence, id);
    forall k: nat | LastRow(evidence, k) && evidence[k].gateId == id
      ensures id in Latest(evidence) && Latest(evidence)[id] == evidence[k].status
    {
      LatestIsLastRow(evidence, id, k);
    }
  }

  function Claims(criterion: string): Task -> bool {
    (t: Task) => criterion in t.acceptanceIds
  }

  function TaskId(): Task -> string {
    (t: Task) => t.id
  }

  lemma {:induction false} OwnersClaim(tasks: seq<Task>, criterion: string)
    ensures |Owners(tasks, criterion)| == |Filter(tasks, Claims(criterion))|
    ensures forall j :: 0 <= j < |Owners(tasks, criterion)| ==>
              Owners(tasks, criterion)[j] == Filter(tasks, Claims(criterion))[j].id
  {
    if tasks != [] { OwnersClaim(tasks[1..], criterion); }
  }

  /** The ids of the tasks that claim the criterion, in the order of the design. */
  ghost predicate NamesOwners(tasks: seq<Task>, criterion: string, owners: seq<string>) {
    exists ks ::
      && Keeping(tasks, Claims(criterion), ks) && |owners| == |ks|
      && forall j :: 0 <= j < |ks| ==> owners[j] == tasks[ks[j]].id
  }

  ghost predicate LineTells(evidence: seq<Evidence>, id: string, line: (string, GateStanding)) {
    line.0 == id && match line.1
                    case NoEvidence => NeverRan(evidence, id)
                    case Observed(status) => Stands(evidence, id, status)
  }

  /** One line for each gate of the criterion. */
  ghost predicate LinesTell(evidence: seq<Evidence>, c: Criterion, row: Row) {
    && |row.gates| == |c.gates|
    && forall j :: 0 <= j < |c.gates| ==> LineTells(evidence, c.gates[j], row.gates[j])
  }

  /** Unproven without gates; verified when the latest row of each gate passed; failed when that of some gate failed;
      otherwise incomplete. */
  ghost predicate StandingTells(evidence: seq<Evidence>, c: Criterion, standing: Standing) {
    standing ==
      if c.gates == [] then Unproven
      else if forall id :: id in c.gates ==> Stands(evidence, id, Pass) then Proven
      else if exists id :: id in c.gates && Stands(evidence, id, Fail) then Refuted
      else Incomplete
  }

  /** What the report says of a criterion: who claims it, what its gates showed last, and where it stands. */
  lemma RowTells(c: Criterion, tasks: seq<Task>, evidence: seq<Evidence>)
    ensures var row := RowFor(c, tasks, Latest(evidence));
            && row.criterion == c.id && NamesOwners(tasks, c.id, row.owners) && LinesTell(evidence, c, row)
            && StandingTells(evidence, c, row.standing)
  {
    var row := RowFor(c, tasks, Latest(evidence));
    var ks := FilterKeeps(tasks, Claims(c.id));
    OwnersClaim(tasks, c.id);
    forall j | 0 <= j < |c.gates| ensures LineTells(evidence, c.gates[j], row.gates[j]) {
      LatestStands(evidence, c.gates[j]);
    }
    StandingIs(c, tasks, evidence);
  }

  lemma StandingIs(c: Criterion, tasks: seq<Task>, evidence: seq<Evidence>)
    ensures StandingTells(evidence, c, RowFor(c, tasks, Latest(evidence)).standing)
  {
    var byGate := Latest(evidence);
    var lines := GateLines(c.gates, byGate);
    forall id
      ensures forall status :: Stands(evidence, id, status) <==> id in byGate && byGate[id] == status
    {
      LatestStands(evidence, id);
    }
    ProvenIff(c, tasks, byGate);
    if id :| id in c.gates && Stands(evidence, id, Fail) {
      var j :| 0 <= j < |c.gates| && c.gates[j] == id;
      assert lines[j].1 == Observed(Fail);
    }
    if j :| 0 <= j < |lines| && lines[j].1 == Observed(Fail) {
      assert c.gates[j] in c.gates && Stands(evidence, c.gates[j], Fail);
    }
  }
}
