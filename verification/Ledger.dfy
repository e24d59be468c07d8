/** From criteria to the evidence that proves them (minifleet/ledger.py, traceability). */
module Ledger {
  import opened Text
  import opened Model
  import opened Gates

  datatype Standing = Unproven | Proven | Refuted | Incomplete

  /** One line of the report: the gates of a criterion with their latest status, and what follows. */
  datatype Row = Row(criterion: string, owners: seq<string>, gates: seq<(string, GateStanding)>, standing: Standing)

  datatype GateStanding = NoEvidence | Observed(status: Status)

  function StandingOf(gate: string, byGate: map<string, Status>): GateStanding {
    if gate in byGate then Observed(byGate[gate]) else NoEvidence
  }

  function GateLines(gates: seq<string>, byGate: map<string, Status>): (r: seq<(string, GateStanding)>)
    ensures |r| == |gates| && forall i :: 0 <= i < |gates| ==> r[i] == (gates[i], StandingOf(gates[i], byGate))
  {
    if gates == [] then [] else [(gates[0], StandingOf(gates[0], byGate))] + GateLines(gates[1..], byGate)
  }

  function Overall(lines: seq<(string, GateStanding)>): Standing {
    if lines == [] then Unproven
    else if forall i :: 0 <= i < |lines| ==> lines[i].1 == Observed(Pass) then Proven
    else if exists i :: 0 <= i < |lines| && lines[i].1 == Observed(Fail) then Refuted
    else Incomplete
  }

  function Owners(tasks: seq<Task>, criterion: string): seq<string> {
    if tasks == [] then []
    else (if criterion in tasks[0].acceptanceIds then [tasks[0].id] else []) + Owners(tasks[1..], criterion)
  }

  function RowFor(c: Criterion, tasks: seq<Task>, byGate: map<string, Status>): Row {
    var lines := GateLines(c.gates, byGate);
    Row(c.id, Owners(tasks, c.id), lines, Overall(lines))
  }

  method Traceability(criteria: seq<Criterion>, tasks: seq<Task>, evidence: seq<Evidence>) returns (rows: seq<Row>)
    ensures |rows| == |criteria|
    ensures forall i :: 0 <= i < |criteria| ==> rows[i] == RowFor(criteria[i], tasks, Latest(evidence))
  {
    var byGate: map<string, Status> := map[];
    for i := 0 to |evidence|
      invariant byGate == Latest(evidence[..i])
    {
      assert evidence[..i + 1][..i] == evidence[..i];
      byGate := byGate[evidence[i].gateId := evidence[i].status];
    }
    assert evidence[..|evidence|] == evidence;
    rows := [];
    for i := 0 to |criteria|
      invariant |rows| == i
      invariant forall j :: 0 <= j < i ==> rows[j] == RowFor(criteria[j], tasks, byGate)
    {
      rows := rows + [RowFor(criteria[i], tasks, byGate)];
    }
  }

  /** A criterion is reported verified exactly when it names gates and the last evidence of each passed. */
  lemma ProvenIff(c: Criterion, tasks: seq<Task>, byGate: map<string, Status>)
    ensures RowFor(c, tasks, byGate).standing == Proven
       <==> c.gates != [] && forall g :: g in c.gates ==> g in byGate && byGate[g] == Pass
  {
    var lines := GateLines(c.gates, byGate);
    if forall g :: g in c.gates ==> g in byGate && byGate[g] == Pass {
      forall i | 0 <= i < |lines| ensures lines[i].1 == Observed(Pass) {
        assert c.gates[i] in c.gates;
      }
    }
    if forall i :: 0 <= i < |lines| ==> lines[i].1 == Observed(Pass) {
      forall g | g in c.gates ensures g in byGate && byGate[g] == Pass {
        var i :| 0 <= i < |c.gates| && c.gates[i] == g;
        assert lines[i].1 == Observed(Pass);
      }
    }
  }

  /** After a passing verification, criteria over required system gates are verified, whatever failed before. */
  lemma PassProvesCriteria(earlier: seq<Evidence>, latest: seq<Evidence>, required: set<string>, c: Criterion,
                           tasks: seq<Task>)
    requires Judge(latest, required) == AllGreen
    requires c.gates != [] && Elements(c.gates) <= required
    ensures RowFor(c, tasks, Latest(earlier + latest)).standing == Proven
  {
    JudgePassesIff(latest, required);
    LatestOfConcat(earlier, latest);
    forall g | g in c.gates ensures g in Latest(earlier + latest) && Latest(earlier + latest)[g] == Pass {
      assert g in Elements(c.gates);
    }
    ProvenIff(c, tasks, Latest(earlier + latest));
  }
}
