/** The records that pass between planning, scheduling and verification (minifleet/model.py). */
module Model {
  import opened Text
  import opened Dictionary
  import opened TaskGraph

  datatype TaskState = Pending | Ready | Dispatched | Submitted | Verified | Failed | Merged

  /** What a gate reported. */
  datatype Status = Pass | Fail | Error | Skip

  datatype Evidence = Evidence(gateId: string, status: Status, taskId: string)

  datatype GateKind = Command | Files | Json | Budget | UnknownKind

  datatype GateScope = System | PerTask | OtherScope

  datatype Gate = Gate(
    id: string, kind: GateKind, scope: GateScope, required: bool,
    metric: string, op: string, threshold: real, attributedTo: seq<string>)

  datatype Criterion = Criterion(id: string, gates: seq<string>)

  datatype Component = Component(
    id: string, owns: seq<string>, dependsOn: seq<string>,
    gateIds: seq<string>, contractIds: seq<string>, acceptanceIds: seq<string>)

  datatype Task = Task(
    id: string, componentId: string, owns: seq<string>, dependsOn: seq<string>,
    gateIds: seq<string>, contractIds: seq<string>, acceptanceIds: seq<string>,
    state: TaskState, attempts: nat, branch: string, sandbox: bool,
    submittedFiles: seq<string>, evidence: seq<Evidence>)

  /** A pending task with a scope of its own and nothing else to it. */
  function Bare(id: string, dependsOn: seq<string>): Task {
    Task(id, id, [id], dependsOn, [], [], [], Pending, 0, id, false, [], [])
  }

  ghost predicate UniqueIds(tasks: seq<Task>) {
    forall i, j :: 0 <= i < j < |tasks| ==> tasks[i].id != tasks[j].id
  }

  function Ids(tasks: seq<Task>): set<string> {
    set t | t in tasks :: t.id
  }

  /** The position of the first task that carries an id; |tasks| when none does. */
  function Find(tasks: seq<Task>, id: string): (i: nat)
    ensures i <= |tasks|
    ensures i < |tasks| ==> tasks[i].id == id
    ensures forall j :: 0 <= j < i ==> tasks[j].id != id
  {
    FirstWhere(tasks, (t: Task) => t.id == id)
  }

  lemma FindUnique(tasks: seq<Task>, i: nat)
    requires UniqueIds(tasks) && i < |tasks|
    ensures Find(tasks, tasks[i].id) == i
  {
  }

  /** The dictionary the graph algorithms build first: id to dependencies, the last record of an id winning. */
  function DependencyDict(tasks: seq<Task>): (d: Dict<string, seq<string>>)
    ensures d.Valid()
  {
    if tasks == [] then Empty()
    else
      var t := tasks[|tasks| - 1];
      DependencyDict(tasks[..|tasks| - 1]).Put(t.id, t.dependsOn)
  }

  function GraphOf(tasks: seq<Task>): Graph<string> {
    DependencyDict(tasks).table
  }

  lemma {:induction false} GraphKeys(tasks: seq<Task>, id: string)
    ensures id in GraphOf(tasks) <==> exists i :: 0 <= i < |tasks| && tasks[i].id == id
    ensures id in GraphOf(tasks) ==>
              exists i :: 0 <= i < |tasks| && tasks[i].id == id && GraphOf(tasks)[id] == tasks[i].dependsOn
  {
    if tasks != [] {
      var n := |tasks| - 1;
      var rest := tasks[..n];
      GraphKeys(rest, id);
      if tasks[n].id == id {
        assert GraphOf(tasks)[id] == tasks[n].dependsOn;
      } else if id in GraphOf(rest) {
        var i :| 0 <= i < |rest| && rest[i].id == id && GraphOf(rest)[id] == rest[i].dependsOn;
        assert tasks[i].id == id && GraphOf(tasks)[id] == tasks[i].dependsOn;
      } else {
        forall i | 0 <= i < |tasks| ensures tasks[i].id != id {
          if i < n { assert rest[i].id != id; }
        }
      }
    }
  }

  /** Of several records with one id the last one wins. */
  lemma {:induction false} LastRecordWins(tasks: seq<Task>, i: nat)
    requires i < |tasks| && forall j :: i < j < |tasks| ==> tasks[j].id != tasks[i].id
    ensures tasks[i].id in GraphOf(tasks) && GraphOf(tasks)[tasks[i].id] == tasks[i].dependsOn
  {
    var n := |tasks| - 1;
    if i < n { LastRecordWins(tasks[..n], i); }
  }

  lemma GraphLookup(tasks: seq<Task>, i: nat)
    requires UniqueIds(tasks) && i < |tasks|
    ensures tasks[i].id in GraphOf(tasks) && GraphOf(tasks)[tasks[i].id] == tasks[i].dependsOn
  {
    GraphKeys(tasks, tasks[i].id);
  }

  method BuildDependencyDict(tasks: seq<Task>) returns (d: Dict<string, seq<string>>)
    ensures d == DependencyDict(tasks)
  {
    d := Empty();
    for i := 0 to |tasks|
      invariant d == DependencyDict(tasks[..i])
    {
      assert tasks[..i + 1][..i] == tasks[..i];
      d := d.Put(tasks[i].id, tasks[i].dependsOn);
    }
    assert tasks[..|tasks|] == tasks;
  }
}
