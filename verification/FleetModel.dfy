/** One run of the fleet as a value, and what each scheduler operation makes of it (minifleet/scheduler.py). */
module FleetModel {
  import opened Text
  import opened Options
  import opened Dictionary
  import opened Batches
  import opened Scopes
  import opened Ownership
  import opened Gates
  import opened Model

  datatype RunStatus = Planning | Running | Integrating | Verifying | Passed | RunFailed

  /** mergeLog holds the ids of the task.merged events in order; dispatched counts the tasks of all
      tasks.dispatched events. */
  datatype Fleet = Fleet(
    tasks: seq<Task>, gates: seq<Gate>, status: RunStatus, verdict: Verdict, attributed: Verdict,
    evidence: seq<Evidence>, metrics: Metrics, mergeLog: seq<string>, dispatched: nat)

  // ---- refresh ----

  function MergedIds(tasks: seq<Task>): set<string> {
    set t | t in tasks && t.state == Merged :: t.id
  }

  function Promote(t: Task, merged: set<string>): Task {
    if t.state == Pending && Elements(t.dependsOn) <= merged then t.(state := Ready) else t
  }

  function PromoteAll(tasks: seq<Task>, merged: set<string>): (r: seq<Task>)
    ensures |r| == |tasks| && forall i :: 0 <= i < |tasks| ==> r[i] == Promote(tasks[i], merged)
  {
    if tasks == [] then [] else [Promote(tasks[0], merged)] + PromoteAll(tasks[1..], merged)
  }

  function Refreshed(tasks: seq<Task>): (r: seq<Task>)
    ensures |r| == |tasks| && forall i :: 0 <= i < |tasks| ==> r[i] == Promote(tasks[i], MergedIds(tasks))
  {
    PromoteAll(tasks, MergedIds(tasks))
  }

  // ---- dispatch ----

  function Prepare(t: Task, branchFor: string -> string): Task {
    if t.state == Ready then t.(branch := branchFor(t.id), sandbox := true) else t
  }

  function PrepareAll(tasks: seq<Task>, branchFor: string -> string): (r: seq<Task>)
    ensures |r| == |tasks| && forall i :: 0 <= i < |tasks| ==> r[i] == Prepare(tasks[i], branchFor)
  {
    if tasks == [] then [] else [Prepare(tasks[0], branchFor)] + PrepareAll(tasks[1..], branchFor)
  }

  /** From position i on, the first n ready tasks are handed out. */
  function HandOutFrom(tasks: seq<Task>, i: nat, n: nat): (r: seq<Task>)
    requires i <= |tasks|
    ensures |r| == |tasks| && forall j :: 0 <= j < i ==> r[j] == tasks[j]
    ensures forall j :: 0 <= j < |tasks| ==>
              r[j] == tasks[j] || (tasks[j].state == Ready && r[j] == tasks[j].(state := Dispatched))
    decreases |tasks| - i
  {
    if i == |tasks| then tasks
    else if tasks[i].state == Ready && n > 0 then HandOutFrom(tasks[i := tasks[i].(state := Dispatched)], i + 1, n - 1)
    else HandOutFrom(tasks, i + 1, n)
  }

  function HandOut(tasks: seq<Task>, n: nat): seq<Task> {
    HandOutFrom(tasks, 0, n)
  }

  /** Ids of the first n ready tasks from position i on. */
  function WaveFrom(tasks: seq<Task>, i: nat, n: nat): (ids: seq<string>)
    requires i <= |tasks|
    decreases |tasks| - i
  {
    if i == |tasks| then []
    else if tasks[i].state == Ready && n > 0 then [tasks[i].id] + WaveFrom(tasks, i + 1, n - 1)
    else WaveFrom(tasks, i + 1, n)
  }

  /** How a dispatch is bounded: max_dispatches (0 when absent), and a limit on the wave (0 when absent). */
  datatype DispatchPlan = DispatchPlan(budget: real, limit: nat, branchFor: string -> string)

  predicate BudgetSpent(f: Fleet, p: DispatchPlan) {
    p.budget != 0.0 && f.dispatched as real >= p.budget
  }

  function WaveLimit(f: Fleet, p: DispatchPlan): nat {
    if p.limit != 0 then p.limit else |f.tasks|
  }

  function Prepared(f: Fleet, p: DispatchPlan): seq<Task> {
    PrepareAll(Refreshed(f.tasks), p.branchFor)
  }

  /** The ids a dispatch hands out. */
  function Chosen(f: Fleet, p: DispatchPlan): seq<string> {
    if BudgetSpent(f, p) then [] else WaveFrom(Prepared(f, p), 0, WaveLimit(f, p))
  }

  function Dispatch(f: Fleet, p: DispatchPlan): Fleet {
    if BudgetSpent(f, p) then f
    else f.(tasks := HandOut(Prepared(f, p), WaveLimit(f, p)), dispatched := f.dispatched + |Chosen(f, p)|)
  }

  // ---- ingest ----

  function TaskGates(gates: seq<Gate>, t: Task): seq<Gate> {
    if gates == [] then []
    else (if gates[0].id in t.gateIds && gates[0].scope == PerTask then [gates[0]] else []) + TaskGates(gates[1..], t)
  }

  predicate AllPass(evidence: seq<Evidence>) {
    forall e :: e in evidence ==> e.status == Pass
  }

  predicate Inside(glob: Glob, files: seq<string>, owns: seq<string>) {
    forall p :: p in files ==> Within(glob, p, owns)
  }

  /** What a worker handed in: the files it changed, and what its task gates will observe. */
  datatype Submission = Submission(files: seq<string>, observe: nat -> Observation)

  function IngestAt(glob: Glob, f: Fleet, i: nat, s: Submission): Fleet
    requires i < |f.tasks|
  {
    var t := f.tasks[i].(attempts := f.tasks[i].attempts + 1, sandbox := true);
    if !Inside(glob, s.files, t.owns) then
      f.(tasks := f.tasks[i := t.(state := Failed)])
    else
      var gs := TaskGates(f.gates, t);
      var evidence := EvidenceOf(gs, f.metrics, s.observe, t.id);
      f.(tasks := f.tasks[i := t.(submittedFiles := Sort(s.files), evidence := evidence,
                                  state := if AllPass(evidence) then Verified else Failed)],
         evidence := f.evidence + evidence,
         metrics := StoreAt(gs, f.metrics, s.observe, |gs|))
  }

  /** An unknown id is a KeyError: nothing changes. */
  function Ingest(glob: Glob, f: Fleet, id: string, s: Submission): Fleet {
    var i := Find(f.tasks, id);
    if i == |f.tasks| then f else IngestAt(glob, f, i, s)
  }

  /** A dispatch that was not submitted: the driver marks the task failed. */
  function GiveUp(f: Fleet, id: string): Fleet {
    var i := Find(f.tasks, id);
    if i == |f.tasks| then f else f.(tasks := f.tasks[i := f.tasks[i].(state := Failed)])
  }

  // ---- integrate ----

  /** What git will say: the files each verified task changed, whether the checkout works, and which merges do. */
  datatype GitWorld = GitWorld(diff: string -> seq<string>, checkoutOk: bool, mergeOk: string -> bool)

  function VerifiedBranches(tasks: seq<Task>, w: GitWorld): (d: Branches)
    ensures d.Valid()
  {
    if tasks == [] then Empty()
    else
      var t, d := tasks[|tasks| - 1], VerifiedBranches(tasks[..|tasks| - 1], w);
      if t.state == Verified then d.Put(t.branch, w.diff(t.id)) else d
  }

  datatype Merging = Merging(tasks: seq<Task>, log: seq<string>, ok: bool)

  /** Merge the verified tasks of an order, stopping at the first merge that fails. */
  function MergeAlong(tasks: seq<Task>, log: seq<string>, order: seq<string>, w: GitWorld): (m: Merging)
    ensures |m.tasks| == |tasks|
    decreases |order|
  {
    if order == [] then Merging(tasks, log, true)
    else
      var i := Find(tasks, order[0]);
      if i == |tasks| || tasks[i].state != Verified then MergeAlong(tasks, log, order[1..], w)
      else if !w.mergeOk(order[0]) then Merging(tasks, log, false)
      else MergeAlong(tasks[i := tasks[i].(state := Merged)], log + [order[0]], order[1..], w)
  }

  function Flatten(waves: seq<seq<string>>): seq<string> {
    if waves == [] then [] else waves[0] + Flatten(waves[1..])
  }

  datatype IntegrationResult = Integrated | Conflicting | Broken

  function IntegrationOutcome(f: Fleet, w: GitWorld): (IntegrationResult, Merging) {
    if !IsDisjoint(VerifiedBranches(f.tasks, w)) then (Conflicting, Merging(f.tasks, f.mergeLog, false))
    else
      var m := MergeAttempt(f.tasks, f.mergeLog, w);
      (if m.ok then Integrated else Broken, m)
  }

  /** Check the integration branch out and merge along the waves; nothing is merged without both. */
  function MergeAttempt(tasks: seq<Task>, log: seq<string>, w: GitWorld): Merging {
    var plan := PlanOf(DependencyDict(tasks));
    if !w.checkoutOk || plan.NotADag? then Merging(tasks, log, false)
    else MergeAlong(tasks, log, Flatten(plan.batches), w)
  }

  /** The disjointness test, on file lists. */
  predicate IsDisjoint(d: Branches)
  {
    forall a, b :: a in d.table && b in d.table && a != b ==> forall p :: p in d.table[a] ==> p !in d.table[b]
  }

  function Integrate(f: Fleet, w: GitWorld): Fleet {
    var (result, m) := IntegrationOutcome(f, w);
    match result
    case Conflicting => f.(status := Integrating, verdict := OwnershipConflict)
    case Broken => f.(status := RunFailed, verdict := IntegrationError, tasks := m.tasks, mergeLog := m.log)
    case Integrated => f.(status := Integrating, tasks := Refreshed(m.tasks), mergeLog := m.log)
  }

  // ---- attribution ----

  /** The attempt budget (minifleet/repair.py, build_repair_packet). */
  predicate Escalates(t: Task, maxAttempts: int) {
    t.attempts >= maxAttempts
  }

  datatype Attribution = Attribution(
    tasks: seq<Task>, reopened: set<string>, escalated: set<string>, unattributed: set<string>)

  function FindComponent(tasks: seq<Task>, component: string): (i: nat)
    ensures i <= |tasks|
    ensures i < |tasks| ==> tasks[i].componentId == component
    ensures forall j :: 0 <= j < i ==> tasks[j].componentId != component
  {
    FirstWhere(tasks, (t: Task) => t.componentId == component)
  }

  function FindGate(gates: seq<Gate>, id: string): Option<Gate> {
    if gates == [] then None else if gates[0].id == id then Some(gates[0]) else FindGate(gates[1..], id)
  }

  function DropRows(rows: seq<Evidence>, gateId: string): seq<Evidence> {
    if rows == [] then []
    else (if rows[0].gateId == gateId then [] else [rows[0]]) + DropRows(rows[1..], gateId)
  }

  /** Reopen an implicated task, or leave it failed once its attempts are used up. */
  function Implicate(t: Task, item: Evidence, maxAttempts: int): Task {
    t.(evidence := DropRows(t.evidence, item.gateId) + [item], sandbox := false,
       state := if Escalates(t, maxAttempts) then Failed else Pending)
  }

  function AttributeTarget(a: Attribution, item: Evidence, component: string, maxAttempts: int): Attribution {
    var i := FindComponent(a.tasks, component);
    if i == |a.tasks| then a.(unattributed := a.unattributed + {item.gateId + "->" + component})
    else
      var t := a.tasks[i];
      var b := a.(tasks := a.tasks[i := Implicate(t, item, maxAttempts)]);
      if Escalates(t, maxAttempts) then b.(escalated := b.escalated + {t.id})
      else b.(reopened := b.reopened + {t.id})
  }

  function AttributeTargets(a: Attribution, item: Evidence, targets: seq<string>, maxAttempts: int): Attribution
    decreases |targets|
  {
    if targets == [] then a
    else AttributeTarget(AttributeTargets(a, item, targets[..|targets| - 1], maxAttempts), item,
        targets[|targets| - 1], maxAttempts)
  }

  /** Whether a row is looked at: it failed, and it is required when a set of required gates is given. */
  predicate Considered(item: Evidence, required: Option<set<string>>) {
    item.status != Pass && (required.Some? ==> item.gateId in required.value)
  }

  function AttributeRow(a: Attribution, gates: seq<Gate>, item: Evidence, required: Option<set<string>>,
                        maxAttempts: int): Attribution {
    if !Considered(item, required) then a
    else
      match FindGate(gates, item.gateId)
      case None => a.(unattributed := a.unattributed + {item.gateId})
      case Some(g) =>
        if g.attributedTo == [] then a.(unattributed := a.unattributed + {item.gateId})
        else AttributeTargets(a, item, g.attributedTo, maxAttempts)
  }

  /** All rows in order; the refresh that follows is not part of this. */
  function AttributeRows(tasks: seq<Task>, gates: seq<Gate>, rows: seq<Evidence>, required: Option<set<string>>,
                         maxAttempts: int): Attribution
    decreases |rows|
  {
    if rows == [] then Attribution(tasks, {}, {}, {})
    else
      AttributeRow(AttributeRows(tasks, gates, rows[..|rows| - 1], required, maxAttempts),
                   gates, rows[|rows| - 1], required, maxAttempts)
  }

  // ---- verify ----

  function SystemGates(gates: seq<Gate>): seq<Gate> {
    if gates == [] then []
    else (if gates[0].scope == System then [gates[0]] else []) + SystemGates(gates[1..])
  }

  function Verify(f: Fleet, observe: nat -> Observation, maxAttempts: int): Fleet {
    var system := BudgetsLast(SystemGates(f.gates));
    var evidence := EvidenceOf(system, f.metrics, observe, "");
    var required := RequiredIds(SystemGates(f.gates));
    var verdict := Judge(evidence, required);
    var g := f.(evidence := f.evidence + evidence, metrics := StoreAt(system, f.metrics, observe, |system|),
        verdict := verdict);
    if verdict == AllGreen then g.(status := Passed)
    else
      g.(status := RunFailed, attributed := verdict,
         tasks := Refreshed(AttributeRows(f.tasks, f.gates, evidence, Some(required), maxAttempts).tasks))
  }

  // ---- repair ----

  function Reopen(t: Task, maxAttempts: int): Task {
    if t.state != Failed then t
    else t.(sandbox := false, state := if Escalates(t, maxAttempts) then Failed else Pending)
  }

  function ReopenAll(tasks: seq<Task>, maxAttempts: int): (r: seq<Task>)
    ensures |r| == |tasks| && forall i :: 0 <= i < |tasks| ==> r[i] == Reopen(tasks[i], maxAttempts)
  {
    if tasks == [] then [] else [Reopen(tasks[0], maxAttempts)] + ReopenAll(tasks[1..], maxAttempts)
  }

  /** The latest row of each gate, in the order in which the gates first appeared. */
  function LatestRows(evidence: seq<Evidence>): (d: Dict<string, Evidence>)
    ensures d.Valid()
  {
    if evidence == [] then Empty()
    else
      var e := evidence[|evidence| - 1];
      LatestRows(evidence[..|evidence| - 1]).Put(e.gateId, e)
  }

  function FailingRows(d: Dict<string, Evidence>, keys: seq<string>): seq<Evidence> {
    if keys == [] then []
    else
      (if keys[0] in d.table && d.table[keys[0]].status != Pass then [d.table[keys[0]]] else [])
      + FailingRows(d, keys[1..])
  }

  predicate NeedsAttribution(f: Fleet) {
    f.verdict != NoVerdict && f.verdict != AllGreen && f.verdict != f.attributed
  }

  function FailingNow(f: Fleet): seq<Evidence> {
    if NeedsAttribution(f) then FailingRows(LatestRows(f.evidence), LatestRows(f.evidence).keys) else []
  }

  /** The tasks after both passes of repair, before the final refresh. */
  function Repaired(f: Fleet, maxAttempts: int): Attribution {
    AttributeRows(ReopenAll(f.tasks, maxAttempts), f.gates, FailingNow(f), None, maxAttempts)
  }

  function RepairFailed(f: Fleet, maxAttempts: int): Fleet {
    f.(tasks := Refreshed(Repaired(f, maxAttempts).tasks))
  }
}
