/** What handing in work does to the run, said with the fields of the record (minifleet/scheduler.py, ingest). */
module IngestMeaning {
  import opened Text
  import opened Filters
  import opened Scopes
  import opened Gates
  import opened GateRows
  import opened Model
  import opened FleetModel
  import opened FleetSafety

  /** Every file is admitted by some pattern of the scope. */
  ghost predicate InScope(glob: Glob, files: seq<string>, owns: seq<string>) {
    forall p :: p in files ==> exists k :: 0 <= k < |owns| && Admits(glob, owns[k], p)
  }

  /** The gates that judge a task: those it names that were designed to run on a task. */
  function JudgesTask(t: Task): Gate -> bool {
    (g: Gate) => g.scope == PerTask && g.id in t.gateIds
  }

  /** Everything about a task that no result changes. */
  ghost predicate SameRecord(t: Task, u: Task) {
    && u.id == t.id && u.componentId == t.componentId && u.owns == t.owns && u.dependsOn == t.dependsOn
    && u.gateIds == t.gateIds && u.contractIds == t.contractIds && u.acceptanceIds == t.acceptanceIds
    && u.branch == t.branch
  }

  /** Only task i, the evidence and the measurements may differ. */
  ghost predicate OnlyTask(f: Fleet, g: Fleet, i: nat) {
    && |g.tasks| == |f.tasks| && (forall j :: 0 <= j < |f.tasks| && j != i ==> g.tasks[j] == f.tasks[j])
    && g.gates == f.gates && g.status == f.status && g.verdict == f.verdict && g.attributed == f.attributed
    && g.mergeLog == f.mergeLog && g.dispatched == f.dispatched
  }

  /** The outcome of work that stayed in scope: one row for each gate that judges the task, and the task is
      verified exactly when every row passed. */
  ghost predicate Judged(f: Fleet, g: Fleet, i: nat, s: Submission, gs: seq<Gate>, rows: seq<Evidence>)
    requires i < |f.tasks| == |g.tasks|
  {
    && RowsOf(gs, f.metrics, s.observe, f.tasks[i].id, rows)
    && g.evidence == f.evidence + rows && g.tasks[i].evidence == rows
    && Known(gs, f.metrics, s.observe, |gs|, g.metrics)
    && Sorted(g.tasks[i].submittedFiles) && multiset(g.tasks[i].submittedFiles) == multiset(s.files)
    && g.tasks[i].state == if forall k :: 0 <= k < |rows| ==> rows[k].status == Pass then Verified else Failed
  }

  /** The outcome of work outside the scope: the attempt is counted, and nothing is run or recorded. */
  ghost predicate Refused(f: Fleet, g: Fleet, i: nat)
    requires i < |f.tasks| == |g.tasks|
  {
    && g.evidence == f.evidence && g.metrics == f.metrics && g.tasks[i].state == Failed
    && g.tasks[i].evidence == f.tasks[i].evidence && g.tasks[i].submittedFiles == f.tasks[i].submittedFiles
  }

  lemma {:induction false} TaskGatesAreKept(gates: seq<Gate>, t: Task)
    ensures TaskGates(gates, t) == Filter(gates, JudgesTask(t))
  {
    if gates != [] { TaskGatesAreKept(gates[1..], t); }
  }

  lemma InsideIsInScope(glob: Glob, files: seq<string>, owns: seq<string>)
    ensures Inside(glob, files, owns) <==> InScope(glob, files, owns)
  {
    if Inside(glob, files, owns) {
      forall p | p in files ensures exists k :: 0 <= k < |owns| && Admits(glob, owns[k], p) {
        assert Within(glob, p, owns);
      }
    }
  }

  /** gs are the gates of the design that judge task t, in the order of the design. */
  ghost predicate JudgedBy(gates: seq<Gate>, t: Task, gs: seq<Gate>) {
    exists ks :: Keeping(gates, JudgesTask(t), ks) && gs == At(gates, ks)
  }

  lemma TaskGatesJudge(gates: seq<Gate>, t: Task)
    ensures JudgedBy(gates, t, TaskGates(gates, t))
  {
    TaskGatesAreKept(gates, t);
    var ks := FilterKeeps(gates, JudgesTask(t));
  }

  /** Ingest counts the attempt and changes no other task, and of its own task no part of the plan. */
  lemma IngestTouchesOne(glob: Glob, f: Fleet, id: string, s: Submission)
    requires exists t :: t in f.tasks && t.id == id
    ensures var i, g := Find(f.tasks, id), Ingest(glob, f, id, s);
            && i < |f.tasks| && OnlyTask(f, g, i) && SameRecord(f.tasks[i], g.tasks[i])
            && g.tasks[i].attempts == f.tasks[i].attempts + 1 && g.tasks[i].sandbox
  {
    IngestChanges(glob, f, Find(f.tasks, id), s);
  }

  ghost predicate Outcome(glob: Glob, f: Fleet, g: Fleet, i: nat, s: Submission, gs: seq<Gate>, rows: seq<Evidence>)
    requires i < |f.tasks| == |g.tasks|
  {
    if InScope(glob, s.files, f.tasks[i].owns) then Judged(f, g, i, s, gs, rows) else Refused(f, g, i)
  }

  /** A task is verified exactly when its work stayed in scope and every gate that judges it passed. An error, or a
      gate that was skipped, is no pass. */
  lemma IngestMeans(glob: Glob, f: Fleet, id: string, s: Submission) returns (gs: seq<Gate>, rows: seq<Evidence>)
    requires exists t :: t in f.tasks && t.id == id
    ensures var i, g := Find(f.tasks, id), Ingest(glob, f, id, s);
            i < |f.tasks| == |g.tasks| && JudgedBy(f.gates, f.tasks[i], gs) && Outcome(glob, f, g, i, s, gs, rows)
  {
    var i := Find(f.tasks, id);
    gs := TaskGates(f.gates, f.tasks[i]);
    rows := EvidenceOf(gs, f.metrics, s.observe, f.tasks[i].id);
    TaskGatesJudge(f.gates, f.tasks[i]);
    IngestOutcome(glob, f, i, s);
  }

  lemma IngestOutcome(glob: Glob, f: Fleet, i: nat, s: Submission)
    requires i < |f.tasks|
    ensures var g, gs := IngestAt(glob, f, i, s), TaskGates(f.gates, f.tasks[i]);
            && |g.tasks| == |f.tasks|
            && Outcome(glob, f, g, i, s, gs, EvidenceOf(gs, f.metrics, s.observe, f.tasks[i].id))
  {
    InsideIsInScope(glob, s.files, f.tasks[i].owns);
    if Inside(glob, s.files, f.tasks[i].owns) {
      InScopeIsJudged(glob, f, i, s);
    } else {
      IngestChanges(glob, f, i, s);
    }
  }

  lemma IngestChanges(glob: Glob, f: Fleet, i: nat, s: Submission)
    requires i < |f.tasks|
    ensures var g := IngestAt(glob, f, i, s);
            && OnlyTask(f, g, i) && SameRecord(f.tasks[i], g.tasks[i])
            && g.tasks[i].attempts == f.tasks[i].attempts + 1 && g.tasks[i].sandbox
            && (!Inside(glob, s.files, f.tasks[i].owns) ==> Refused(f, g, i))
  {
  }

  lemma InScopeIsRun(glob: Glob, f: Fleet, i: nat, s: Submission)
    requires i < |f.tasks| && Inside(glob, s.files, f.tasks[i].owns)
    ensures var g, gs := IngestAt(glob, f, i, s), TaskGates(f.gates, f.tasks[i]);
            var rows := EvidenceOf(gs, f.metrics, s.observe, f.tasks[i].id);
            && |g.tasks| == |f.tasks| && g.evidence == f.evidence + rows && g.tasks[i].evidence == rows
            && g.metrics == StoreAt(gs, f.metrics, s.observe, |gs|) && g.tasks[i].submittedFiles == Sort(s.files)
            && g.tasks[i].state == if AllPass(rows) then Verified else Failed
  {
    SameTaskGates(f.gates, f.tasks[i].(attempts := f.tasks[i].attempts + 1, sandbox := true), f.tasks[i]);
  }

  lemma InScopeIsJudged(glob: Glob, f: Fleet, i: nat, s: Submission)
    requires i < |f.tasks| && Inside(glob, s.files, f.tasks[i].owns)
    ensures var gs := TaskGates(f.gates, f.tasks[i]);
            && |IngestAt(glob, f, i, s).tasks| == |f.tasks|
            && Judged(f, IngestAt(glob, f, i, s), i, s, gs, EvidenceOf(gs, f.metrics, s.observe, f.tasks[i].id))
  {
    var gs := TaskGates(f.gates, f.tasks[i]);
    InScopeIsRun(glob, f, i, s);
    PassRows(gs, f.metrics, s.observe, f.tasks[i].id);
    StoreIsKnown(gs, f.metrics, s.observe, |gs|);
    SortCorrect(s.files);
    AllPassMeans(EvidenceOf(gs, f.metrics, s.observe, f.tasks[i].id));
  }

  lemma AllPassMeans(rows: seq<Evidence>)
    ensures AllPass(rows) <==> forall k :: 0 <= k < |rows| ==> rows[k].status == Pass
  {
    if AllPass(rows) {
      forall k | 0 <= k < |rows| ensures rows[k].status == Pass { assert rows[k] in rows; }
    }
  }
}
