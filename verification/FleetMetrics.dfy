/** The critical path of a run, as a bound on every schedule (minifleet/fleetmetrics.py). */
module FleetMetrics {
  import opened Options
  import opened Text
  import opened Dictionary
  import opened TaskGraph
  import opened Layering
  import opened CriticalPath

  /** What the run record says about one task; either time stamp may be missing. */
  datatype TimedTask = TimedTask(id: string, dependsOn: seq<string>, startedAt: Option<real>, finishedAt: Option<real>)

  function Duration(t: TimedTask): (d: real)
    ensures d >= 0.0
  {
    if t.startedAt.None? || t.finishedAt.None? then 0.0
    else if t.finishedAt.value - t.startedAt.value >= 0.0 then t.finishedAt.value - t.startedAt.value
    else 0.0
  }

  /** The records keyed by id, a later record replacing an earlier one. */
  function Index(tasks: seq<TimedTask>): (d: Dict<string, TimedTask>)
    ensures d.Valid()
    ensures tasks != [] ==> d.keys != []
  {
    if tasks == [] then Empty()
    else
      var t := tasks[|tasks| - 1];
      Index(tasks[..|tasks| - 1]).Put(t.id, t)
  }

  function Edges(d: Dict<string, TimedTask>): Graph<string> {
    map n | n in d.table :: d.table[n].dependsOn
  }

  function DurationsOf(d: Dict<string, TimedTask>): Durations<string> {
    map n | n in d.table :: Duration(d.table[n])
  }

  /** r is the weight of a real chain, and without cycles no chain weighs more. */
  ghost predicate IsCriticalPath<N(!new)>(g: Graph<N>, dur: Durations<N>, r: real) {
    && (if g.Keys == {} then r == 0.0 else exists n :: n in g && Attained(g, dur, n, r, g.Keys))
    && (forall n :: n in g ==> Cost(dur, n) <= r)
    && (!HasCycle(g) ==> forall n :: n in g ==> Dominates(g, dur, n, r))
  }

  /** The value before rounding. best holds the heaviest chain from each task. */
  method CriticalPathSeconds(tasks: seq<TimedTask>) returns (r: real, ghost best: map<string, real>)
    ensures IsCriticalPath(Edges(Index(tasks)), DurationsOf(Index(tasks)), r)
    ensures best.Keys == Edges(Index(tasks)).Keys
    ensures MemoInv(Edges(Index(tasks)), DurationsOf(Index(tasks)), best)
    ensures forall n :: n in best ==> best[n] <= r
    ensures TellsTime(tasks, r)
  {
    var d := BuildIndex(tasks);
    var memo := new PathMemo(Edges(d), DurationsOf(d));
    var values: seq<real> := [];
    for i := 0 to |d.keys|
      invariant |values| == i && MemoInv(memo.graph, memo.duration, memo.memo)
      invariant AnsweredFor(d.keys, memo.memo, values)
    {
      assert d.keys[i] in Elements(d.keys);
      ghost var before := memo.memo;
      var v := memo.Longest(d.keys[i], {}, []);
      OneMoreAnswer(d.keys, before, memo.memo, values, v);
      values := values + [v];
    }
    r := MaxOf(values);
    best := memo.memo;
    AllAnswered(d, best, values);
    CriticalPathTellsTime(tasks, r);
  }

  /** The first values are those the memo holds for the first keys. */
  ghost predicate AnsweredFor(keys: seq<string>, memo: map<string, real>, values: seq<real>) {
    |values| <= |keys| && forall j :: 0 <= j < |values| ==> keys[j] in memo && values[j] == memo[keys[j]]
  }

  lemma OneMoreAnswer(keys: seq<string>, memo: map<string, real>, memo': map<string, real>, values: seq<real>, v: real)
    requires AnsweredFor(keys, memo, values) && |values| < |keys|
    requires forall k :: k in memo ==> k in memo' && memo'[k] == memo[k]
    requires keys[|values|] in memo' && v == memo'[keys[|values|]]
    ensures AnsweredFor(keys, memo', values + [v])
  {
  }

  method BuildIndex(tasks: seq<TimedTask>) returns (d: Dict<string, TimedTask>)
    ensures d == Index(tasks)
  {
    d := Empty();
    for i := 0 to |tasks|
      invariant d == Index(tasks[..i])
    {
      assert tasks[..i + 1][..i] == tasks[..i];
      d := d.Put(tasks[i].id, tasks[i]);
    }
    assert tasks[..|tasks|] == tasks;
  }

  lemma AllAnswered(d: Dict<string, TimedTask>, best: map<string, real>, values: seq<real>)
    requires d.Valid() && |values| == |d.keys| && MemoInv(Edges(d), DurationsOf(d), best)
    requires AnsweredFor(d.keys, best, values)
    ensures best.Keys == Edges(d).Keys && IsCriticalPath(Edges(d), DurationsOf(d), MaxOf(values))
    ensures forall n :: n in best ==> best[n] <= MaxOf(values)
  {
    AnswersCover(d, best, values);
    if d.keys == [] {
      NoTasksNoTime(d);
    } else {
      LargestAnswer(d, best, values);
    }
  }

  lemma AnswersCover(d: Dict<string, TimedTask>, best: map<string, real>, values: seq<real>)
    requires d.Valid() && |values| == |d.keys| && best.Keys <= Edges(d).Keys && AnsweredFor(d.keys, best, values)
    ensures best.Keys == Edges(d).Keys && forall n :: n in best ==> best[n] <= MaxOf(values)
  {
    forall n | n in Edges(d) ensures n in best && best[n] <= MaxOf(values) {
      AnswerBelow(d, best, values, n);
    }
  }

  lemma NoTasksNoTime(d: Dict<string, TimedTask>)
    requires d.Valid() && d.keys == []
    ensures IsCriticalPath(Edges(d), DurationsOf(d), 0.0)
  {
    assert Edges(d).Keys == {};
  }

  lemma AnswerBelow(d: Dict<string, TimedTask>, best: map<string, real>, values: seq<real>, n: string)
    requires d.Valid() && |values| == |d.keys| && AnsweredFor(d.keys, best, values) && n in Edges(d)
    ensures n in best && best[n] <= MaxOf(values)
  {
    assert n in Elements(d.keys);
    var j :| 0 <= j < |d.keys| && d.keys[j] == n;
    assert values[j] <= MaxOf(values);
  }

  lemma LargestAnswer(d: Dict<string, TimedTask>, best: map<string, real>, values: seq<real>)
    requires d.Valid() && |values| == |d.keys| > 0 && MemoInv(Edges(d), DurationsOf(d), best)
    requires best.Keys == Edges(d).Keys && forall n :: n in best ==> best[n] <= MaxOf(values)
    requires AnsweredFor(d.keys, best, values)
    ensures IsCriticalPath(Edges(d), DurationsOf(d), MaxOf(values))
  {
    var j :| 0 <= j < |values| && values[j] == MaxOf(values);
    assert d.keys[j] in best;
    LargestIsCritical(Edges(d), DurationsOf(d), best, d.keys[j], MaxOf(values));
  }

  lemma LargestIsCritical<N(!new)>(g: Graph<N>, dur: Durations<N>, best: map<N, real>, m: N, r: real)
    requires MemoInv(g, dur, best) && best.Keys == g.Keys && m in best && best[m] == r
    requires forall n :: n in best ==> best[n] <= r
    ensures IsCriticalPath(g, dur, r)
  {
    assert Attained(g, dur, m, r, g.Keys);
    if !HasCycle(g) {
      forall n | n in g ensures Dominates(g, dur, n, r) {
        assert Dominates(g, dur, n, best[n]);
      }
    }
  }

  // ---- what the value says about the time stamps ----

  /** The record at position i is the one that counts for its task: no later record has its id. */
  ghost predicate Counts(tasks: seq<TimedTask>, i: nat) {
    i < |tasks| && forall j :: i < j < |tasks| ==> tasks[j].id != tasks[i].id
  }

  ghost predicate Stamped(t: TimedTask) {
    t.startedAt.Some? && t.finishedAt.Some?
  }

  /** A stamp is missing, or the task finished no later than it started. */
  ghost predicate TookNoTime(t: TimedTask) {
    Stamped(t) ==> t.finishedAt.value <= t.startedAt.value
  }

  /** Every task ran forwards, between first and last, and started after its dependencies had finished. */
  ghost predicate InTurn(tasks: seq<TimedTask>, first: real, last: real) {
    forall i: nat :: Counts(tasks, i) ==>
      && Stamped(tasks[i]) && first <= tasks[i].startedAt.value <= tasks[i].finishedAt.value <= last
      && forall j: nat :: Counts(tasks, j) && tasks[j].id in tasks[i].dependsOn ==>
           Stamped(tasks[j]) && tasks[j].finishedAt.value <= tasks[i].startedAt.value
  }

  /** Each task depends on the one before, and started when that finished. */
  ghost predicate OneChain(tasks: seq<TimedTask>) {
    && tasks != [] && (forall i, j :: 0 <= i < j < |tasks| ==> tasks[i].id != tasks[j].id)
    && forall i {:trigger Linked(tasks, i)} :: 0 <= i < |tasks| ==> Linked(tasks, i)
  }

  ghost predicate Linked(tasks: seq<TimedTask>, i: nat)
    requires i < |tasks|
  {
    && Stamped(tasks[i]) && tasks[i].startedAt.value <= tasks[i].finishedAt.value
    && if i == 0 then tasks[i].dependsOn == []
       else tasks[i].dependsOn == [tasks[i - 1].id] && Stamped(tasks[i - 1])
            && tasks[i].startedAt.value == tasks[i - 1].finishedAt.value
  }

  /** From the start of the first to the finish of the last task. */
  ghost function SpanOf(tasks: seq<TimedTask>): real
    requires OneChain(tasks)
  {
    assert Linked(tasks, 0) && Linked(tasks, |tasks| - 1);
    tasks[|tasks| - 1].finishedAt.value - tasks[0].startedAt.value
  }

  /** What r says: no task took longer; it is nothing when no task took any time; it lies within the run when tasks
      waited for their dependencies; and it is the whole run when the tasks are one chain without gaps. */
  ghost predicate TellsTime(tasks: seq<TimedTask>, r: real) {
    && r >= 0.0
    && (forall i: nat :: Counts(tasks, i) && Stamped(tasks[i]) ==>
          r >= tasks[i].finishedAt.value - tasks[i].startedAt.value)
    && ((forall i: nat :: Counts(tasks, i) ==> TookNoTime(tasks[i])) ==> r == 0.0)
    && (forall first, last :: tasks != [] && InTurn(tasks, first, last) ==> r <= last - first)
    && (OneChain(tasks) ==> r == SpanOf(tasks))
  }

  lemma CountsSnoc(tasks: seq<TimedTask>, i: nat, n: string)
    requires tasks != []
    ensures var m := |tasks| - 1;
            Counts(tasks, i) && tasks[i].id == n <==>
              if tasks[m].id == n then i == m else Counts(tasks[..m], i) && tasks[..m][i].id == n
  {
    var m := |tasks| - 1;
    if i < m { assert forall j :: 0 <= j < m ==> tasks[..m][j] == tasks[j]; }
  }

  /** The index holds exactly the records that count. */
  lemma {:induction false} IndexMeans(tasks: seq<TimedTask>, n: string)
    ensures n in Index(tasks).table ==> exists i: nat :: Counts(tasks, i) && tasks[i].id == n
    ensures forall i: nat :: Counts(tasks, i) && tasks[i].id == n ==>
              n in Index(tasks).table && Index(tasks).table[n] == tasks[i]
  {
    if tasks != [] {
      var m := |tasks| - 1;
      IndexMeans(tasks[..m], n);
      if tasks[m].id == n {
        assert Counts(tasks, m);
      } else if n in Index(tasks).table {
        var i: nat :| Counts(tasks[..m], i) && tasks[..m][i].id == n;
        CountsSnoc(tasks, i, n);
      }
      forall i: nat | Counts(tasks, i) && tasks[i].id == n
        ensures n in Index(tasks).table && Index(tasks).table[n] == tasks[i]
      {
        CountsSnoc(tasks, i, n);
      }
    }
  }

  lemma CountedCost(tasks: seq<TimedTask>, i: nat)
    requires Counts(tasks, i)
    ensures var d := Index(tasks); var n := tasks[i].id;
            && n in Edges(d) && Edges(d)[n] == tasks[i].dependsOn && Cost(DurationsOf(d), n) >= 0.0
            && (Stamped(tasks[i]) ==>
                  Cost(DurationsOf(d), n) >= tasks[i].finishedAt.value - tasks[i].startedAt.value)
            && (Stamped(tasks[i]) && tasks[i].startedAt.value <= tasks[i].finishedAt.value ==>
                  Cost(DurationsOf(d), n) == tasks[i].finishedAt.value - tasks[i].startedAt.value)
            && (TookNoTime(tasks[i]) ==> Cost(DurationsOf(d), n) == 0.0)
  {
    IndexMeans(tasks, tasks[i].id);
  }

  lemma CountedFor(tasks: seq<TimedTask>, n: string) returns (i: nat)
    requires n in Edges(Index(tasks))
    ensures Counts(tasks, i) && tasks[i].id == n
  {
    IndexMeans(tasks, n);
    i :| Counts(tasks, i) && tasks[i].id == n;
  }

  lemma {:induction false} NoWeight<N(!new)>(dur: Durations<N>, p: seq<N>)
    requires forall i :: 0 <= i < |p| ==> Cost(dur, p[i]) == 0.0
    ensures Weight(dur, p) == 0.0
  {
    if p != [] { NoWeight(dur, p[1..]); }
  }

  lemma NoTimeNoPath(tasks: seq<TimedTask>, r: real)
    requires IsCriticalPath(Edges(Index(tasks)), DurationsOf(Index(tasks)), r)
    requires forall i: nat :: Counts(tasks, i) ==> TookNoTime(tasks[i])
    ensures r == 0.0
  {
    var g, dur := Edges(Index(tasks)), DurationsOf(Index(tasks));
    if g.Keys != {} {
      var n :| n in g && Attained(g, dur, n, r, g.Keys);
      var p :| IsChain(g, p) && p[0] == n && Distinct(p) && Weight(dur, p) == r && Elements(p) <= g.Keys;
      forall k | 0 <= k < |p| ensures Cost(dur, p[k]) == 0.0 {
        var i := CountedFor(tasks, p[k]);
        CountedCost(tasks, i);
      }
      NoWeight(dur, p);
    }
  }

  /** A chain of tasks that waited for each other takes no longer than from the start of its last to the finish of
      its first member. */
  lemma {:induction false} ChainInTurn(tasks: seq<TimedTask>, p: seq<string>, first: real, last: real, i: nat)
    requires InTurn(tasks, first, last) && IsChain(Edges(Index(tasks)), p)
    requires Counts(tasks, i) && tasks[i].id == p[0]
    ensures Stamped(tasks[i]) && Weight(DurationsOf(Index(tasks)), p) <= tasks[i].finishedAt.value - first
  {
    CountedCost(tasks, i);
    if |p| == 1 {
      assert p[1..] == [];
    } else {
      WalkOn(Edges(Index(tasks)), p);
      var j := CountedFor(tasks, p[1]);
      ChainInTurn(tasks, p[1..], first, last, j);
    }
  }

  lemma PathInTurn(tasks: seq<TimedTask>, r: real, first: real, last: real)
    requires IsCriticalPath(Edges(Index(tasks)), DurationsOf(Index(tasks)), r)
    requires tasks != [] && InTurn(tasks, first, last)
    ensures r <= last - first
  {
    var g, dur := Edges(Index(tasks)), DurationsOf(Index(tasks));
    var m := |tasks| - 1;
    assert Counts(tasks, m);
    CountedCost(tasks, m);
    var n :| n in g && Attained(g, dur, n, r, g.Keys);
    var p :| IsChain(g, p) && p[0] == n && Distinct(p) && Weight(dur, p) == r && Elements(p) <= g.Keys;
    var i := CountedFor(tasks, n);
    ChainInTurn(tasks, p, first, last, i);
  }

  /** What a chain in the graph needs to know of the task at position i. */
  ghost predicate OnChain(tasks: seq<TimedTask>, g: Graph<string>, dur: Durations<string>, i: nat)
    requires i < |tasks|
  {
    && Stamped(tasks[i]) && tasks[i].id in g
    && Cost(dur, tasks[i].id) == tasks[i].finishedAt.value - tasks[i].startedAt.value
    && (i > 0 ==> Stamped(tasks[i - 1]) && tasks[i - 1].id in g[tasks[i].id]
                  && tasks[i].startedAt.value == tasks[i - 1].finishedAt.value)
  }

  ghost predicate AllOnChain(tasks: seq<TimedTask>, g: Graph<string>, dur: Durations<string>) {
    tasks != [] && forall i {:trigger OnChain(tasks, g, dur, i)} :: 0 <= i < |tasks| ==> OnChain(tasks, g, dur, i)
  }

  lemma OneChainIsOnChain(tasks: seq<TimedTask>)
    requires OneChain(tasks)
    ensures AllOnChain(tasks, Edges(Index(tasks)), DurationsOf(Index(tasks)))
  {
    forall i | 0 <= i < |tasks| ensures OnChain(tasks, Edges(Index(tasks)), DurationsOf(Index(tasks)), i) {
      assert Linked(tasks, i) && Counts(tasks, i);
      CountedCost(tasks, i);
    }
  }

  lemma {:induction false} ChainBack(tasks: seq<TimedTask>, g: Graph<string>, dur: Durations<string>, k: nat)
    returns (p: seq<string>)
    requires AllOnChain(tasks, g, dur) && k < |tasks|
    ensures IsChain(g, p) && p[0] == tasks[k].id && OnChain(tasks, g, dur, k) && OnChain(tasks, g, dur, 0)
    ensures Weight(dur, p) == tasks[k].finishedAt.value - tasks[0].startedAt.value
  {
    assert OnChain(tasks, g, dur, k) && OnChain(tasks, g, dur, 0);
    if k == 0 {
      p := [tasks[0].id];
      assert p[1..] == [];
    } else {
      var q := ChainBack(tasks, g, dur, k - 1);
      LongerChain(g, dur, tasks[k].id, q);
      p := [tasks[k].id] + q;
    }
  }

  lemma LongerChain<N(!new)>(g: Graph<N>, dur: Durations<N>, n: N, q: seq<N>)
    requires n in g && IsChain(g, q) && q[0] in g[n]
    ensures IsChain(g, [n] + q) && Weight(dur, [n] + q) == Cost(dur, n) + Weight(dur, q)
  {
    var p := [n] + q;
    PrependWalk(g, n, q);
    assert p[1..] == q;
    forall i | 0 <= i < |p| ensures p[i] in g { if i > 0 { assert p[i] == q[i - 1]; } }
  }

  function PlaceOf(tasks: seq<TimedTask>, n: string): nat {
    FirstWhere(tasks, (t: TimedTask) => t.id == n)
  }

  lemma OneChainPlaces(tasks: seq<TimedTask>, i: nat)
    requires OneChain(tasks) && i < |tasks|
    ensures PlaceOf(tasks, tasks[i].id) == i && tasks[i].id in Edges(Index(tasks))
    ensures Edges(Index(tasks))[tasks[i].id] == tasks[i].dependsOn && Linked(tasks, i)
  {
    assert Counts(tasks, i);
    CountedCost(tasks, i);
    assert Linked(tasks, i);
  }

  ghost predicate Places(tasks: seq<TimedTask>, rank: map<string, nat>) {
    && (forall i :: 0 <= i < |tasks| ==> tasks[i].id in rank && rank[tasks[i].id] == i)
    && forall n :: n in rank ==> exists i :: 0 <= i < |tasks| && tasks[i].id == n
  }

  /** Dependencies lead from a place to the one before. */
  ghost predicate LeadsBack(tasks: seq<TimedTask>, g: Graph<string>, i: nat)
    requires i < |tasks|
  {
    tasks[i].id in g && g[tasks[i].id] == if i == 0 then [] else [tasks[i - 1].id]
  }

  lemma PlacesRank(tasks: seq<TimedTask>, g: Graph<string>, rank: map<string, nat>)
    requires Places(tasks, rank) && forall i {:trigger LeadsBack(tasks, g, i)} :: 0 <= i < |tasks| ==>
                 LeadsBack(tasks, g, i)
    ensures Ranks(g, rank)
  {
    forall n, d | n in rank && d in Deps(g, n) ensures d in rank && rank[d] < rank[n] {
      var i :| 0 <= i < |tasks| && tasks[i].id == n;
      assert LeadsBack(tasks, g, i);
      assert d == tasks[i - 1].id;
    }
  }

  lemma OneChainHasNoCycle(tasks: seq<TimedTask>)
    requires OneChain(tasks)
    ensures !HasCycle(Edges(Index(tasks)))
  {
    var g := Edges(Index(tasks));
    var rank: map<string, nat> := map n | n in g :: PlaceOf(tasks, n);
    forall i | 0 <= i < |tasks|
      ensures LeadsBack(tasks, g, i) && tasks[i].id in rank && rank[tasks[i].id] == i
    {
      OneChainPlaces(tasks, i);
    }
    forall n | n in rank ensures exists i :: 0 <= i < |tasks| && tasks[i].id == n {
      var i := CountedFor(tasks, n);
    }
    PlacesRank(tasks, g, rank);
    RankedHasNoCycle(g, rank);
  }

  lemma OneChainTakesAll(tasks: seq<TimedTask>, r: real)
    requires IsCriticalPath(Edges(Index(tasks)), DurationsOf(Index(tasks)), r) && OneChain(tasks)
    ensures r == SpanOf(tasks)
  {
    assert Linked(tasks, 0) && Linked(tasks, |tasks| - 1);
    OneChainTakesLong(tasks, r);
    OneChainInTurn(tasks);
    PathInTurn(tasks, r, tasks[0].startedAt.value, tasks[|tasks| - 1].finishedAt.value);
  }

  lemma OneChainTakesLong(tasks: seq<TimedTask>, r: real)
    requires IsCriticalPath(Edges(Index(tasks)), DurationsOf(Index(tasks)), r) && OneChain(tasks)
    ensures r >= SpanOf(tasks)
  {
    var m := |tasks| - 1;
    OneChainHasNoCycle(tasks);
    OneChainPlaces(tasks, m);
    OneChainIsOnChain(tasks);
    var p := ChainBack(tasks, Edges(Index(tasks)), DurationsOf(Index(tasks)), m);
    assert Dominates(Edges(Index(tasks)), DurationsOf(Index(tasks)), tasks[m].id, r);
  }

  lemma {:induction false} Later(tasks: seq<TimedTask>, i: nat, j: nat)
    requires OneChain(tasks) && i <= j < |tasks|
    ensures Linked(tasks, i) && Linked(tasks, j)
    ensures tasks[i].startedAt.value <= tasks[j].startedAt.value
    ensures tasks[i].finishedAt.value <= tasks[j].finishedAt.value
    decreases j - i
  {
    assert Linked(tasks, i) && Linked(tasks, j);
    if i < j { Later(tasks, i, j - 1); }
  }

  lemma OneChainInTurn(tasks: seq<TimedTask>)
    requires OneChain(tasks)
    ensures Linked(tasks, 0) && Linked(tasks, |tasks| - 1)
    ensures InTurn(tasks, tasks[0].startedAt.value, tasks[|tasks| - 1].finishedAt.value)
  {
    assert Linked(tasks, 0) && Linked(tasks, |tasks| - 1);
    forall i: nat | Counts(tasks, i)
      ensures Stamped(tasks[i]) && tasks[0].startedAt.value <= tasks[i].startedAt.value <= tasks[i].finishedAt.value
           && tasks[i].finishedAt.value <= tasks[|tasks| - 1].finishedAt.value
    {
      Later(tasks, 0, i);
      Later(tasks, i, |tasks| - 1);
    }
    forall i: nat, j: nat | Counts(tasks, i) && Counts(tasks, j) && tasks[j].id in tasks[i].dependsOn
      ensures Stamped(tasks[j]) && tasks[j].finishedAt.value <= tasks[i].startedAt.value
    {
      assert Linked(tasks, i);
      assert i > 0 && tasks[j].id == tasks[i - 1].id;
      assert j == i - 1;
    }
  }

  lemma CriticalPathTellsTime(tasks: seq<TimedTask>, r: real)
    requires IsCriticalPath(Edges(Index(tasks)), DurationsOf(Index(tasks)), r)
    ensures TellsTime(tasks, r)
  {
    var g, dur := Edges(Index(tasks)), DurationsOf(Index(tasks));
    forall i: nat | Counts(tasks, i)
      ensures r >= 0.0 && (Stamped(tasks[i]) ==> r >= tasks[i].finishedAt.value - tasks[i].startedAt.value)
    {
      CountedCost(tasks, i);
    }
    if tasks == [] {
      assert g.Keys == {};
    } else {
      assert Counts(tasks, |tasks| - 1);
    }
    if forall i: nat :: Counts(tasks, i) ==> TookNoTime(tasks[i]) { NoTimeNoPath(tasks, r); }
    forall first, last | tasks != [] && InTurn(tasks, first, last) ensures r <= last - first {
      PathInTurn(tasks, r, first, last);
    }
    if OneChain(tasks) { OneChainTakesAll(tasks, r); }
  }

  /** Every task starts at a non-negative time, and after its dependencies have finished. */
  ghost predicate Feasible<N(!new)>(g: Graph<N>, dur: Durations<N>, start: map<N, real>) {
    && start.Keys == g.Keys
    && (forall n :: n in g ==> start[n] >= 0.0)
    && forall n, d :: n in g && d in g[n] && d in g ==> start[n] >= start[d] + Cost(dur, d)
  }

  ghost predicate CompletesBy<N(!new)>(dur: Durations<N>, start: map<N, real>, t: real) {
    forall n :: n in start ==> start[n] + Cost(dur, n) <= t
  }

  lemma {:induction false} ChainDelays<N(!new)>(g: Graph<N>, dur: Durations<N>, start: map<N, real>, q: seq<N>)
    requires Feasible(g, dur, start) && IsChain(g, q)
    ensures start[q[0]] + Cost(dur, q[0]) >= Weight(dur, q)
  {
    if |q| == 1 {
      assert Weight(dur, q[1..]) == 0.0;
    } else {
      WalkOn(g, q);
      ChainDelays(g, dur, start, q[1..]);
    }
  }

  /** No schedule that respects the dependencies completes before the critical path. */
  lemma NoScheduleIsFaster<N(!new)>(g: Graph<N>, dur: Durations<N>, r: real, start: map<N, real>, t: real)
    requires IsCriticalPath(g, dur, r) && g.Keys != {}
    requires Feasible(g, dur, start) && CompletesBy(dur, start, t)
    ensures t >= r
  {
    var n :| n in g && Attained(g, dur, n, r, g.Keys);
    var p :| IsChain(g, p) && p[0] == n && Distinct(p) && Weight(dur, p) == r && Elements(p) <= g.Keys;
    ChainDelays(g, dur, start, p);
  }

  /** Without cycles the bound is met: starting each task as soon as possible takes exactly r. */
  lemma SomeScheduleIsAsFast<N(!new)>(g: Graph<N>, dur: Durations<N>, r: real, best: map<N, real>)
    returns (start: map<N, real>)
    requires !HasCycle(g) && best.Keys == g.Keys && MemoInv(g, dur, best)
    requires forall n :: n in best ==> best[n] <= r
    ensures Feasible(g, dur, start) && CompletesBy(dur, start, r)
  {
    start := map n | n in g :: best[n] - Cost(dur, n);
    forall n, d | n in g && d in g[n] && d in g ensures start[n] >= start[d] + Cost(dur, d) {
      assert Attained(g, dur, d, best[d], best.Keys);
      var p :| IsChain(g, p) && p[0] == d && Distinct(p) && Weight(dur, p) == best[d] && Elements(p) <= best.Keys;
      PrependWalk(g, n, p);
      assert ([n] + p)[1..] == p;
      assert IsChain(g, [n] + p);
      assert Dominates(g, dur, n, best[n]);
      assert Weight(dur, [n] + p) <= best[n];
    }
  }

  lemma {:induction false} UnitWeight<N>(dur: Durations<N>, p: seq<N>)
    requires forall i :: 0 <= i < |p| ==> Cost(dur, p[i]) == 1.0
    ensures Weight(dur, p) == |p| as real
  {
    if p != [] { UnitWeight(dur, p[1..]); }
  }

  ghost predicate Unit<N(!new)>(g: Graph<N>, dur: Durations<N>) {
    forall n :: n in g ==> Cost(dur, n) == 1.0
  }

  lemma AtLeastWaves<N(!new)>(g: Graph<N>, dur: Durations<N>, r: real, k: nat)
    requires Productive(g, k) && Unit(g, dur)
    requires forall n :: n in g ==> Dominates(g, dur, n, r)
    ensures r >= (k + 1) as real
  {
    var n :| n in Wave(g, Done(g, k));
    var p := ChainOfWave(g, k, n);
    UnitWeight(dur, p);
    assert Dominates(g, dur, n, r);
  }

  lemma AtMostWaves<N(!new)>(g: Graph<N>, dur: Durations<N>, r: real, k: nat, n: N)
    requires Unit(g, dur) && n in Done(g, k) && Attained(g, dur, n, r, g.Keys)
    ensures r <= k as real
  {
    var q :| IsChain(g, q) && q[0] == n && Distinct(q) && Weight(dur, q) == r && Elements(q) <= g.Keys;
    UnitWeight(dur, q);
    WalksAreShort(g, k, q);
  }

  /** With one time unit per task, the critical path is the number of waves. */
  lemma UnitCriticalPathIsWaveCount<N(!new)>(g: Graph<N>, dur: Durations<N>, r: real, k: nat)
    requires Layers(g, k) && IsCriticalPath(g, dur, r) && Unit(g, dur)
    ensures r == k as real
  {
    LayeringExistsIff(g);
    if k == 0 {
      assert g.Keys == {};
    } else {
      assert Productive(g, k - 1);
      AtLeastWaves(g, dur, r, k - 1);
      var m :| m in g && Attained(g, dur, m, r, g.Keys);
      AtMostWaves(g, dur, r, k, m);
    }
  }
}
