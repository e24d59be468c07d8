/** What integration makes of a run, said with the fields of the record (minifleet/scheduler.py, integrate). */
module IntegrateMeaning {
  import opened Text
  import opened Filters
  import opened TaskGraph
  import opened Layering
  import opened Batches
  import opened Gates
  import opened Model
  import opened FleetModel
  import opened VerifyMeaning

  // ---- conflicts ----

  /** The last verified task on branch b. */
  ghost predicate LastOn(ts: seq<Task>, b: string, i: nat) {
    && i < |ts| && ts[i].state == Verified && ts[i].branch == b
    && forall j :: i < j < |ts| && ts[j].branch == b ==> ts[j].state != Verified
  }

  /** Two branches with verified work change one file. */
  ghost predicate Clash(ts: seq<Task>, w: GitWorld) {
    exists i: nat, j: nat, p ::
      && i < |ts| && j < |ts| && LastOn(ts, ts[i].branch, i) && LastOn(ts, ts[j].branch, j)
      && ts[i].branch != ts[j].branch && p in w.diff(ts[i].id) && p in w.diff(ts[j].id)
  }

  lemma LastOnSnoc(ts: seq<Task>, b: string, i: nat)
    requires ts != []
    ensures var n := |ts| - 1;
            LastOn(ts, b, i) <==>
              if ts[n].state == Verified && ts[n].branch == b then i == n else LastOn(ts[..n], b, i)
  {
    var n := |ts| - 1;
    if i < n { assert forall j :: 0 <= j < n ==> ts[..n][j] == ts[j]; }
  }

  lemma {:induction false} BranchIsLastOn(ts: seq<Task>, w: GitWorld, b: string, i: nat)
    requires LastOn(ts, b, i)
    ensures b in VerifiedBranches(ts, w).table && VerifiedBranches(ts, w).table[b] == w.diff(ts[i].id)
  {
    var n := |ts| - 1;
    LastOnSnoc(ts, b, i);
    if i < n { BranchIsLastOn(ts[..n], w, b, i); }
  }

  lemma {:induction false} BranchHasLast(ts: seq<Task>, w: GitWorld, b: string) returns (i: nat)
    requires b in VerifiedBranches(ts, w).table
    ensures LastOn(ts, b, i)
  {
    var n := |ts| - 1;
    if ts[n].state == Verified && ts[n].branch == b {
      i := n;
    } else {
      i := BranchHasLast(ts[..n], w, b);
      LastOnSnoc(ts, b, i);
    }
  }

  lemma ConflictIsClash(ts: seq<Task>, w: GitWorld)
    ensures IsDisjoint(VerifiedBranches(ts, w)) <==> !Clash(ts, w)
  {
    var d := VerifiedBranches(ts, w);
    if Clash(ts, w) {
      var i: nat, j: nat, p :|
        && i < |ts| && j < |ts| && LastOn(ts, ts[i].branch, i) && LastOn(ts, ts[j].branch, j)
        && ts[i].branch != ts[j].branch && p in w.diff(ts[i].id) && p in w.diff(ts[j].id);
      BranchIsLastOn(ts, w, ts[i].branch, i);
      BranchIsLastOn(ts, w, ts[j].branch, j);
      assert p in d.table[ts[i].branch] && p in d.table[ts[j].branch];
    } else {
      forall a, b, p | a in d.table && b in d.table && a != b && p in d.table[a] ensures p !in d.table[b] {
        var i := BranchHasLast(ts, w, a);
        var j := BranchHasLast(ts, w, b);
        BranchIsLastOn(ts, w, a, i);
        BranchIsLastOn(ts, w, b, j);
        assert LastOn(ts, ts[i].branch, i) && LastOn(ts, ts[j].branch, j);
      }
    }
  }

  // ---- merging along an order ----

  ghost predicate IsVerified(ts: seq<Task>, id: string) {
    exists i :: 0 <= i < |ts| && ts[i].id == id && ts[i].state == Verified
  }

  /** How far along the order merging comes: up to the first verified task whose merge fails. */
  ghost predicate Reaches(ts: seq<Task>, order: seq<string>, w: GitWorld, k: nat) {
    && k <= |order|
    && (forall j :: 0 <= j < k && IsVerified(ts, order[j]) ==> w.mergeOk(order[j]))
    && (k < |order| ==> IsVerified(ts, order[k]) && !w.mergeOk(order[k]))
  }

  /** us is ts with the verified tasks among the ids merged. */
  ghost predicate MergedAmong(ts: seq<Task>, us: seq<Task>, ids: seq<string>) {
    && |us| == |ts|
    && forall i :: 0 <= i < |ts| ==>
        us[i] == if ts[i].state == Verified && ts[i].id in ids then ts[i].(state := Merged) else ts[i]
  }

  ghost function VerifiedIn(ts: seq<Task>): string -> bool {
    (x: string) => IsVerified(ts, x)
  }

  ghost predicate MergedTo(ts: seq<Task>, log: seq<string>, order: seq<string>, m: Merging, k: nat)
    requires k <= |order|
  {
    && MergedAmong(ts, m.tasks, order[..k]) && m.log == log + Filter(order[..k], VerifiedIn(ts))
    && (m.ok <==> k == |order|)
  }

  lemma VerifiedAt(ts: seq<Task>, id: string)
    requires UniqueIds(ts)
    ensures IsVerified(ts, id) <==> Find(ts, id) < |ts| && ts[Find(ts, id)].state == Verified
  {
    if i :| 0 <= i < |ts| && ts[i].id == id && ts[i].state == Verified { FindUnique(ts, i); }
  }

  lemma Rest(order: seq<string>, k: nat)
    requires k < |order| && Distinct(order)
    ensures order[..k + 1] == [order[0]] + order[1..][..k] && Distinct(order[1..]) && order[0] !in order[1..]
  {
    assert forall j :: 0 <= j < |order[1..]| ==> order[1..][j] == order[j + 1];
  }

  /** The first id is not verified: it is passed over. */
  lemma PassOver(ts: seq<Task>, log: seq<string>, order: seq<string>, w: GitWorld, m: Merging, k: nat)
    requires order != [] && Distinct(order) && !IsVerified(ts, order[0])
    requires k <= |order[1..]| && Reaches(ts, order[1..], w, k) && MergedTo(ts, log, order[1..], m, k)
    ensures Reaches(ts, order, w, k + 1) && MergedTo(ts, log, order, m, k + 1)
  {
    Rest(order, k);
    var ids := order[..k + 1];
    assert ids[1..] == order[1..][..k] && ids[0] == order[0];
    assert Filter(ids, VerifiedIn(ts)) == [] + Filter(ids[1..], VerifiedIn(ts));
    forall i | 0 <= i < |ts| && ts[i].state == Verified ensures ts[i].id in ids <==> ts[i].id in order[1..][..k] {
      assert ts[i].id != order[0];
    }
  }

  lemma SameVerified(ts: seq<Task>, i: nat, us: seq<Task>, x: string)
    requires UniqueIds(ts) && i < |ts| && us == ts[i := ts[i].(state := Merged)] && x != ts[i].id
    ensures IsVerified(us, x) <==> IsVerified(ts, x)
  {
    if j :| 0 <= j < |ts| && ts[j].id == x && ts[j].state == Verified { assert us[j] == ts[j]; }
    if j :| 0 <= j < |us| && us[j].id == x && us[j].state == Verified { assert us[j] == ts[j]; }
  }

  lemma {:induction false} SameFilter<T>(s: seq<T>, p: T -> bool, q: T -> bool)
    requires forall x :: x in s ==> p(x) == q(x)
    ensures Filter(s, p) == Filter(s, q)
  {
    if s != [] { SameFilter(s[1..], p, q); }
  }

  /** The first id is verified and merged. */
  lemma MergeFirst(ts: seq<Task>, log: seq<string>, order: seq<string>, w: GitWorld, i: nat, m: Merging, k: nat)
    requires UniqueIds(ts) && order != [] && Distinct(order) && i < |ts| && ts[i].id == order[0]
    requires ts[i].state == Verified && w.mergeOk(order[0]) && k <= |order[1..]|
    requires Reaches(ts[i := ts[i].(state := Merged)], order[1..], w, k)
    requires MergedTo(ts[i := ts[i].(state := Merged)], log + [order[0]], order[1..], m, k)
    ensures Reaches(ts, order, w, k + 1) && MergedTo(ts, log, order, m, k + 1)
  {
    var us := ts[i := ts[i].(state := Merged)];
    Rest(order, k);
    forall x | x in order[1..] ensures IsVerified(us, x) <==> IsVerified(ts, x) {
      SameVerified(ts, i, us, x);
    }
    assert IsVerified(ts, order[0]);
    MergeFirstReaches(ts, us, order, w, k);
    MergeFirstLog(ts, us, log, order, m, k);
    var ids := order[..k + 1];
    forall j | 0 <= j < |ts|
      ensures m.tasks[j] == if ts[j].state == Verified && ts[j].id in ids then ts[j].(state := Merged) else ts[j]
    {
      assert ts[j].id in ids <==> ts[j].id == order[0] || ts[j].id in order[1..][..k];
      if j != i { assert ts[j].id != ts[i].id by { if j < i { assert UniqueIds(ts); } } }
    }
  }

  lemma MergeFirstReaches(ts: seq<Task>, us: seq<Task>, order: seq<string>, w: GitWorld, k: nat)
    requires order != [] && IsVerified(ts, order[0]) && w.mergeOk(order[0]) && k <= |order[1..]|
    requires Reaches(us, order[1..], w, k)
    requires forall x :: x in order[1..] ==> (IsVerified(us, x) <==> IsVerified(ts, x))
    ensures Reaches(ts, order, w, k + 1)
  {
    forall j | 0 <= j < k + 1 && IsVerified(ts, order[j]) ensures w.mergeOk(order[j]) {
      if j > 0 { assert order[1..][j - 1] == order[j]; }
    }
    if k + 1 < |order| { assert order[1..][k] == order[k + 1]; }
  }

  lemma MergeFirstLog(ts: seq<Task>, us: seq<Task>, log: seq<string>, order: seq<string>, m: Merging, k: nat)
    requires order != [] && IsVerified(ts, order[0]) && k <= |order[1..]| && Distinct(order)
    requires m.log == log + [order[0]] + Filter(order[1..][..k], VerifiedIn(us))
    requires forall x :: x in order[1..] ==> (IsVerified(us, x) <==> IsVerified(ts, x))
    ensures m.log == log + Filter(order[..k + 1], VerifiedIn(ts))
  {
    var ids, tail := order[..k + 1], order[1..][..k];
    Rest(order, k);
    assert ids[1..] == tail && ids[0] == order[0];
    SameFilter(tail, VerifiedIn(us), VerifiedIn(ts));
    assert Filter(ids, VerifiedIn(ts)) == [order[0]] + Filter(tail, VerifiedIn(ts));
  }

  /** Merging along an order stops at the first verified task whose merge fails; the verified tasks before it are
      merged and logged, in that order, and nothing else changes. */
  lemma {:induction false} MergingMeans(ts: seq<Task>, log: seq<string>, order: seq<string>, w: GitWorld)
    returns (k: nat)
    requires UniqueIds(ts) && Distinct(order)
    ensures Reaches(ts, order, w, k) && MergedTo(ts, log, order, MergeAlong(ts, log, order, w), k)
    decreases |order|
  {
    if order == [] {
      k := 0;
    } else {
      var i := Find(ts, order[0]);
      VerifiedAt(ts, order[0]);
      if i == |ts| || ts[i].state != Verified {
        Rest(order, 0);
        assert MergeAlong(ts, log, order, w) == MergeAlong(ts, log, order[1..], w);
        k := MergingMeans(ts, log, order[1..], w);
        PassOver(ts, log, order, w, MergeAlong(ts, log, order[1..], w), k);
        k := k + 1;
      } else if !w.mergeOk(order[0]) {
        k := 0;
        assert order[..0] == [];
      } else {
        var us := ts[i := ts[i].(state := Merged)];
        Rest(order, 0);
        StillUnique(ts, i);
        assert MergeAlong(ts, log, order, w) == MergeAlong(us, log + [order[0]], order[1..], w);
        k := MergingMeans(us, log + [order[0]], order[1..], w);
        MergeFirst(ts, log, order, w, i, MergeAlong(us, log + [order[0]], order[1..], w), k);
        k := k + 1;
      }
    }
  }

  lemma StillUnique(ts: seq<Task>, i: nat)
    requires UniqueIds(ts) && i < |ts|
    ensures UniqueIds(ts[i := ts[i].(state := Merged)])
  {
  }

  // ---- the order ----

  /** Every id comes after the dependencies it has in the graph. */
  ghost predicate DependenciesFirst(g: Graph<string>, order: seq<string>, from: nat) {
    forall j, d :: from <= j < |order| && d in Deps(g, order[j]) ==> d in order[..j]
  }

  lemma {:induction false} WavesInOrder(g: Graph<string>, before: seq<string>, waves: seq<seq<string>>, k: nat)
    requires AreWaves(g, waves, k) && Elements(before) == Done(g, k) && Distinct(before)
    ensures Distinct(before + Flatten(waves)) && DependenciesFirst(g, before + Flatten(waves), |before|)
    ensures Elements(before + Flatten(waves)) == Done(g, k + |waves|)
    decreases |waves|
  {
    if waves == [] {
      assert before + [] == before;
    } else {
      var wave, more := waves[0], before + waves[0];
      assert IsWave(g, wave, k + 0);
      OneWave(g, before, wave, k);
      assert forall j: nat :: j < |waves[1..]| ==> waves[1..][j] == waves[j + 1];
      forall j: nat | j < |waves[1..]| ensures IsWave(g, waves[1..][j], k + 1 + j) {
        assert IsWave(g, waves[j + 1], k + (j + 1));
      }
      WavesInOrder(g, more, waves[1..], k + 1);
      assert before + Flatten(waves) == more + Flatten(waves[1..]);
      WaveDepends(g, before, wave, Flatten(waves[1..]), k);
    }
  }

  lemma OneWave(g: Graph<string>, before: seq<string>, wave: seq<string>, k: nat)
    requires IsWave(g, wave, k) && Elements(before) == Done(g, k) && Distinct(before)
    ensures Distinct(before + wave) && Elements(before + wave) == Done(g, k + 1)
  {
    forall i, j | 0 <= i < |before| && 0 <= j < |wave| ensures before[i] != wave[j] {
      assert before[i] in Elements(before) && wave[j] in Elements(wave);
    }
    assert Elements(before + wave) == Elements(before) + Elements(wave);
  }

  lemma WaveDepends(g: Graph<string>, before: seq<string>, wave: seq<string>, rest: seq<string>, k: nat)
    requires IsWave(g, wave, k) && Elements(before) == Done(g, k)
    requires DependenciesFirst(g, before + wave + rest, |before + wave|)
    ensures DependenciesFirst(g, before + wave + rest, |before|)
  {
    var order := before + wave + rest;
    forall j, d | |before| <= j < |order| && d in Deps(g, order[j]) ensures d in order[..j] {
      if j < |before + wave| {
        assert order[j] == wave[j - |before|] && order[j] in Elements(wave);
        assert d in Elements(g[order[j]]) && d in Elements(before);
        var m :| 0 <= m < |before| && before[m] == d;
        assert order[..j][m] == d;
      }
    }
  }

  /** order names every task once, after its dependencies. */
  ghost predicate MergeOrderOf(ts: seq<Task>, order: seq<string>) {
    Distinct(order) && DependenciesFirst(GraphOf(ts), order, 0) && Elements(order) == GraphOf(ts).Keys
  }

  lemma PlanIsMergeOrder(ts: seq<Task>)
    requires PlanOf(DependencyDict(ts)).Waves?
    ensures MergeOrderOf(ts, Flatten(PlanOf(DependencyDict(ts)).batches))
  {
    var g, b := GraphOf(ts), PlanOf(DependencyDict(ts)).batches;
    PlanExact(DependencyDict(ts));
    AllWavesInOrder(g, b);
    assert Done(g, |b|) == g.Keys;
  }

  lemma AllWavesInOrder(g: Graph<string>, waves: seq<seq<string>>)
    requires AreWaves(g, waves, 0)
    ensures Distinct(Flatten(waves)) && DependenciesFirst(g, Flatten(waves), 0)
    ensures Elements(Flatten(waves)) == Done(g, |waves|)
  {
    var none: seq<string> := [];
    assert Elements(none) == Done(g, 0);
    WavesInOrder(g, none, waves, 0);
    assert none + Flatten(waves) == Flatten(waves);
  }

  // ---- integration ----

  /** Refresh after merging us. */
  ghost predicate Refreshes(us: seq<Task>, vs: seq<Task>) {
    && |vs| == |us|
    && forall i :: 0 <= i < |us| ==> Settles(vs, us[i], vs[i], us[i].state) && vs[i] == us[i].(state := vs[i].state)
  }

  /** What merging along order as far as k leaves: everything merged and dependents refreshed, or an error and what
      was merged before it. */
  ghost predicate MergedAsFar(f: Fleet, g: Fleet, order: seq<string>, k: nat)
    requires k <= |order|
  {
    exists us ::
      && MergedAmong(f.tasks, us, order[..k])
      && var log := f.mergeLog + Filter(order[..k], VerifiedIn(f.tasks));
         if k == |order| then
           Refreshes(us, g.tasks) && g == f.(status := Integrating, tasks := g.tasks, mergeLog := log)
         else g == f.(status := RunFailed, verdict := IntegrationError, tasks := us, mergeLog := log)
  }

  /** Integration changes nothing on a conflict but the verdict, nothing but the verdict without a checkout or an
      acyclic plan, and otherwise merges the verified tasks in an order that has dependencies first, up to the first
      merge that fails. */
  lemma IntegrateMeans(f: Fleet, w: GitWorld) returns (order: seq<string>, k: nat)
    requires UniqueIds(f.tasks)
    ensures k <= |order|
    ensures var g := Integrate(f, w);
            if Clash(f.tasks, w) then g == f.(status := Integrating, verdict := OwnershipConflict)
            else if !w.checkoutOk || !Closed(GraphOf(f.tasks)) || HasCycle(GraphOf(f.tasks))
            then g == f.(status := RunFailed, verdict := IntegrationError)
            else MergeOrderOf(f.tasks, order) && Reaches(f.tasks, order, w, k) && MergedAsFar(f, g, order, k)
  {
    ConflictIsClash(f.tasks, w);
    PlanExact(DependencyDict(f.tasks));
    order, k := [], 0;
    if !Clash(f.tasks, w) && w.checkoutOk && PlanOf(DependencyDict(f.tasks)).Waves? {
      order := Flatten(PlanOf(DependencyDict(f.tasks)).batches);
      PlanIsMergeOrder(f.tasks);
      k := MergingMeans(f.tasks, f.mergeLog, order, w);
      MergedMeans(f, w, order, k);
    }
  }

  lemma RefreshRefreshes(us: seq<Task>)
    ensures Refreshes(us, Refreshed(us))
  {
    forall i | 0 <= i < |us|
      ensures Settles(Refreshed(us), us[i], Refreshed(us)[i], us[i].state)
      ensures Refreshed(us)[i] == us[i].(state := Refreshed(us)[i].state)
    {
      RefreshSettles(us, i);
    }
  }

  lemma IntegrateIs(f: Fleet, w: GitWorld, order: seq<string>)
    requires IsDisjoint(VerifiedBranches(f.tasks, w)) && w.checkoutOk && PlanOf(DependencyDict(f.tasks)).Waves?
    requires order == Flatten(PlanOf(DependencyDict(f.tasks)).batches)
    ensures var m := MergeAlong(f.tasks, f.mergeLog, order, w);
            Integrate(f, w) ==
              if m.ok then f.(status := Integrating, tasks := Refreshed(m.tasks), mergeLog := m.log)
              else f.(status := RunFailed, verdict := IntegrationError, tasks := m.tasks, mergeLog := m.log)
  {
  }

  lemma MergedMeans(f: Fleet, w: GitWorld, order: seq<string>, k: nat)
    requires IsDisjoint(VerifiedBranches(f.tasks, w)) && w.checkoutOk && PlanOf(DependencyDict(f.tasks)).Waves?
    requires order == Flatten(PlanOf(DependencyDict(f.tasks)).batches) && k <= |order|
    requires MergedTo(f.tasks, f.mergeLog, order, MergeAlong(f.tasks, f.mergeLog, order, w), k)
    ensures MergedAsFar(f, Integrate(f, w), order, k)
  {
    var m := MergeAlong(f.tasks, f.mergeLog, order, w);
    IntegrateIs(f, w, order);
    RefreshRefreshes(m.tasks);
    assert MergedAmong(f.tasks, m.tasks, order[..k]);
  }
}
