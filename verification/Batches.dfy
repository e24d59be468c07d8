/** The waves themselves, in the order in which integration walks them. */
module Batches {
  import opened Text
  import opened Dictionary
  import opened TaskGraph
  import opened Layering

  /** Either the waves, or the tasks left over when no task can be scheduled. */
  datatype Plan = Waves(batches: seq<seq<string>>) | NotADag(left: seq<string>)

  /** The members of s in the order of keys. */
  function Select(keys: seq<string>, s: set<string>): seq<string> {
    if keys == [] then []
    else (if keys[0] in s then [keys[0]] else []) + Select(keys[1..], s)
  }

  lemma {:induction false} SelectMembers(keys: seq<string>, s: set<string>, x: string)
    ensures x in Select(keys, s) <==> x in keys && x in s
  {
    if keys != [] {
      assert keys == [keys[0]] + keys[1..];
      SelectMembers(keys[1..], s, x);
    }
  }

  lemma SelectElements(keys: seq<string>, s: set<string>)
    ensures Elements(Select(keys, s)) == Elements(keys) * s
  {
    forall x ensures x in Elements(Select(keys, s)) <==> x in Elements(keys) * s {
      SelectMembers(keys, s, x);
    }
  }

  lemma {:induction false} SelectDistinct(keys: seq<string>, s: set<string>)
    requires Distinct(keys)
    ensures Distinct(Select(keys, s))
  {
    if keys != [] {
      SelectDistinct(keys[1..], s);
      var rest := Select(keys[1..], s);
      forall j | 0 <= j < |rest| ensures rest[j] != keys[0] {
        SelectMembers(keys[1..], s, rest[j]);
      }
    }
  }

  function NextWave(d: Dict<string, seq<string>>, done: set<string>): seq<string> {
    Sort(Select(d.keys, Wave(d.table, done)))
  }

  lemma NextWaveMembers(d: Dict<string, seq<string>>, done: set<string>)
    requires d.Valid()
    ensures Elements(NextWave(d, done)) == Wave(d.table, done)
    ensures Distinct(NextWave(d, done)) && Sorted(NextWave(d, done))
  {
    var w := Wave(d.table, done);
    SelectElements(d.keys, w);
    SelectDistinct(d.keys, w);
    SortCorrect(Select(d.keys, w));
    SortKeepsElements(Select(d.keys, w));
    assert Elements(d.keys) * w == w;
  }

  lemma WaveShrinksRest(d: Dict<string, seq<string>>, done: set<string>)
    requires d.Valid() && NextWave(d, done) != []
    ensures |d.table.Keys - (done + Wave(d.table, done))| < |d.table.Keys - done|
  {
    NextWaveMembers(d, done);
    var w := Wave(d.table, done);
    assert NextWave(d, done)[0] in w;
    assert d.table.Keys - done == (d.table.Keys - (done + w)) + w;
  }

  /** The waves still to come once done has been scheduled. */
  function WavesFrom(d: Dict<string, seq<string>>, done: set<string>): Plan
    requires d.Valid()
    decreases |d.table.Keys - done|
  {
    if d.table.Keys <= done then Waves([])
    else if NextWave(d, done) == [] then NotADag(Sort(Select(d.keys, d.table.Keys - done)))
    else
      WaveShrinksRest(d, done);
      match WavesFrom(d, done + Wave(d.table, done))
      case Waves(rest) => Waves([NextWave(d, done)] + rest)
      case NotADag(left) => NotADag(left)
  }

  function PlanOf(d: Dict<string, seq<string>>): Plan
    requires d.Valid()
  {
    WavesFrom(d, {})
  }

  /** The i-th list holds exactly the i-th wave, sorted by id. */
  ghost predicate IsWave(g: Graph<string>, wave: seq<string>, i: nat) {
    Elements(wave) == Wave(g, Done(g, i)) && Distinct(wave) && Sorted(wave)
  }

  ghost predicate AreWaves(g: Graph<string>, b: seq<seq<string>>, i: nat) {
    forall j: nat {:trigger b[j]} :: j < |b| ==> IsWave(g, b[j], i + j)
  }

  /** The left-over tasks are those outside k waves, and no further task can be scheduled. */
  ghost predicate IsStuck(d: Dict<string, seq<string>>, left: seq<string>, k: nat) {
    Elements(left) == d.table.Keys - Done(d.table, k) && left != [] && !Productive(d.table, k)
  }

  ghost predicate StuckSomewhere(d: Dict<string, seq<string>>, left: seq<string>) {
    exists k: nat :: IsStuck(d, left, k)
  }

  lemma StuckNow(d: Dict<string, seq<string>>, i: nat)
    requires d.Valid() && !(d.table.Keys <= Done(d.table, i)) && NextWave(d, Done(d.table, i)) == []
    ensures Faithful(d, i, WavesFrom(d, Done(d.table, i)))
  {
    var done := Done(d.table, i);
    var rest := d.table.Keys - done;
    NextWaveMembers(d, done);
    assert !Productive(d.table, i);
    SelectElements(d.keys, rest);
    SortKeepsElements(Select(d.keys, rest));
    assert Elements(d.keys) * rest == rest;
    var left := Sort(Select(d.keys, rest));
    assert left != [] by {
      var x :| x in d.table.Keys && x !in done;
      assert x in Elements(left);
    }
    assert IsStuck(d, left, i);
  }

  lemma OneMoreWave(d: Dict<string, seq<string>>, i: nat)
    requires d.Valid() && NextWave(d, Done(d.table, i)) != [] && AllProductive(d.table, i)
    ensures AllProductive(d.table, i + 1)
    ensures IsWave(d.table, NextWave(d, Done(d.table, i)), i)
  {
    var done := Done(d.table, i);
    NextWaveMembers(d, done);
    assert NextWave(d, done)[0] in Wave(d.table, done);
    assert Productive(d.table, i);
  }

  /** From wave i on: either the plan lists all waves to come, or the graph is stuck. */
  ghost predicate Faithful(d: Dict<string, seq<string>>, i: nat, p: Plan) {
    match p
    case Waves(b) => Layers(d.table, i + |b|) && AreWaves(d.table, b, i)
    case NotADag(left) => StuckSomewhere(d, left)
  }

  lemma {:induction false} WavesFromExact(d: Dict<string, seq<string>>, i: nat)
    requires d.Valid() && AllProductive(d.table, i)
    ensures Faithful(d, i, WavesFrom(d, Done(d.table, i)))
    decreases |d.table.Keys - Done(d.table, i)|
  {
    var g, done := d.table, Done(d.table, i);
    if g.Keys <= done {
      NothingToCome(d, i);
    } else if NextWave(d, done) == [] {
      StuckNow(d, i);
    } else {
      WaveShrinksRest(d, done);
      OneMoreWave(d, i);
      WavesFromExact(d, i + 1);
      FaithfulStep(d, i, WavesFrom(d, Done(g, i + 1)));
    }
  }

  lemma NothingToCome(d: Dict<string, seq<string>>, i: nat)
    requires AllProductive(d.table, i) && d.table.Keys <= Done(d.table, i)
    ensures Faithful(d, i, Waves([]))
  {
    DoneGrows(d.table, i, i);
  }

  lemma FaithfulStep(d: Dict<string, seq<string>>, i: nat, p: Plan)
    requires d.Valid() && Faithful(d, i + 1, p)
    requires IsWave(d.table, NextWave(d, Done(d.table, i)), i)
    ensures p.Waves? ==> Faithful(d, i, Waves([NextWave(d, Done(d.table, i))] + p.batches))
    ensures p.NotADag? ==> Faithful(d, i, p)
  {
    if p.Waves? {
      var b := [NextWave(d, Done(d.table, i))] + p.batches;
      assert i + |b| == i + 1 + |p.batches|;
      assert Layers(d.table, i + |b|);
      PrependedWaves(d.table, NextWave(d, Done(d.table, i)), p.batches, i);
    }
  }

  lemma PrependedWaves(g: Graph<string>, w: seq<string>, rest: seq<seq<string>>, i: nat)
    requires IsWave(g, w, i) && AreWaves(g, rest, i + 1)
    ensures AreWaves(g, [w] + rest, i)
  {
    var b := [w] + rest;
    forall j: nat | j < |b| ensures IsWave(g, b[j], i + j) {
      if j > 0 { assert IsWave(g, rest[j - 1], i + 1 + (j - 1)); }
    }
  }

  /** Layering succeeds exactly on the closed graphs without a cycle. */
  lemma PlanExact(d: Dict<string, seq<string>>)
    requires d.Valid()
    ensures PlanOf(d).Waves? <==> Closed(d.table) && !HasCycle(d.table)
    ensures PlanOf(d).Waves? ==> Layers(d.table, |PlanOf(d).batches|) && AreWaves(d.table, PlanOf(d).batches, 0)
    ensures PlanOf(d).NotADag? ==> StuckSomewhere(d, PlanOf(d).left)
  {
    WavesFromExact(d, 0);
    assert Faithful(d, 0, PlanOf(d));
    LayeringExistsIff(d.table);
    if PlanOf(d).NotADag? && Closed(d.table) {
      StuckPlan(d, PlanOf(d).left);
    }
  }

  lemma StuckPlan(d: Dict<string, seq<string>>, left: seq<string>)
    requires d.Valid() && Closed(d.table) && StuckSomewhere(d, left)
    ensures HasCycle(d.table)
  {
    var k: nat :| IsStuck(d, left, k);
    assert left[0] in Elements(left);
    StuckMeansCycle(d.table, k);
  }

  lemma {:induction false} SelectSnoc(keys: seq<string>, k: string, s: set<string>)
    ensures Select(keys + [k], s) == Select(keys, s) + if k in s then [k] else []
  {
    if keys != [] {
      assert (keys + [k])[1..] == keys[1..] + [k];
      SelectSnoc(keys[1..], k, s);
    }
  }

  lemma {:induction false} SelectAll(keys: seq<string>, s: set<string>)
    requires Elements(keys) <= s
    ensures Select(keys, s) == keys
  {
    if keys != [] {
      assert keys[0] in Elements(keys);
      assert Elements(keys[1..]) <= Elements(keys);
      SelectAll(keys[1..], s);
    }
  }

  /** Selecting from a selection is selecting from the intersection. */
  lemma {:induction false} SelectTwice(keys: seq<string>, s: set<string>, t: set<string>)
    ensures Select(Select(keys, s), t) == Select(keys, s * t)
  {
    if keys != [] {
      var rest := Select(keys[1..], s);
      SelectTwice(keys[1..], s, t);
      if keys[0] in s {
        assert ([keys[0]] + rest)[1..] == rest;
      } else {
        assert [] + rest == rest;
      }
    }
  }

  /** The wave the loop body collects from what remains. */
  method CollectWave(d: Dict<string, seq<string>>, done: set<string>, remaining: seq<string>)
    returns (wave: seq<string>)
    requires d.Valid() && remaining == Select(d.keys, d.table.Keys - done)
    ensures Sort(wave) == NextWave(d, done)
  {
    ghost var w := Wave(d.table, done);
    wave := [];
    for i := 0 to |remaining|
      invariant wave == Select(remaining[..i], w)
    {
      var n := remaining[i];
      SelectSnoc(remaining[..i], n, w);
      assert remaining[..i] + [n] == remaining[..i + 1];
      SelectMembers(d.keys, d.table.Keys - done, n);
      if Elements(d.table[n]) <= done {
        wave := wave + [n];
      }
    }
    assert remaining[..|remaining|] == remaining;
    SelectTwice(d.keys, d.table.Keys - done, w);
    assert (d.table.Keys - done) * w == w;
  }

  /** The plan when the waves so far are followed by what done leaves over. */
  ghost predicate Agrees(d: Dict<string, seq<string>>, batches: seq<seq<string>>, done: set<string>)
    requires d.Valid()
  {
    match WavesFrom(d, done)
    case Waves(rest) => PlanOf(d) == Waves(batches + rest)
    case NotADag(left) => PlanOf(d) == NotADag(left)
  }

  lemma AgreesNext(d: Dict<string, seq<string>>, batches: seq<seq<string>>, done: set<string>, wave: seq<string>)
    requires d.Valid() && Agrees(d, batches, done) && !(d.table.Keys <= done)
    requires wave == NextWave(d, done) && wave != []
    ensures Agrees(d, batches + [wave], done + Elements(wave))
  {
    NextWaveMembers(d, done);
    match WavesFrom(d, done + Elements(wave))
    case Waves(rest) => Regroup(batches, wave, rest);
    case NotADag(left) =>
  }

  lemma Regroup<T>(a: seq<T>, x: T, b: seq<T>)
    ensures a + ([x] + b) == (a + [x]) + b
  {
  }

  lemma AgreesAtEnd(d: Dict<string, seq<string>>, batches: seq<seq<string>>, done: set<string>)
    requires d.Valid() && Agrees(d, batches, done) && d.table.Keys <= done
    ensures PlanOf(d) == Waves(batches)
  {
    assert WavesFrom(d, done) == Waves([]);
    assert batches + [] == batches;
  }

  lemma AgreesStuck(d: Dict<string, seq<string>>, batches: seq<seq<string>>, done: set<string>)
    requires d.Valid() && Agrees(d, batches, done) && !(d.table.Keys <= done) && NextWave(d, done) == []
    ensures PlanOf(d) == NotADag(Sort(Select(d.keys, d.table.Keys - done)))
  {
  }

  method TopologicalBatches(d: Dict<string, seq<string>>) returns (p: Plan)
    requires d.Valid()
    ensures p == PlanOf(d)
  {
    var remaining := d.keys;
    var done: set<string> := {};
    var batches: seq<seq<string>> := [];
    SelectAll(d.keys, d.table.Keys - {});
    while remaining != []
      invariant remaining == Select(d.keys, d.table.Keys - done)
      invariant Agrees(d, batches, done)
      decreases |d.table.Keys - done|
    {
      SelectMembers(d.keys, d.table.Keys - done, remaining[0]);
      assert remaining[0] in d.table.Keys && remaining[0] !in done;
      var wave := CollectWave(d, done, remaining);
      SortKeepsElements(wave);
      if wave == [] {
        AgreesStuck(d, batches, done);
        return NotADag(Sort(remaining));
      }
      RemainingNext(d, done, wave);
      AgreesNext(d, batches, done, Sort(wave));
      batches := batches + [Sort(wave)];
      done := done + Elements(wave);
      remaining := Select(remaining, d.table.Keys - Elements(wave));
    }
    NothingRemains(d, done);
    AgreesAtEnd(d, batches, done);
    return Waves(batches);
  }

  lemma RemainingNext(d: Dict<string, seq<string>>, done: set<string>, wave: seq<string>)
    requires d.Valid() && Sort(wave) == NextWave(d, done) && wave != []
    ensures Elements(Sort(wave)) == Elements(wave)
    ensures Select(Select(d.keys, d.table.Keys - done), d.table.Keys - Elements(wave))
         == Select(d.keys, d.table.Keys - (done + Elements(wave)))
    ensures |d.table.Keys - (done + Elements(wave))| < |d.table.Keys - done|
  {
    SortKeepsElements(wave);
    NextWaveMembers(d, done);
    WaveShrinksRest(d, done);
    SelectTwice(d.keys, d.table.Keys - done, d.table.Keys - Elements(wave));
    assert (d.table.Keys - done) * (d.table.Keys - Elements(wave)) == d.table.Keys - (done + Elements(wave));
  }

  lemma NothingRemains(d: Dict<string, seq<string>>, done: set<string>)
    requires d.Valid() && Select(d.keys, d.table.Keys - done) == []
    ensures d.table.Keys <= done
  {
    forall n | n in d.table ensures n in done {
      assert n in Elements(d.keys);
      SelectMembers(d.keys, d.table.Keys - done, n);
    }
  }
}
