/** The four graph algorithms describe the same graph: cycle search, waves, depth labels, critical path. */
module Agreement {
  import opened Text
  import opened Dictionary
  import opened TaskGraph
  import opened CycleFinder
  import opened Layering
  import opened Batches
  import opened CriticalPath
  import opened FleetMetrics

  /** Layering succeeds exactly when the depth-first search reports nothing and no dependency dangles. */
  lemma SearchAndLayeringAgree(d: Dict<string, seq<string>>)
    requires d.Valid()
    ensures PlanOf(d).Waves? <==> FindCycles(d) == [] && Closed(d.table)
  {
    FindCyclesExact(d);
    PlanExact(d);
  }

  /** The i-th wave holds exactly the tasks whose longest dependency chain has i + 1 members. */
  lemma WaveHoldsChainLength(d: Dict<string, seq<string>>, i: nat, n: string)
    requires d.Valid() && PlanOf(d).Waves? && i < |PlanOf(d).batches|
    ensures n in PlanOf(d).batches[i] <==> n in d.table && LongestChain(d.table, n, i + 1)
  {
    var b := PlanOf(d).batches;
    PlanExact(d);
    assert IsWave(d.table, b[i], 0 + i);
    assert n in b[i] <==> n in Elements(b[i]);
    if n in d.table { WaveIsLongestChain(d.table, |b|, n); }
  }

  /** The waves partition the tasks. */
  lemma WavesPartition(d: Dict<string, seq<string>>, n: string) returns (i: nat)
    requires d.Valid() && PlanOf(d).Waves? && n in d.table
    ensures i < |PlanOf(d).batches|
    ensures forall j: nat :: j < |PlanOf(d).batches| ==> (n in PlanOf(d).batches[j] <==> j == i)
  {
    var b := PlanOf(d).batches;
    PlanExact(d);
    i := WaveOf(d.table, |b|, n);
    forall j: nat | j < |b| ensures n in b[j] <==> j == i {
      assert IsWave(d.table, b[j], 0 + j);
      assert n in b[j] <==> n in Elements(b[j]);
      WaveIsLongestChain(d.table, |b|, n);
      if LongestChain(d.table, n, j + 1) { LongestIsUnique(d.table, n, i + 1, j + 1); }
    }
  }

  lemma LongestIsUnique(g: Graph<string>, n: string, i: nat, j: nat)
    requires LongestChain(g, n, i) && LongestChain(g, n, j)
    ensures i == j
  {
    var p :| IsChain(g, p) && p[0] == n && |p| == i;
    var q :| IsChain(g, q) && q[0] == n && |q| == j;
  }

  /** A label that is the index of a wave is the position of the task's batch. */
  lemma LabelIsBatch(d: Dict<string, seq<string>>, n: string, depth: nat)
    requires d.Valid() && PlanOf(d).Waves? && n in Wave(d.table, Done(d.table, depth))
    ensures depth < |PlanOf(d).batches| && n in PlanOf(d).batches[depth]
  {
    var b := PlanOf(d).batches;
    PlanExact(d);
    var w := WaveOf(d.table, |b|, n);
    WaveIsLongestChain(d.table, |b|, n);
    LongestIsUnique(d.table, n, w + 1, depth + 1);
    assert IsWave(d.table, b[depth], 0 + depth);
    assert n in Elements(b[depth]);
  }

  /** With one time unit per task, the critical path is the number of waves of the plan. */
  lemma UnitTimeIsWaveCount(d: Dict<string, seq<string>>, dur: Durations<string>, r: real)
    requires d.Valid() && PlanOf(d).Waves? && Unit(d.table, dur) && IsCriticalPath(d.table, dur, r)
    ensures r == |PlanOf(d).batches| as real
  {
    PlanExact(d);
    UnitCriticalPathIsWaveCount(d.table, dur, r, |PlanOf(d).batches|);
  }
}
