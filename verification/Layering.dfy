/** Waves of tasks that can run concurrently (minifleet/architect.py, topological_batches). */
module Layering {
  import opened Text
  import opened TaskGraph

  /** The tasks outside done whose dependencies all lie inside it. */
  function Wave<N>(g: Graph<N>, done: set<N>): set<N> {
    set n | n in g && n !in done && Elements(g[n]) <= done
  }

  /** The tasks scheduled by the first k waves. */
  function Done<N>(g: Graph<N>, k: nat): set<N> {
    if k == 0 then {} else Done(g, k - 1) + Wave(g, Done(g, k - 1))
  }

  ghost predicate Productive<N>(g: Graph<N>, i: nat) {
    Wave(g, Done(g, i)) != {}
  }

  ghost predicate AllProductive<N>(g: Graph<N>, k: nat) {
    forall i: nat {:trigger Productive(g, i)} :: i < k ==> Productive(g, i)
  }

  /** k waves schedule the whole graph, none of them empty. */
  ghost predicate Layers<N>(g: Graph<N>, k: nat) {
    Done(g, k) == g.Keys && AllProductive(g, k)
  }

  lemma {:induction false} DoneGrows<N>(g: Graph<N>, i: nat, k: nat)
    requires i <= k
    ensures Done(g, i) <= Done(g, k) <= g.Keys
    decreases k
  {
    if i < k {
      DoneGrows(g, i, k - 1);
    } else if k > 0 {
      DoneGrows(g, k - 1, k - 1);
    }
  }

  /** A task is scheduled once its dependencies were: the wave of a task is above theirs. */
  lemma {:induction false} DoneDeps<N(!new)>(g: Graph<N>, k: nat, n: N, d: N)
    requires n in Done(g, k) && d in Deps(g, n)
    ensures k > 0 && d in Done(g, k - 1)
  {
    DoneGrows(g, k, k);
    if n in Done(g, k - 1) {
      DoneDeps(g, k - 1, n, d);
      DoneGrows(g, k - 2, k - 1);
    } else {
      assert d in Elements(g[n]);
    }
  }

  /** No walk from a task of the first k waves is longer than k. */
  lemma {:induction false} WalksAreShort<N(!new)>(g: Graph<N>, k: nat, p: seq<N>)
    requires IsWalk(g, p) && p[0] in Done(g, k)
    ensures |p| <= k && IsChain(g, p)
  {
    DoneGrows(g, k, k);
    if |p| > 1 {
      WalkOn(g, p);
      DoneDeps(g, k, p[0], p[1]);
      var q := p[1..];
      WalksAreShort(g, k - 1, q);
      forall i | 0 <= i < |p| ensures p[i] in g { if i > 0 { assert p[i] == q[i - 1]; } }
    }
  }

  /** A task of wave k starts a chain of k + 1 tasks. */
  lemma {:induction false} ChainOfWave<N(!new)>(g: Graph<N>, k: nat, n: N) returns (p: seq<N>)
    requires n in Wave(g, Done(g, k))
    ensures IsChain(g, p) && p[0] == n && |p| == k + 1
  {
    if k == 0 {
      p := [n];
    } else {
      var d := WaveNeedsPrevious(g, k, n);
      var q := ChainOfWave(g, k - 1, d);
      PrependWalk(g, n, q);
      p := [n] + q;
      forall i | 0 <= i < |p| ensures p[i] in g { if i > 0 { assert p[i] == q[i - 1]; } }
    }
  }

  /** A task that had to wait for wave k waited for a task of wave k - 1. */
  lemma WaveNeedsPrevious<N(!new)>(g: Graph<N>, k: nat, n: N) returns (d: N)
    requires k > 0 && n in Wave(g, Done(g, k))
    ensures d in Deps(g, n) && d in Wave(g, Done(g, k - 1))
  {
    assert n !in Done(g, k - 1);
    assert n !in Wave(g, Done(g, k - 1));
    assert !(Elements(g[n]) <= Done(g, k - 1));
    d :| d in Elements(g[n]) && d !in Done(g, k - 1);
    assert d in Done(g, k);
  }

  /** n starts a chain of length tasks, and no longer walk. */
  ghost predicate LongestChain<N(!new)>(g: Graph<N>, n: N, length: nat) {
    && (exists p :: IsChain(g, p) && p[0] == n && |p| == length)
    && forall p :: IsWalk(g, p) && p[0] == n ==> |p| <= length
  }

  /** The wave of a task is the length of its longest dependency chain. */
  lemma WaveIsLongestChain<N(!new)>(g: Graph<N>, k: nat, n: N)
    requires n in Done(g, k)
    ensures forall i: nat :: n in Wave(g, Done(g, i)) <==> LongestChain(g, n, i + 1)
  {
    var w := WaveOf(g, k, n);
    var p := ChainOfWave(g, w, n);
    forall q | IsWalk(g, q) && q[0] == n ensures |q| <= w + 1 {
      WalksAreShort(g, w + 1, q);
    }
    assert LongestChain(g, n, w + 1);
    forall i: nat ensures n in Wave(g, Done(g, i)) <==> LongestChain(g, n, i + 1) {
      if n in Wave(g, Done(g, i)) {
        if i < w { DoneGrows(g, i + 1, w); }
        if w < i { DoneGrows(g, w + 1, i); }
      }
      if LongestChain(g, n, i + 1) {
        var r :| IsChain(g, r) && r[0] == n && |r| == i + 1;
        assert |r| <= w + 1 && |p| <= i + 1;
      }
    }
  }

  lemma {:induction false} WaveOf<N(!new)>(g: Graph<N>, k: nat, n: N) returns (w: nat)
    requires n in Done(g, k)
    ensures w < k && n in Wave(g, Done(g, w))
  {
    if n in Done(g, k - 1) {
      w := WaveOf(g, k - 1, n);
    } else {
      w := k - 1;
    }
  }

  /** Layering can only get stuck on a cycle or on an undeclared dependency. */
  lemma StuckMeansCycle<N(!new)>(g: Graph<N>, k: nat)
    requires Closed(g) && Done(g, k) != g.Keys && Wave(g, Done(g, k)) == {}
    ensures HasCycle(g)
  {
    DoneGrows(g, k, k);
    var rest := g.Keys - Done(g, k);
    forall n | n in rest ensures DependsInto(g, n, rest) {
      assert n !in Wave(g, Done(g, k));
      var d :| d in Elements(g[n]) && d !in Done(g, k);
      assert d in g[n] && d in rest;
    }
    assert rest != {} by { assert Done(g, k) + rest == g.Keys; }
    NoSinkHasCycle(g, rest);
  }

  lemma {:induction false} LevelRank<N(!new)>(g: Graph<N>, k: nat) returns (rank: map<N, nat>)
    ensures rank.Keys == Done(g, k) && Ranks(g, rank)
    ensures forall n :: n in rank ==> rank[n] < k
  {
    if k == 0 {
      rank := map[];
    } else {
      var prev := LevelRank(g, k - 1);
      rank := map n | n in Done(g, k) :: if n in prev then prev[n] else k - 1;
      assert forall n :: n in prev ==> n in rank && rank[n] == prev[n];
      forall n, d | n in rank && d in Deps(g, n) ensures d in rank && rank[d] < rank[n] {
        if n in prev {
          assert d in prev && prev[d] < prev[n];
        } else {
          assert d in Elements(g[n]);
        }
      }
    }
  }

  /** A graph has a layering exactly when every dependency is declared and there is no cycle. */
  lemma LayeringExistsIff<N(!new)>(g: Graph<N>)
    ensures (exists k :: Layers(g, k)) <==> Closed(g) && !HasCycle(g)
  {
    if k: nat :| Layers(g, k) {
      var rank := LevelRank(g, k);
      RankedHasNoCycle(g, rank);
      forall n, d | n in g && d in g[n] ensures d in g {
        DoneDeps(g, k, n, d);
        DoneGrows(g, k - 1, k);
      }
    }
    if Closed(g) && !HasCycle(g) {
      var k := Progress(g, 0);
    }
  }

  lemma {:induction false} Progress<N(!new)>(g: Graph<N>, i: nat) returns (k: nat)
    requires Closed(g) && !HasCycle(g)
    requires AllProductive(g, i)
    ensures Layers(g, k)
    decreases |g.Keys - Done(g, i)|
  {
    DoneGrows(g, i, i);
    if Done(g, i) == g.Keys {
      k := i;
    } else {
      if !Productive(g, i) { StuckMeansCycle(g, i); }
      LessRemains(g, i);
      k := Progress(g, i + 1);
    }
  }

  lemma LessRemains<N>(g: Graph<N>, i: nat)
    requires Productive(g, i)
    ensures |g.Keys - Done(g, i + 1)| < |g.Keys - Done(g, i)|
  {
    var next, wave := g.Keys - Done(g, i + 1), Wave(g, Done(g, i));
    assert g.Keys - Done(g, i) == next + wave;
    assert |wave| > 0;
  }

  lemma AllDoneMeansNoWave<N>(g: Graph<N>, i: nat)
    requires Done(g, i) == g.Keys
    ensures !Productive(g, i)
  {
  }

  /** The number of waves is determined by the graph. */
  lemma LayersUnique<N(!new)>(g: Graph<N>, i: nat, k: nat)
    requires Layers(g, i) && Layers(g, k)
    ensures i == k
  {
    AllDoneMeansNoWave(g, i);
    AllDoneMeansNoWave(g, k);
  }
}
