/** The memoised longest path behind the fleet metrics (minifleet/fleetmetrics.py, critical_path_seconds). */
module CriticalPath {
  import opened Text
  import opened TaskGraph

  type Durations<N> = m: map<N, real> | forall n :: n in m ==> m[n] >= 0.0 witness map[]

  function Cost<N>(dur: Durations<N>, n: N): real {
    if n in dur then dur[n] else 0.0
  }

  /** Total duration along a list of tasks. */
  function Weight<N>(dur: Durations<N>, p: seq<N>): (w: real)
    ensures w >= 0.0
  {
    if p == [] then 0.0 else Cost(dur, p[0]) + Weight(dur, p[1..])
  }

  /** x is the weight of a dependency chain that starts at n and visits no task twice. */
  ghost predicate Attained<N(!new)>(g: Graph<N>, dur: Durations<N>, n: N, x: real, within: set<N>) {
    exists p :: IsChain(g, p) && p[0] == n && Distinct(p) && Weight(dur, p) == x && Elements(p) <= within
  }

  ghost predicate Dominates<N(!new)>(g: Graph<N>, dur: Durations<N>, n: N, x: real) {
    forall q :: IsChain(g, q) && q[0] == n ==> Weight(dur, q) <= x
  }

  /** Every stored value is the weight of a real chain; without cycles it is the largest one. */
  ghost predicate MemoInv<N(!new)>(g: Graph<N>, dur: Durations<N>, memo: map<N, real>) {
    && memo.Keys <= g.Keys
    && (forall n :: n in memo ==> Attained(g, dur, n, memo[n], memo.Keys) && memo[n] >= Cost(dur, n))
    && (!HasCycle(g) ==> forall n :: n in memo ==> Dominates(g, dur, n, memo[n]))
  }

  /** max, of a list of values that are never negative; 0 for the empty list. */
  function MaxOf(xs: seq<real>): (m: real)
    ensures forall i :: 0 <= i < |xs| ==> xs[i] <= m
    ensures xs != [] ==> m in xs
    ensures xs == [] ==> m == 0.0
  {
    if xs == [] then 0.0
    else if |xs| == 1 then xs[0]
    else
      var m := MaxOf(xs[1..]);
      assert forall i :: 0 < i < |xs| ==> xs[i] == xs[1..][i - 1];
      if xs[0] >= m then xs[0] else m
  }

  /** The call chain that leads to n: where `seen` comes from. */
  ghost predicate LeadsTo<N(!new)>(g: Graph<N>, trail: seq<N>, n: N) {
    trail != [] ==> IsWalk(g, trail) && n in Deps(g, trail[|trail| - 1])
  }

  lemma SeenMeansCycle<N(!new)>(g: Graph<N>, trail: seq<N>, n: N)
    requires LeadsTo(g, trail, n) && n in trail
    ensures HasCycle(g)
  {
    var i :| 0 <= i < |trail| && trail[i] == n;
    TailCycle(g, trail, i);
  }

  lemma LeadsOn<N(!new)>(g: Graph<N>, trail: seq<N>, n: N, d: N)
    requires LeadsTo(g, trail, n) && d in Deps(g, n)
    ensures LeadsTo(g, trail + [n], d) && Elements(trail + [n]) == Elements(trail) + {n}
  {
    if trail != [] { ExtendWalk(g, trail, n); }
  }

  /** What the values collected for the first i dependencies of n mean. */
  ghost predicate Collected<N(!new)>(g: Graph<N>, memo: map<N, real>, n: N, i: nat, parents: seq<real>)
    requires i <= |Deps(g, n)|
  {
    && (forall v :: v in parents ==> v == 0.0 || exists d :: d in Deps(g, n) && d in memo && v == memo[d])
    && (!HasCycle(g) ==> forall j :: 0 <= j < i && Deps(g, n)[j] in g ==>
          Deps(g, n)[j] in memo && memo[Deps(g, n)[j]] in parents)
  }

  lemma NewAttained<N(!new)>(g: Graph<N>, dur: Durations<N>, memo: map<N, real>, n: N, parents: seq<real>)
    requires MemoInv(g, dur, memo) && n in g && n !in memo
    requires Collected(g, memo, n, |Deps(g, n)|, parents)
    ensures Attained(g, dur, n, Cost(dur, n) + MaxOf(parents), memo.Keys + {n})
  {
    var m := MaxOf(parents);
    if m == 0.0 {
      var p := [n];
      assert Weight(dur, p) == Cost(dur, n) + Weight(dur, p[1..]);
      assert Elements(p) == {n};
    } else {
      var d :| d in Deps(g, n) && d in memo && m == memo[d];
      var p :| IsChain(g, p) && p[0] == d && Distinct(p) && Weight(dur, p) == memo[d] && Elements(p) <= memo.Keys;
      var q := [n] + p;
      PrependWalk(g, n, p);
      assert q[1..] == p;
      assert Elements(q) == Elements(p) + {n};
      assert Distinct(q) by {
        forall j | 0 <= j < |p| ensures p[j] != n { assert p[j] in Elements(p); }
      }
    }
  }

  lemma NewDominates<N(!new)>(g: Graph<N>, dur: Durations<N>, memo: map<N, real>, n: N, parents: seq<real>)
    requires MemoInv(g, dur, memo) && !HasCycle(g)
    requires Collected(g, memo, n, |Deps(g, n)|, parents) && MaxOf(parents) >= 0.0
    ensures Dominates(g, dur, n, Cost(dur, n) + MaxOf(parents))
  {
    forall q | IsChain(g, q) && q[0] == n
      ensures Weight(dur, q) <= Cost(dur, n) + MaxOf(parents)
    {
      if |q| > 1 {
        WalkOn(g, q);
        var j :| 0 <= j < |Deps(g, n)| && Deps(g, n)[j] == q[1];
        assert Weight(dur, q[1..]) <= memo[q[1]];
      } else {
        assert Weight(dur, q[1..]) == 0.0;
      }
    }
  }

  lemma MemoNext<N(!new)>(g: Graph<N>, dur: Durations<N>, memo: map<N, real>, n: N, x: real)
    requires MemoInv(g, dur, memo) && n in g && n !in memo && x >= Cost(dur, n)
    requires Attained(g, dur, n, x, memo.Keys + {n})
    requires !HasCycle(g) ==> Dominates(g, dur, n, x)
    ensures MemoInv(g, dur, memo[n := x])
  {
    var memo' := memo[n := x];
    assert memo'.Keys == memo.Keys + {n};
    forall k | k in memo' ensures Attained(g, dur, k, memo'[k], memo'.Keys) && memo'[k] >= Cost(dur, k) {
      if k != n {
        assert Attained(g, dur, k, memo[k], memo.Keys);
        var p :| IsChain(g, p) && p[0] == k && Distinct(p) && Weight(dur, p) == memo[k] && Elements(p) <= memo.Keys;
        assert Elements(p) <= memo'.Keys;
      }
    }
  }

  class PathMemo<N(==,!new)> {
    const graph: Graph<N>
    const duration: Durations<N>
    var memo: map<N, real>

    constructor (g: Graph<N>, dur: Durations<N>)
      ensures graph == g && duration == dur && memo == map[]
    {
      graph, duration, memo := g, dur, map[];
    }

    method Longest(n: N, seen: set<N>, ghost trail: seq<N>) returns (total: real)
      requires MemoInv(graph, duration, memo)
      requires seen == Elements(trail) && seen <= graph.Keys && seen !! memo.Keys
      requires LeadsTo(graph, trail, n)
      modifies this
      ensures MemoInv(graph, duration, memo) && seen !! memo.Keys
      ensures old(memo).Keys <= memo.Keys && forall k :: k in old(memo) ==> memo[k] == old(memo)[k]
      ensures n in graph && n !in seen ==> n in memo && total == memo[n]
      ensures n !in graph || n in seen ==> total == 0.0
      decreases graph.Keys - seen
    {
      if n in memo {
        return memo[n];
      }
      if n in seen {
        return 0.0;
      }
      if n !in graph {
        return 0.0;
      }
      var deps := graph[n];
      var parents: seq<real> := [];
      for i := 0 to |deps|
        invariant MemoInv(graph, duration, memo) && (seen + {n}) !! memo.Keys
        invariant old(memo).Keys <= memo.Keys && forall k :: k in old(memo) ==> memo[k] == old(memo)[k]
        invariant Collected(graph, memo, n, i, parents)
      {
        var d := deps[i];
        if d in graph {
          LeadsOn(graph, trail, n, d);
          if d in seen + {n} { SeenMeansCycle(graph, trail + [n], d); }
          ghost var before := memo;
          var v := Longest(d, seen + {n}, trail + [n]);
          CollectedNext(graph, before, memo, n, i, parents, v);
          parents := parents + [v];
        }
      }
      NonNegative(graph, duration, memo, n, parents);
      NewAttained(graph, duration, memo, n, parents);
      total := Cost(duration, n) + MaxOf(parents);
      if !HasCycle(graph) { NewDominates(graph, duration, memo, n, parents); }
      MemoNext(graph, duration, memo, n, total);
      memo := memo[n := total];
    }
  }

  lemma NonNegative<N(!new)>(g: Graph<N>, dur: Durations<N>, memo: map<N, real>, n: N, parents: seq<real>)
    requires MemoInv(g, dur, memo) && Collected(g, memo, n, |Deps(g, n)|, parents)
    ensures MaxOf(parents) >= 0.0
  {
    if parents != [] {
      var m := MaxOf(parents);
      if m != 0.0 {
        var d :| d in Deps(g, n) && d in memo && m == memo[d];
        assert Attained(g, dur, d, memo[d], memo.Keys);
      }
    }
  }

  lemma CollectedNext<N(!new)>(g: Graph<N>, before: map<N, real>, memo: map<N, real>, n: N, i: nat,
                        parents: seq<real>, v: real)
    requires i < |Deps(g, n)| && Collected(g, before, n, i, parents)
    requires before.Keys <= memo.Keys && forall k :: k in before ==> memo[k] == before[k]
    requires v == 0.0 || (Deps(g, n)[i] in memo && v == memo[Deps(g, n)[i]])
    requires !HasCycle(g) ==> Deps(g, n)[i] in memo && v == memo[Deps(g, n)[i]]
    ensures Collected(g, memo, n, i + 1, parents + [v])
  {
    var deps, ps := Deps(g, n), parents + [v];
    forall x | x in ps ensures x == 0.0 || exists d :: d in deps && d in memo && x == memo[d] {
      if x in parents && x != 0.0 {
        var d :| d in deps && d in before && x == before[d];
        assert d in memo && x == memo[d];
      } else if x != 0.0 {
        assert deps[i] in deps;
      }
    }
    if !HasCycle(g) {
      forall j | 0 <= j < i + 1 && deps[j] in g ensures deps[j] in memo && memo[deps[j]] in ps {
        if j < i { assert before[deps[j]] in parents; }
        assert ps[|parents|] == v;
      }
    }
  }
}
