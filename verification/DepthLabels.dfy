/** The dependency depth drawn by the report (minifleet/report.py, _dag_svg.compute). */
module DepthLabels {
  import opened Options
  import opened Text
  import opened Dictionary
  import opened TaskGraph
  import opened Layering
  import opened CriticalPath

  /** On a graph that design accepts, a stored depth counts the edges of the longest chain. */
  ghost predicate DepthInv<N(!new)>(g: Graph<N>, depth: map<N, nat>) {
    depth.Keys <= g.Keys && (!HasCycle(g) && Closed(g) ==> forall n :: n in depth ==> LongestChain(g, n, depth[n] + 1))
  }

  /** The depths of the first i dependencies of n, n among its ancestors. */
  ghost predicate DepthsOf<N(!new)>(g: Graph<N>, depth: map<N, nat>, n: N, i: nat, values: seq<nat>)
    requires i <= |Deps(g, n)|
  {
    |values| == i && (!HasCycle(g) && Closed(g) ==> forall j :: 0 <= j < i ==>
      Deps(g, n)[j] in depth && values[j] == depth[Deps(g, n)[j]])
  }

  ghost predicate Extends<N>(before: map<N, nat>, after: map<N, nat>) {
    forall k :: k in before ==> k in after && after[k] == before[k]
  }

  function MaxNat(xs: seq<nat>): (m: nat)
    requires xs != []
    ensures forall i :: 0 <= i < |xs| ==> xs[i] <= m
    ensures m in xs
  {
    if |xs| == 1 then xs[0]
    else
      var m := MaxNat(xs[1..]);
      assert forall i :: 0 < i < |xs| ==> xs[i] == xs[1..][i - 1];
      if xs[0] >= m then xs[0] else m
  }

  lemma LeafDepth<N(!new)>(g: Graph<N>, n: N)
    requires n in g && g[n] == []
    ensures LongestChain(g, n, 1)
  {
    assert IsChain(g, [n]) && [n][0] == n;
    forall p | IsWalk(g, p) && p[0] == n ensures |p| <= 1 {
      if |p| > 1 { WalkOn(g, p); }
    }
  }

  lemma ChainThroughDeepest<N(!new)>(g: Graph<N>, depth: map<N, nat>, n: N, values: seq<nat>)
    requires n in g && g[n] != [] && DepthInv(g, depth) && DepthsOf(g, depth, n, |g[n]|, values)
    requires Closed(g) && !HasCycle(g)
    ensures exists p :: IsChain(g, p) && p[0] == n && |p| == MaxNat(values) + 2
  {
    var m := MaxNat(values);
    var j :| 0 <= j < |values| && values[j] == m;
    var d := g[n][j];
    assert LongestChain(g, d, depth[d] + 1);
    var p :| IsChain(g, p) && p[0] == d && |p| == m + 1;
    PrependWalk(g, n, p);
    assert IsChain(g, [n] + p) && ([n] + p)[0] == n;
  }

  lemma WalkWithinDeepest<N(!new)>(g: Graph<N>, depth: map<N, nat>, n: N, values: seq<nat>, q: seq<N>)
    requires n in g && g[n] != [] && DepthInv(g, depth) && DepthsOf(g, depth, n, |g[n]|, values)
    requires Closed(g) && !HasCycle(g) && IsWalk(g, q) && q[0] == n
    ensures |q| <= MaxNat(values) + 2
  {
    if |q| > 1 {
      WalkOn(g, q);
      var i :| 0 <= i < |g[n]| && g[n][i] == q[1];
      assert LongestChain(g, q[1], depth[q[1]] + 1) && values[i] <= MaxNat(values);
      assert |q[1..]| <= depth[q[1]] + 1;
    }
  }

  lemma DeeperDepth<N(!new)>(g: Graph<N>, depth: map<N, nat>, n: N, values: seq<nat>)
    requires n in g && g[n] != [] && Closed(g) && !HasCycle(g)
    requires DepthInv(g, depth) && DepthsOf(g, depth, n, |g[n]|, values)
    ensures LongestChain(g, n, MaxNat(values) + 2)
  {
    ChainThroughDeepest(g, depth, n, values);
    forall q | IsWalk(g, q) && q[0] == n ensures |q| <= MaxNat(values) + 2 {
      WalkWithinDeepest(g, depth, n, values, q);
    }
  }

  lemma NextDepth<N(!new)>(g: Graph<N>, depth: map<N, nat>, depth': map<N, nat>, n: N, i: nat, values: seq<nat>, v: nat)
    requires i < |Deps(g, n)| && DepthsOf(g, depth, n, i, values) && Extends(depth, depth')
    requires !HasCycle(g) && Closed(g) ==> Deps(g, n)[i] in depth' && v == depth'[Deps(g, n)[i]]
    ensures DepthsOf(g, depth', n, i + 1, values + [v])
  {
  }

  class DepthMemo<N(==,!new)> {
    const graph: Graph<N>
    var depth: map<N, nat>

    constructor (g: Graph<N>)
      ensures graph == g && depth == map[]
    {
      graph, depth := g, map[];
    }

    /** None is the KeyError the source raises for an id that no task carries. */
    method Compute(n: N, seen: set<N>, ghost trail: seq<N>) returns (r: Option<nat>)
      requires DepthInv(graph, depth)
      requires seen == Elements(trail) && seen <= graph.Keys && LeadsTo(graph, trail, n)
      modifies this
      ensures DepthInv(graph, depth) && Extends(old(depth), depth)
      ensures n in graph && Closed(graph) ==> r.Some?
      ensures r.Some? && !HasCycle(graph) ==> n in depth && r.value == depth[n]
      decreases graph.Keys - seen, 1
    {
      if n in depth {
        return Some(depth[n]);
      }
      if n in seen {
        SeenMeansCycle(graph, trail, n);
        return Some(0);
      }
      if n !in graph {
        return None;
      }
      var value := 0;
      if graph[n] == [] {
        LeafDepth(graph, n);
      } else {
        var values := ComputeAll(n, seen, trail);
        if values.None? {
          return None;
        }
        value := 1 + MaxNat(values.value);
        if !HasCycle(graph) && Closed(graph) { DeeperDepth(graph, depth, n, values.value); }
      }
      assert DepthInv(graph, depth[n := value]);
      depth := depth[n := value];
      return Some(value);
    }

    /** The depths of all dependencies of n, in their order. */
    method ComputeAll(n: N, seen: set<N>, ghost trail: seq<N>) returns (r: Option<seq<nat>>)
      requires DepthInv(graph, depth) && n in graph && n !in seen
      requires seen == Elements(trail) && seen <= graph.Keys && LeadsTo(graph, trail, n)
      modifies this
      ensures DepthInv(graph, depth) && Extends(old(depth), depth)
      ensures Closed(graph) ==> r.Some?
      ensures r.Some? ==> DepthsOf(graph, depth, n, |graph[n]|, r.value)
      decreases graph.Keys - seen, 0
    {
      var deps := graph[n];
      var values: seq<nat> := [];
      for i := 0 to |deps|
        invariant DepthInv(graph, depth) && Extends(old(depth), depth)
        invariant DepthsOf(graph, depth, n, i, values)
      {
        LeadsOn(graph, trail, n, deps[i]);
        assert deps[i] in graph[n];
        ghost var before := depth;
        var v := Compute(deps[i], seen + {n}, trail + [n]);
        if v.None? {
          return None;
        }
        NextDepth(graph, before, depth, n, i, values, v.value);
        values := values + [v.value];
      }
      return Some(values);
    }
  }

  /** On a closed acyclic graph the report's depth of a task is the index of its wave. */
  method LabelDepths(d: Dict<string, seq<string>>) returns (r: Option<map<string, nat>>)
    requires d.Valid()
    ensures Closed(d.table) ==> r.Some?
    ensures r.Some? && Closed(d.table) && !HasCycle(d.table) ==> r.value.Keys == d.table.Keys
    ensures r.Some? && Closed(d.table) && !HasCycle(d.table) ==>
              forall n :: n in d.table ==> n in Wave(d.table, Done(d.table, r.value[n]))
  {
    var memo := new DepthMemo(d.table);
    for i := 0 to |d.keys|
      invariant DepthInv(d.table, memo.depth)
      invariant !HasCycle(d.table) ==> forall j :: 0 <= j < i ==> d.keys[j] in memo.depth
    {
      assert d.keys[i] in Elements(d.keys);
      var v := memo.Compute(d.keys[i], {}, []);
      if v.None? {
        return None;
      }
    }
    r := Some(memo.depth);
    if Closed(d.table) && !HasCycle(d.table) {
      DepthIsWave(d, memo.depth);
    }
  }

  lemma DepthIsWave(d: Dict<string, seq<string>>, depth: map<string, nat>)
    requires d.Valid() && Closed(d.table) && !HasCycle(d.table) && DepthInv(d.table, depth)
    requires forall j :: 0 <= j < |d.keys| ==> d.keys[j] in depth
    ensures depth.Keys == d.table.Keys
    ensures forall n :: n in d.table ==> n in Wave(d.table, Done(d.table, depth[n]))
  {
    LayeringExistsIff(d.table);
    var k: nat :| Layers(d.table, k);
    forall n | n in d.table ensures n in depth && n in Wave(d.table, Done(d.table, depth[n])) {
      assert n in Elements(d.keys);
      var j :| 0 <= j < |d.keys| && d.keys[j] == n;
      assert d.keys[j] in depth;
      WaveIsLongestChain(d.table, k, n);
      assert LongestChain(d.table, n, depth[n] + 1);
    }
  }
}
