/** The dependency graph: edges run from a task to the tasks it depends on. */
module TaskGraph {
  import opened Text

  type Graph<N> = map<N, seq<N>>

  /** Dependencies of a node; a name the graph does not declare has none. */
  function Deps<N(!new)>(g: Graph<N>, n: N): seq<N> {
    if n in g then g[n] else []
  }

  /** Every name the graph mentions, declared or not. */
  function Mentioned<N(!new)>(g: Graph<N>): set<N> {
    g.Keys + set n, d | n in g && d in g[n] :: d
  }

  lemma DependencyIsMentioned<N(!new)>(g: Graph<N>, n: N, i: nat)
    requires i < |Deps(g, n)|
    ensures Deps(g, n)[i] in Mentioned(g)
  {
    assert Deps(g, n)[i] in g[n];
  }

  ghost predicate Closed<N(!new)>(g: Graph<N>) {
    forall n, d :: n in g && d in g[n] ==> d in g
  }

  /** The member after position i is a dependency of the one at i. */
  ghost predicate Follows<N(!new)>(g: Graph<N>, p: seq<N>, i: nat)
    requires i < |p| - 1
  {
    p[i + 1] in Deps(g, p[i])
  }

  /** p follows dependency edges. */
  ghost predicate IsWalk<N(!new)>(g: Graph<N>, p: seq<N>) {
    |p| > 0 && forall i {:trigger Follows(g, p, i)} :: 0 <= i < |p| - 1 ==> Follows(g, p, i)
  }

  /** A closed walk: its last member depends on its first. */
  ghost predicate IsCycle<N(!new)>(g: Graph<N>, c: seq<N>) {
    IsWalk(g, c) && c[0] in Deps(g, c[|c| - 1])
  }

  ghost predicate HasCycle<N(!new)>(g: Graph<N>) {
    exists c :: IsCycle(g, c)
  }

  /** The member after position i, going round. */
  function NextOn<N>(c: seq<N>, i: nat): N
    requires i < |c|
  {
    if i + 1 < |c| then c[i + 1] else c[0]
  }

  /** A cycle is a list in which every member depends on the next one, going round. */
  lemma CycleSteps<N(!new)>(g: Graph<N>, c: seq<N>)
    requires c != []
    ensures IsCycle(g, c) <==> forall i :: 0 <= i < |c| ==> NextOn(c, i) in Deps(g, c[i])
  {
    if IsCycle(g, c) {
      forall i | 0 <= i < |c| ensures NextOn(c, i) in Deps(g, c[i]) {
        if i + 1 < |c| { assert Follows(g, c, i); }
      }
    }
    if forall i :: 0 <= i < |c| ==> NextOn(c, i) in Deps(g, c[i]) {
      forall i | 0 <= i < |c| - 1 ensures Follows(g, c, i) { assert NextOn(c, i) == c[i + 1]; }
      assert NextOn(c, |c| - 1) == c[0];
    }
  }

  /** A dependency chain among declared tasks. */
  ghost predicate IsChain<N(!new)>(g: Graph<N>, p: seq<N>) {
    IsWalk(g, p) && forall i :: 0 <= i < |p| ==> p[i] in g
  }

  /** A numbering, closed under dependencies, that puts every task above its dependencies. */
  ghost predicate Ranks<N(!new)>(g: Graph<N>, rank: map<N, nat>) {
    forall n, d {:trigger d in Deps(g, n)} :: n in rank && d in Deps(g, n) ==> d in rank && rank[d] < rank[n]
  }

  lemma {:induction false} WalkDescends<N(!new)>(g: Graph<N>, rank: map<N, nat>, p: seq<N>, i: nat)
    requires Ranks(g, rank) && IsWalk(g, p) && p[0] in rank && i < |p|
    ensures p[i] in rank && rank[p[i]] + i <= rank[p[0]]
  {
    if i > 0 {
      WalkDescends(g, rank, p, i - 1);
      assert Follows(g, p, i - 1);
    }
  }

  /** A rank over the declared tasks rules out every cycle. */
  lemma RankedHasNoCycle<N(!new)>(g: Graph<N>, rank: map<N, nat>)
    requires Ranks(g, rank) && g.Keys <= rank.Keys
    ensures !HasCycle(g)
  {
    forall c | IsCycle(g, c) ensures false {
      if |c| > 1 { assert Follows(g, c, 0); }
      assert c[0] in g;
      WalkDescends(g, rank, c, |c| - 1);
    }
  }

  /** Cutting a walk where a later member points back into it leaves a cycle. */
  lemma TailCycle<N(!new)>(g: Graph<N>, p: seq<N>, i: nat)
    requires IsWalk(g, p) && i < |p| && p[i] in Deps(g, p[|p| - 1])
    ensures IsCycle(g, p[i..])
  {
    var c := p[i..];
    forall k | 0 <= k < |c| - 1 ensures Follows(g, c, k) {
      assert Follows(g, p, i + k);
    }
  }

  /** A walk of two or more steps to a dependency, and goes on from there. */
  lemma WalkOn<N(!new)>(g: Graph<N>, p: seq<N>)
    requires IsWalk(g, p) && |p| > 1
    ensures p[1] in Deps(g, p[0]) && IsWalk(g, p[1..])
    ensures IsChain(g, p) ==> IsChain(g, p[1..])
  {
    assert Follows(g, p, 0);
    var q := p[1..];
    forall k | 0 <= k < |q| - 1 ensures Follows(g, q, k) { assert Follows(g, p, k + 1); }
  }

  lemma ExtendWalk<N(!new)>(g: Graph<N>, p: seq<N>, d: N)
    requires IsWalk(g, p) && d in Deps(g, p[|p| - 1])
    ensures IsWalk(g, p + [d])
  {
    var q := p + [d];
    forall k | 0 <= k < |q| - 1 ensures Follows(g, q, k) {
      if k < |p| - 1 { assert Follows(g, p, k); }
    }
  }

  lemma PrependWalk<N(!new)>(g: Graph<N>, n: N, p: seq<N>)
    requires IsWalk(g, p) && p[0] in Deps(g, n)
    ensures IsWalk(g, [n] + p)
  {
    var q := [n] + p;
    forall k | 0 <= k < |q| - 1 ensures Follows(g, q, k) {
      if k > 0 { assert Follows(g, p, k - 1); }
    }
  }

  ghost predicate DependsInto<N(!new)>(g: Graph<N>, n: N, s: set<N>) {
    exists d :: d in s && d in Deps(g, n)
  }

  /** In a finite set where every member depends on another member, walking must repeat. */
  lemma {:induction false} WalkUntilCycle<N(!new)>(g: Graph<N>, s: set<N>, p: seq<N>)
    requires forall n {:trigger DependsInto(g, n, s)} :: n in s ==> DependsInto(g, n, s)
    requires IsWalk(g, p) && Distinct(p) && Elements(p) <= s
    ensures HasCycle(g)
    decreases |s| - |p|
  {
    DistinctSize(p);
    SubsetSize(Elements(p), s);
    var last := p[|p| - 1];
    assert last in Elements(p);
    assert DependsInto(g, last, s);
    var d :| d in s && d in Deps(g, last);
    if d in p {
      var i :| 0 <= i < |p| && p[i] == d;
      TailCycle(g, p, i);
    } else {
      ExtendWalk(g, p, d);
      var q := p + [d];
      assert Elements(q) == Elements(p) + {d};
      DistinctSize(q);
      SubsetSize(Elements(q), s);
      WalkUntilCycle(g, s, q);
    }
  }

  lemma NoSinkHasCycle<N(!new)>(g: Graph<N>, s: set<N>)
    requires s != {}
    requires forall n {:trigger DependsInto(g, n, s)} :: n in s ==> DependsInto(g, n, s)
    ensures HasCycle(g)
  {
    var n :| n in s;
    WalkUntilCycle(g, s, [n]);
  }
}
