/** Paths touched by more than one task branch (minifleet/worktree.py, ownership_conflicts). */
module Ownership {
  import opened Text
  import opened Dictionary

  type Branches = Dict<string, seq<string>>

  ghost predicate Touches(d: Branches, b: string, p: string) {
    b in d.table && p in d.table[b]
  }

  /** No path is touched by two branches. */
  ghost predicate PairwiseDisjoint(d: Branches) {
    forall a, b, p :: Touches(d, a, p) && Touches(d, b, p) ==> a == b
  }

  function Pair(a: string, b: string): (string, string) {
    if Leq(a, b) then (a, b) else (b, a)
  }

  /** Conflicting paths for each pair of branches; the pairs are listed in no particular order here. */
  type Conflicts = map<(string, string), set<string>>

  ghost predicate Reported(c: Conflicts, p: string) {
    exists key :: key in c && p in c[key]
  }

  ghost predicate Contested(d: Branches, p: string) {
    exists a, b :: a != b && Touches(d, a, p) && Touches(d, b, p)
  }

  /** f is the first branch that touches p. */
  ghost predicate IsFirst(d: Branches, f: string, p: string) {
    exists m :: 0 <= m < |d.keys| && d.keys[m] == f && Touches(d, f, p) && forall n :: 0 <= n < m ==>
        !Touches(d, d.keys[n], p)
  }

  /** The pair, smaller name first, of the first branch that touches p and another one that does. */
  ghost predicate RealConflict(d: Branches, key: (string, string), p: string) {
    Leq(key.0, key.1) && exists f, b :: IsFirst(d, f, p) && Touches(d, b, p) && b != f && PairOf(key, f, b)
  }

  ghost predicate PairOf(key: (string, string), f: string, b: string) {
    key == (f, b) || key == (b, f)
  }

  lemma PairIsSorted(key: (string, string), f: string, b: string)
    ensures Leq(key.0, key.1) && PairOf(key, f, b) <==> key == Pair(f, b)
  {
    LeqTotal(f, b);
    if Leq(f, b) && Leq(b, f) { LeqAntisymmetric(f, b); }
  }

  ghost predicate AllReal(d: Branches, c: Conflicts) {
    && (forall key :: key in c ==> c[key] != {})
    && forall key, p :: key in c && p in c[key] ==> RealConflict(d, key, p)
  }

  /** p is reported under every pair of its first branch and another. */
  ghost predicate FullyReported(d: Branches, c: Conflicts, p: string) {
    forall key :: RealConflict(d, key, p) ==> key in c && p in c[key]
  }

  /** The entry at position k of branch i has been looked at. */
  ghost predicate Looked(d: Branches, b: string, p: string, i: nat, k: nat)
    requires i <= |d.keys|
  {
    exists m, n :: 0 <= m <= i && m < |d.keys| && d.keys[m] == b && b in d.table && 0 <= n < |d.table[b]|
      && d.table[b][n] == p && (m < i || n < k)
  }

  /** b is the first branch seen with p, or was reported with it. */
  ghost predicate Settled(seen: map<string, string>, c: Conflicts, b: string, p: string) {
    p in seen && (seen[p] == b || Listed(c, Pair(seen[p], b), p))
  }

  ghost predicate Listed(c: Conflicts, key: (string, string), p: string) {
    key in c && p in c[key]
  }

  /** Each path looked at has its first branch, and every other branch met it in a conflict. */
  ghost predicate SeenInv(d: Branches, i: nat, k: nat, seen: map<string, string>, c: Conflicts)
    requires i <= |d.keys|
  {
    && (forall p :: p in seen ==> IsFirst(d, seen[p], p))
    && (forall b, p :: Looked(d, b, p, i, k) ==> Settled(seen, c, b, p))
    && AllReal(d, c)
  }

  function AddPath(c: Conflicts, key: (string, string), p: string): Conflicts {
    c[key := (if key in c then c[key] else {}) + {p}]
  }

  lemma AddReal(d: Branches, c: Conflicts, f: string, b: string, p: string)
    requires AllReal(d, c) && f != b && IsFirst(d, f, p) && Touches(d, b, p)
    ensures AllReal(d, AddPath(c, Pair(f, b), p)) && Listed(AddPath(c, Pair(f, b), p), Pair(f, b), p)
    ensures forall key, q :: Listed(c, key, q) ==> Listed(AddPath(c, Pair(f, b), p), key, q)
  {
    PairIsSorted(Pair(f, b), f, b);
    assert RealConflict(d, Pair(f, b), p);
  }

  lemma LookedNext(d: Branches, b: string, p: string, i: nat, k: nat)
    requires d.Valid() && i < |d.keys| && d.keys[i] in d.table && k < |d.table[d.keys[i]]|
    requires Looked(d, b, p, i, k + 1)
    ensures Looked(d, b, p, i, k) || (b == d.keys[i] && p == d.table[b][k])
  {
  }

  /** Each contested path is reported under exactly the pairs of the first branch that touches it and another
      that does, and nothing else is reported. */
  method OwnershipConflicts(d: Branches) returns (c: Conflicts)
    requires d.Valid()
    ensures AllReal(d, c) && forall p :: FullyReported(d, c, p)
    ensures forall p :: Reported(c, p) <==> Contested(d, p)
    ensures c == map[] <==> PairwiseDisjoint(d)
  {
    var seen: map<string, string> := map[];
    c := map[];
    for i := 0 to |d.keys|
      invariant SeenInv(d, i, 0, seen, c)
    {
      var branch := d.keys[i];
      assert branch in Elements(d.keys);
      var files := d.table[branch];
      for k := 0 to |files|
        invariant SeenInv(d, i, k, seen, c)
      {
        var path := files[k];
        SeenStep(d, i, k, seen, c);
        if path in seen && seen[path] != branch {
          c := AddPath(c, Pair(seen[path], branch), path);
        }
        if path !in seen {
          seen := seen[path := branch];
        }
      }
      NextBranch(d, i, seen, c);
    }
    AllLooked(d, seen, c);
  }

  /** A path not seen before is first touched by the branch that is being looked at. */
  lemma NewIsFirst(d: Branches, i: nat, k: nat, seen: map<string, string>, c: Conflicts, p: string)
    requires i < |d.keys| && SeenInv(d, i, k, seen, c) && Touches(d, d.keys[i], p) && p !in seen
    ensures IsFirst(d, d.keys[i], p)
  {
    forall n | 0 <= n < i ensures !Touches(d, d.keys[n], p) {
      if Touches(d, d.keys[n], p) {
        var j :| 0 <= j < |d.table[d.keys[n]]| && d.table[d.keys[n]][j] == p;
        assert Looked(d, d.keys[n], p, i, k);
      }
    }
  }

  lemma SeenStep(d: Branches, i: nat, k: nat, seen: map<string, string>, c: Conflicts)
    requires d.Valid() && i < |d.keys| && d.keys[i] in d.table && k < |d.table[d.keys[i]]|
    requires SeenInv(d, i, k, seen, c)
    ensures var b, p := d.keys[i], d.table[d.keys[i]][k];
            && (p !in seen ==> SeenInv(d, i, k + 1, seen[p := b], c))
            && (p in seen && seen[p] == b ==> SeenInv(d, i, k + 1, seen, c))
            && (p in seen && seen[p] != b ==> SeenInv(d, i, k + 1, seen, AddPath(c, Pair(seen[p], b), p)))
  {
    var b, p := d.keys[i], d.table[d.keys[i]][k];
    assert Touches(d, b, p);
    if p !in seen {
      NewIsFirst(d, i, k, seen, c, p);
      StepSettles(d, i, k, seen, c, seen[p := b], c);
    } else if seen[p] == b {
      StepSettles(d, i, k, seen, c, seen, c);
    } else {
      AddReal(d, c, seen[p], b, p);
      StepSettles(d, i, k, seen, c, seen, AddPath(c, Pair(seen[p], b), p));
    }
  }

  /** What was settled stays so, and so does the path looked at now. */
  lemma StepSettles(d: Branches, i: nat, k: nat, seen: map<string, string>, c: Conflicts, seen': map<string, string>,
                    c': Conflicts)
    requires d.Valid() && i < |d.keys| && d.keys[i] in d.table && k < |d.table[d.keys[i]]|
    requires forall b, p :: Looked(d, b, p, i, k) ==> Settled(seen, c, b, p)
    requires forall b, p :: Settled(seen, c, b, p) ==> Settled(seen', c', b, p)
    requires Settled(seen', c', d.keys[i], d.table[d.keys[i]][k])
    ensures forall b, p :: Looked(d, b, p, i, k + 1) ==> Settled(seen', c', b, p)
  {
    forall b, p | Looked(d, b, p, i, k + 1) ensures Settled(seen', c', b, p) {
      LookedNext(d, b, p, i, k);
      if Looked(d, b, p, i, k) { assert Settled(seen, c, b, p); }
    }
  }

  lemma NextBranch(d: Branches, i: nat, seen: map<string, string>, c: Conflicts)
    requires i < |d.keys| && d.keys[i] in d.table && SeenInv(d, i, |d.table[d.keys[i]]|, seen, c)
    ensures SeenInv(d, i + 1, 0, seen, c)
  {
    forall b, p | Looked(d, b, p, i + 1, 0) ensures Settled(seen, c, b, p) {
      var m, n :| 0 <= m <= i + 1 && m < |d.keys| && d.keys[m] == b && b in d.table && 0 <= n < |d.table[b]|
        && d.table[b][n] == p && (m < i + 1 || n < 0);
      assert Looked(d, b, p, i, |d.table[d.keys[i]]|);
    }
  }

  lemma FirstUnique(d: Branches, f: string, g: string, p: string)
    requires IsFirst(d, f, p) && IsFirst(d, g, p)
    ensures f == g
  {
    var m :| 0 <= m < |d.keys| && d.keys[m] == f && Touches(d, f, p) && forall n :: 0 <= n < m ==>
        !Touches(d, d.keys[n], p);
    var k :| 0 <= k < |d.keys| && d.keys[k] == g && Touches(d, g, p) && forall n :: 0 <= n < k ==>
        !Touches(d, d.keys[n], p);
  }

  lemma TouchedIsSettled(d: Branches, seen: map<string, string>, c: Conflicts, b: string, p: string)
    requires d.Valid() && SeenInv(d, |d.keys|, 0, seen, c) && Touches(d, b, p)
    ensures Settled(seen, c, b, p)
  {
    assert b in Elements(d.keys);
    var m :| 0 <= m < |d.keys| && d.keys[m] == b;
    var n :| 0 <= n < |d.table[b]| && d.table[b][n] == p;
    assert Looked(d, b, p, |d.keys|, 0);
  }

  lemma AllReported(d: Branches, seen: map<string, string>, c: Conflicts, key: (string, string), p: string)
    requires d.Valid() && SeenInv(d, |d.keys|, 0, seen, c) && RealConflict(d, key, p)
    ensures Listed(c, key, p)
  {
    var f, b :| IsFirst(d, f, p) && Touches(d, b, p) && b != f && PairOf(key, f, b);
    PairIsSorted(key, f, b);
    TouchedIsSettled(d, seen, c, b, p);
    FirstUnique(d, f, seen[p], p);
  }

  lemma ContestedHasConflict(d: Branches, seen: map<string, string>, c: Conflicts, p: string)
    requires d.Valid() && SeenInv(d, |d.keys|, 0, seen, c) && Contested(d, p)
    ensures exists key :: RealConflict(d, key, p)
  {
    var a, b :| a != b && Touches(d, a, p) && Touches(d, b, p);
    TouchedIsSettled(d, seen, c, a, p);
    var other := if seen[p] == a then b else a;
    PairIsSorted(Pair(seen[p], other), seen[p], other);
    assert RealConflict(d, Pair(seen[p], other), p);
  }

  lemma AllLooked(d: Branches, seen: map<string, string>, c: Conflicts)
    requires d.Valid() && SeenInv(d, |d.keys|, 0, seen, c)
    ensures forall p :: FullyReported(d, c, p)
    ensures forall p :: Reported(c, p) <==> Contested(d, p)
    ensures c == map[] <==> PairwiseDisjoint(d)
  {
    forall p ensures FullyReported(d, c, p) {
      forall key | RealConflict(d, key, p) ensures key in c && p in c[key] {
        AllReported(d, seen, c, key, p);
      }
    }
    forall p ensures Reported(c, p) <==> Contested(d, p) {
      if key :| key in c && p in c[key] {
        assert RealConflict(d, key, p);
      }
      if Contested(d, p) {
        ContestedHasConflict(d, seen, c, p);
        var key :| RealConflict(d, key, p);
        AllReported(d, seen, c, key, p);
      }
    }
    if !PairwiseDisjoint(d) {
      var a, b, p :| Touches(d, a, p) && Touches(d, b, p) && a != b;
      assert Contested(d, p);
    }
    if c != map[] {
      var key :| key in c;
      var p :| p in c[key];
      assert RealConflict(d, key, p);
    }
  }
}
