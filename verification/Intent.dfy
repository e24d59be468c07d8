/** The structural part of intent validation (minifleet/intent.py, validate). */
module Intent {
  import opened Text
  import opened Dictionary
  import opened Scopes
  import opened Model

  datatype Problem =
    | DuplicateComponents
    | UnknownDependency(component: string, dependency: string)
    | UnknownCriterion(component: string, criterion: string)
    | UnknownGate(component: string, gate: string)
    | ScopesOverlapping(path: string, other: string, owner: string)

  ghost predicate UniqueComponents(cs: seq<Component>) {
    forall i, j :: 0 <= i < j < |cs| ==> cs[i].id != cs[j].id
  }

  ghost predicate DependenciesKnown(cs: seq<Component>) {
    forall i, d :: 0 <= i < |cs| && d in cs[i].dependsOn ==> d in ComponentIds(cs)
  }

  function ComponentIds(cs: seq<Component>): set<string> {
    set c | c in cs :: c.id
  }

  /** Scopes of components with different ids never overlap. */
  ghost predicate ScopesDisjoint(glob: Glob, cs: seq<Component>) {
    forall i, j, p, q :: 0 <= i < |cs| && 0 <= j < |cs| && cs[i].id != cs[j].id && p in cs[i].owns && q in cs[j].owns
      ==> !ScopesOverlap(glob, p, q)
  }

  lemma OverlapSymmetric(glob: Glob, p: string, q: string)
    ensures ScopesOverlap(glob, p, q) == ScopesOverlap(glob, q, p)
  {
  }

  function IdList(cs: seq<Component>): (ids: seq<string>)
    ensures |ids| == |cs| && forall i :: 0 <= i < |cs| ==> ids[i] == cs[i].id
  {
    if cs == [] then [] else [cs[0].id] + IdList(cs[1..])
  }

  /** Counting the distinct ids finds out whether any id repeats. */
  lemma CountingIds(cs: seq<Component>)
    ensures |ComponentIds(cs)| == |cs| <==> UniqueComponents(cs)
  {
    var ids := IdList(cs);
    forall x ensures x in Elements(ids) <==> x in ComponentIds(cs) {
      if x in ids {
        var i :| 0 <= i < |ids| && ids[i] == x;
        assert cs[i] in cs;
      }
      if x in ComponentIds(cs) {
        var c :| c in cs && c.id == x;
        var i :| 0 <= i < |cs| && cs[i] == c;
        assert ids[i] == x;
      }
    }
    assert Elements(ids) == ComponentIds(cs);
    assert Distinct(ids) <==> UniqueComponents(cs);
    ElementsSize(ids);
    if Distinct(ids) { DistinctSize(ids); }
  }

  /** The claim at position b of component a comes before position k of component i. */
  ghost predicate Claimed(cs: seq<Component>, a: nat, b: nat, i: nat, k: nat) {
    a < |cs| && b < |cs[a].owns| && (a < i || (a == i && b < k))
  }

  ghost predicate ClaimsOverlap(glob: Glob, cs: seq<Component>, a: nat, b: nat, i: nat, k: nat)
    requires a < |cs| && b < |cs[a].owns| && i < |cs| && k < |cs[i].owns|
  {
    cs[a].id != cs[i].id && ScopesOverlap(glob, cs[i].owns[k], cs[a].owns[b])
  }

  /** Entries of owns_seen are real claims; while nothing overlaps, they are all the claims so far, none overlapping. */
  ghost predicate ClaimsInv(glob: Glob, cs: seq<Component>, i: nat, k: nat, seen: Dict<string, string>, overlap: bool) {
    && seen.Valid()
    && (forall p :: p in seen.table ==>
          exists a: nat, b: nat :: Claimed(cs, a, b, i, k) && cs[a].owns[b] == p && cs[a].id == seen.table[p])
    && (overlap ==> !ScopesDisjoint(glob, cs))
    && (!overlap ==> forall a: nat, b: nat :: Claimed(cs, a, b, i, k) ==> Owned(seen, cs[a].owns[b], cs[a].id))
    && (!overlap ==> forall a: nat, b: nat, m: nat, n: nat :: Claimed(cs, a, b, i, k) && Claimed(cs, m, n, i, k) ==>
        !ClaimsOverlap(glob, cs, a, b, m, n))
  }

  ghost predicate Owned(seen: Dict<string, string>, p: string, id: string) {
    p in seen.table && seen.table[p] == id
  }

  /** Some entry of owns_seen, owned by another component, overlaps the path. */
  ghost predicate Clashes(glob: Glob, seen: Dict<string, string>, path: string, id: string, upto: nat)
    requires seen.Valid()
  {
    exists m :: 0 <= m < upto && m < |seen.keys| && Clash(glob, seen, m, path, id)
  }

  predicate Clash(glob: Glob, seen: Dict<string, string>, m: nat, path: string, id: string)
    requires m < |seen.keys|
  {
    seen.keys[m] in seen.table && seen.table[seen.keys[m]] != id && ScopesOverlap(glob, path, seen.keys[m])
  }

  lemma ClashIsReal(glob: Glob, cs: seq<Component>, i: nat, k: nat, seen: Dict<string, string>, overlap: bool)
    requires i < |cs| && k < |cs[i].owns| && ClaimsInv(glob, cs, i, k, seen, overlap)
    requires Clashes(glob, seen, cs[i].owns[k], cs[i].id, |seen.keys|)
    ensures !ScopesDisjoint(glob, cs)
  {
    var path := cs[i].owns[k];
    var m :| 0 <= m < |seen.keys| && Clash(glob, seen, m, path, cs[i].id);
    var p := seen.keys[m];
    var a: nat, b: nat :| Claimed(cs, a, b, i, k) && cs[a].owns[b] == p && cs[a].id == seen.table[p];
    assert cs[i].id != cs[a].id && path in cs[i].owns && p in cs[a].owns;
  }

  lemma NoClashNoOverlap(glob: Glob, cs: seq<Component>, i: nat, k: nat, seen: Dict<string, string>, a: nat, b: nat)
    requires i < |cs| && k < |cs[i].owns| && ClaimsInv(glob, cs, i, k, seen, false)
    requires !Clashes(glob, seen, cs[i].owns[k], cs[i].id, |seen.keys|)
    requires Claimed(cs, a, b, i, k)
    ensures !ClaimsOverlap(glob, cs, a, b, i, k) && !ClaimsOverlap(glob, cs, i, k, a, b)
  {
    var p := cs[a].owns[b];
    assert Owned(seen, p, cs[a].id);
    assert p in Elements(seen.keys);
    var m :| 0 <= m < |seen.keys| && seen.keys[m] == p;
    assert !Clash(glob, seen, m, cs[i].owns[k], cs[i].id);
    OverlapSymmetric(glob, p, cs[i].owns[k]);
  }

  lemma EntriesStayReal(glob: Glob, cs: seq<Component>, i: nat, k: nat, seen: Dict<string, string>, overlap: bool)
    requires i < |cs| && k < |cs[i].owns| && ClaimsInv(glob, cs, i, k, seen, overlap)
    ensures var seen' := seen.Put(cs[i].owns[k], cs[i].id);
            forall p :: p in seen'.table ==>
              exists a: nat, b: nat :: Claimed(cs, a, b, i, k + 1) && cs[a].owns[b] == p && cs[a].id == seen'.table[p]
  {
    var seen' := seen.Put(cs[i].owns[k], cs[i].id);
    forall p | p in seen'.table
      ensures exists a: nat, b: nat :: Claimed(cs, a, b, i, k + 1) && cs[a].owns[b] == p && cs[a].id == seen'.table[p]
    {
      if p == cs[i].owns[k] {
        assert Claimed(cs, i, k, i, k + 1);
      } else {
        var a: nat, b: nat :| Claimed(cs, a, b, i, k) && cs[a].owns[b] == p && cs[a].id == seen.table[p];
        assert Claimed(cs, a, b, i, k + 1);
      }
    }
  }

  lemma ClaimStep(glob: Glob, cs: seq<Component>, i: nat, k: nat, seen: Dict<string, string>, overlap: bool)
    requires i < |cs| && k < |cs[i].owns| && ClaimsInv(glob, cs, i, k, seen, overlap)
    ensures ClaimsInv(glob, cs, i, k + 1, seen.Put(cs[i].owns[k], cs[i].id),
                      overlap || Clashes(glob, seen, cs[i].owns[k], cs[i].id, |seen.keys|))
  {
    var path, id := cs[i].owns[k], cs[i].id;
    var seen' := seen.Put(path, id);
    EntriesStayReal(glob, cs, i, k, seen, overlap);
    if Clashes(glob, seen, path, id, |seen.keys|) {
      ClashIsReal(glob, cs, i, k, seen, overlap);
    } else if !overlap {
      forall a: nat, b: nat | Claimed(cs, a, b, i, k + 1) ensures Owned(seen', cs[a].owns[b], cs[a].id) {
        if a != i || b != k {
          assert Claimed(cs, a, b, i, k);
          assert Owned(seen, cs[a].owns[b], cs[a].id);
          NoClashNoOverlap(glob, cs, i, k, seen, a, b);
        }
      }
      forall a: nat, b: nat, m: nat, n: nat | Claimed(cs, a, b, i, k + 1) && Claimed(cs, m, n, i, k + 1)
        ensures !ClaimsOverlap(glob, cs, a, b, m, n)
      {
        NewPair(glob, cs, i, k, seen, a, b, m, n);
      }
    }
  }

  lemma NewPair(glob: Glob, cs: seq<Component>, i: nat, k: nat, seen: Dict<string, string>, a: nat, b: nat, m: nat,
                n: nat)
    requires i < |cs| && k < |cs[i].owns| && ClaimsInv(glob, cs, i, k, seen, false)
    requires !Clashes(glob, seen, cs[i].owns[k], cs[i].id, |seen.keys|)
    requires Claimed(cs, a, b, i, k + 1) && Claimed(cs, m, n, i, k + 1)
    ensures !ClaimsOverlap(glob, cs, a, b, m, n)
  {
    var first, second := a == i && b == k, m == i && n == k;
    if !first { assert Claimed(cs, a, b, i, k); }
    if !second { assert Claimed(cs, m, n, i, k); }
    if first && !second { NoClashNoOverlap(glob, cs, i, k, seen, m, n); }
    if !first && second { NoClashNoOverlap(glob, cs, i, k, seen, a, b); }
  }

  lemma NextComponent(glob: Glob, cs: seq<Component>, i: nat, seen: Dict<string, string>, overlap: bool)
    requires i < |cs| && ClaimsInv(glob, cs, i, |cs[i].owns|, seen, overlap)
    ensures ClaimsInv(glob, cs, i + 1, 0, seen, overlap)
  {
    forall a: nat, b: nat ensures Claimed(cs, a, b, i + 1, 0) <==> Claimed(cs, a, b, i, |cs[i].owns|) {
    }
  }

  lemma AllClaims(glob: Glob, cs: seq<Component>, seen: Dict<string, string>)
    requires ClaimsInv(glob, cs, |cs|, 0, seen, false)
    ensures ScopesDisjoint(glob, cs)
  {
    forall i, j, p, q | 0 <= i < |cs| && 0 <= j < |cs| && cs[i].id != cs[j].id && p in cs[i].owns && q in cs[j].owns
      ensures !ScopesOverlap(glob, p, q)
    {
      var b :| 0 <= b < |cs[i].owns| && cs[i].owns[b] == p;
      var n :| 0 <= n < |cs[j].owns| && cs[j].owns[n] == q;
      assert Claimed(cs, j, n, |cs|, 0) && Claimed(cs, i, b, |cs|, 0);
      assert !ClaimsOverlap(glob, cs, j, n, i, b);
    }
  }

  /** The scopes seen so far, claimed by another component, that the path overlaps. */
  method FindClashes(glob: Glob, seen: Dict<string, string>, path: string, id: string) returns (problems: seq<Problem>)
    requires seen.Valid()
    ensures problems != [] <==> Clashes(glob, seen, path, id, |seen.keys|)
  {
    problems := [];
    for m := 0 to |seen.keys|
      invariant problems != [] <==> Clashes(glob, seen, path, id, m)
    {
      assert seen.keys[m] in Elements(seen.keys);
      if Clash(glob, seen, m, path, id) {
        problems := problems + [ScopesOverlapping(path, seen.keys[m], seen.table[seen.keys[m]])];
      }
    }
  }

  method ValidateScopes(glob: Glob, cs: seq<Component>) returns (problems: seq<Problem>)
    ensures problems == [] <==> ScopesDisjoint(glob, cs)
  {
    problems := [];
    var seen: Dict<string, string> := Empty();
    assert forall a: nat, b: nat :: !Claimed(cs, a, b, 0, 0);
    for i := 0 to |cs|
      invariant ClaimsInv(glob, cs, i, 0, seen, problems != [])
    {
      var id, owns := cs[i].id, cs[i].owns;
      for k := 0 to |owns|
        invariant ClaimsInv(glob, cs, i, k, seen, problems != [])
      {
        ClaimStep(glob, cs, i, k, seen, problems != []);
        var clashes := FindClashes(glob, seen, owns[k], id);
        problems := problems + clashes;
        seen := seen.Put(owns[k], id);
      }
      NextComponent(glob, cs, i, seen, problems != []);
    }
    if problems == [] { AllClaims(glob, cs, seen); }
  }

  ghost predicate CriteriaKnown(cs: seq<Component>, criteria: set<string>) {
    forall i, c :: 0 <= i < |cs| && c in cs[i].acceptanceIds ==> c in criteria
  }

  ghost predicate GatesKnown(cs: seq<Component>, gates: set<string>) {
    forall i, g :: 0 <= i < |cs| && g in cs[i].gateIds ==> g in gates
  }

  /** The ids of a list that are not known. */
  method Unknown(ids: seq<string>, known: set<string>) returns (missing: seq<string>)
    ensures missing == [] <==> forall x :: x in ids ==> x in known
    ensures forall x :: x in missing <==> x in ids && x !in known
  {
    missing := [];
    for k := 0 to |ids|
      invariant forall x :: x in missing <==> x in ids[..k] && x !in known
    {
      assert ids[..k + 1] == ids[..k] + [ids[k]];
      if ids[k] !in known {
        missing := missing + [ids[k]];
      }
    }
    assert ids[..|ids|] == ids;
    if missing != [] { assert missing[0] in missing; }
  }

  /** Every reference of every component is looked up, in the order the source looks them up. */
  method ValidateReferences(cs: seq<Component>, criteria: set<string>, gates: set<string>)
    returns (problems: seq<Problem>)
    ensures problems == [] <==> DependenciesKnown(cs) && CriteriaKnown(cs, criteria) && GatesKnown(cs, gates)
  {
    problems := [];
    var known := ComponentIds(cs);
    for i := 0 to |cs|
      invariant problems == [] <==> KnownUpTo(cs, i, known, criteria, gates)
    {
      var deps := Unknown(cs[i].dependsOn, known);
      var acceptance := Unknown(cs[i].acceptanceIds, criteria);
      var gateIds := Unknown(cs[i].gateIds, gates);
      problems := problems
        + seq(|deps|, k requires 0 <= k < |deps| => UnknownDependency(cs[i].id, deps[k]))
        + seq(|acceptance|, k requires 0 <= k < |acceptance| => UnknownCriterion(cs[i].id, acceptance[k]))
        + seq(|gateIds|, k requires 0 <= k < |gateIds| => UnknownGate(cs[i].id, gateIds[k]));
    }
  }

  ghost predicate KnownUpTo(cs: seq<Component>, n: nat, known: set<string>, criteria: set<string>, gates: set<string>) {
    forall i :: 0 <= i < n && i < |cs| ==> ReferencesKnown(cs[i], known, criteria, gates)
  }

  ghost predicate ReferencesKnown(c: Component, known: set<string>, criteria: set<string>, gates: set<string>) {
    && (forall x :: x in c.dependsOn ==> x in known)
    && (forall x :: x in c.acceptanceIds ==> x in criteria)
    && (forall x :: x in c.gateIds ==> x in gates)
  }

  /** The components of an intent pass exactly when ids are unique, every reference is known, and scopes of
      different components are disjoint. */
  method ValidateComponents(glob: Glob, cs: seq<Component>, criteria: set<string>, gates: set<string>)
    returns (problems: seq<Problem>)
    ensures problems == [] <==>
      && UniqueComponents(cs) && ScopesDisjoint(glob, cs)
      && DependenciesKnown(cs) && CriteriaKnown(cs, criteria) && GatesKnown(cs, gates)
  {
    problems := [];
    CountingIds(cs);
    if |ComponentIds(cs)| != |cs| {
      problems := [DuplicateComponents];
    }
    var references := ValidateReferences(cs, criteria, gates);
    var scopes := ValidateScopes(glob, cs);
    problems := problems + references + scopes;
  }
}
