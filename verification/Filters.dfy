/** What a list comprehension with a condition keeps, position by position. */
module Filters {

  function Filter<T>(s: seq<T>, keep: T -> bool): seq<T> {
    if s == [] then [] else (if keep(s[0]) then [s[0]] else []) + Filter(s[1..], keep)
  }

  /** ks lists, in order, exactly the positions whose elements are kept. */
  ghost predicate Keeping<T>(s: seq<T>, keep: T -> bool, ks: seq<nat>) {
    && (forall j :: 0 <= j < |ks| ==> ks[j] < |s| && keep(s[ks[j]]))
    && Increasing(ks)
    && forall k: nat :: k < |s| && keep(s[k]) ==> k in ks
  }

  ghost predicate Increasing(ks: seq<nat>) {
    forall i, j :: 0 <= i < j < |ks| ==> ks[i] < ks[j]
  }

  /** The elements of s at the positions ks. */
  function At<T>(s: seq<T>, ks: seq<nat>): (r: seq<T>)
    requires forall j :: 0 <= j < |ks| ==> ks[j] < |s|
    ensures |r| == |ks| && forall j :: 0 <= j < |ks| ==> r[j] == s[ks[j]]
  {
    if ks == [] then [] else [s[ks[0]]] + At(s, ks[1..])
  }

  function PositionsFrom<T>(s: seq<T>, keep: T -> bool, i: nat): (ks: seq<nat>)
    requires i <= |s|
    ensures forall j :: 0 <= j < |ks| ==> i <= ks[j] < |s| && keep(s[ks[j]])
    decreases |s| - i
  {
    if i == |s| then []
    else
      var rest := PositionsFrom(s, keep, i + 1);
      if keep(s[i]) then [i] + rest else rest
  }

  lemma {:induction false} PositionsComplete<T>(s: seq<T>, keep: T -> bool, i: nat)
    requires i <= |s|
    ensures forall k: nat :: i <= k < |s| && keep(s[k]) ==> k in PositionsFrom(s, keep, i)
    decreases |s| - i
  {
    if i < |s| { PositionsComplete(s, keep, i + 1); }
  }

  lemma {:induction false} PositionsIncrease<T>(s: seq<T>, keep: T -> bool, i: nat)
    requires i <= |s|
    ensures Increasing(PositionsFrom(s, keep, i))
    decreases |s| - i
  {
    if i < |s| {
      PositionsIncrease(s, keep, i + 1);
      PrependIncreases(i, PositionsFrom(s, keep, i + 1));
    }
  }

  lemma PrependIncreases(i: nat, ks: seq<nat>)
    requires Increasing(ks) && forall j :: 0 <= j < |ks| ==> i < ks[j]
    ensures Increasing([i] + ks)
  {
    var ls := [i] + ks;
    assert forall j :: 0 < j < |ls| ==> ls[j] == ks[j - 1];
  }

  lemma {:induction false} FilterFrom<T>(s: seq<T>, keep: T -> bool, i: nat)
    requires i <= |s|
    ensures Filter(s[i..], keep) == At(s, PositionsFrom(s, keep, i))
    decreases |s| - i
  {
    if i < |s| {
      FilterFrom(s, keep, i + 1);
      assert s[i..][0] == s[i] && s[i..][1..] == s[i + 1..];
      AtOne(s, i, PositionsFrom(s, keep, i + 1));
    }
  }

  lemma AtOne<T>(s: seq<T>, i: nat, ks: seq<nat>)
    requires i < |s| && forall j :: 0 <= j < |ks| ==> ks[j] < |s|
    ensures forall j :: 0 <= j < |[i] + ks| ==> ([i] + ks)[j] < |s|
    ensures At(s, [i] + ks) == [s[i]] + At(s, ks)
  {
    assert ([i] + ks)[1..] == ks;
  }

  lemma FilterKeeps<T>(s: seq<T>, keep: T -> bool) returns (ks: seq<nat>)
    ensures Keeping(s, keep, ks) && Filter(s, keep) == At(s, ks)
  {
    ks := PositionsFrom(s, keep, 0);
    PositionsIncrease(s, keep, 0);
    PositionsComplete(s, keep, 0);
    FilterFrom(s, keep, 0);
    assert s[0..] == s;
  }

  function Both<T>(keep: T -> bool, also: T -> bool): T -> bool {
    x => keep(x) && also(x)
  }

  lemma {:induction false} FilterTwice<T>(s: seq<T>, keep: T -> bool, also: T -> bool)
    ensures Filter(Filter(s, keep), also) == Filter(s, Both(keep, also))
  {
    if s != [] {
      FilterTwice(s[1..], keep, also);
      var rest := Filter(s[1..], keep);
      if keep(s[0]) { assert ([s[0]] + rest)[1..] == rest; } else { assert [] + rest == rest; }
    }
  }
}
