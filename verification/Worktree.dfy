/** Which branch the next attempt of a task works on (minifleet/worktree.py, attempt_branch, merge). */
module Worktree {
  import opened Text
  import opened Numerals

  type Commit = nat

  /** Commits are numbered in the order they were made, so parents come before their children. */
  datatype Repo = Repo(parents: seq<set<Commit>>, branches: map<string, Commit>) {
    ghost predicate Valid() {
      && (forall c, p :: 0 <= c < |parents| && p in parents[c] ==> p < c)
      && forall b :: b in branches ==> branches[b] < |parents|
    }
  }

  /** merge-base --is-ancestor */
  predicate Contains(r: Repo, ancestor: Commit, descendant: Commit)
    requires descendant < |r.parents| && forall c, p :: 0 <= c < |r.parents| && p in r.parents[c] ==> p < c
    decreases descendant
  {
    ancestor == descendant || exists p :: p in r.parents[descendant] && Contains(r, ancestor, p)
  }

  /** Already merged: checking the branch out again would hand out a tree from before the merge. */
  predicate Spent(r: Repo, branch: string, base: Commit)
    requires r.Valid() && base < |r.parents|
  {
    branch in r.branches && r.branches[branch] != base && Contains(r, r.branches[branch], base)
  }

  /** path leads from a commit to one of its ancestors, parent by parent. */
  ghost predicate Ancestry(r: Repo, path: seq<Commit>) {
    && path != [] && (forall i :: 0 <= i < |path| ==> path[i] < |r.parents|)
    && forall i {:trigger Parent(r, path, i)} :: 0 <= i < |path| - 1 ==> Parent(r, path, i)
  }

  ghost predicate Parent(r: Repo, path: seq<Commit>, i: nat)
    requires i < |path| - 1
  {
    path[i] < |r.parents| && path[i + 1] in r.parents[path[i]]
  }

  lemma {:induction false} ContainedHasAncestry(r: Repo, ancestor: Commit, descendant: Commit)
    returns (path: seq<Commit>)
    requires r.Valid() && descendant < |r.parents| && Contains(r, ancestor, descendant)
    ensures Ancestry(r, path) && path[0] == descendant && path[|path| - 1] == ancestor
    decreases descendant
  {
    if ancestor == descendant {
      path := [descendant];
    } else {
      var p :| p in r.parents[descendant] && Contains(r, ancestor, p);
      var rest := ContainedHasAncestry(r, ancestor, p);
      path := [descendant] + rest;
      forall i | 0 <= i < |path| - 1 ensures Parent(r, path, i) {
        if i > 0 { assert Parent(r, rest, i - 1); }
      }
    }
  }

  lemma {:induction false} AncestryIsContained(r: Repo, path: seq<Commit>)
    requires r.Valid() && Ancestry(r, path)
    ensures Contains(r, path[|path| - 1], path[0])
    decreases |path|
  {
    if |path| > 1 {
      var rest := path[1..];
      assert Parent(r, path, 0);
      forall i | 0 <= i < |rest| - 1 ensures Parent(r, rest, i) { assert Parent(r, path, i + 1); }
      AncestryIsContained(r, rest);
    }
  }

  /** A branch is spent exactly when its tip is a proper ancestor of the base: it was merged, and base has moved on. */
  lemma SpentIsProperAncestor(r: Repo, branch: string, base: Commit)
    requires r.Valid() && base < |r.parents|
    ensures Spent(r, branch, base) <==>
              branch in r.branches && exists path ::
                Ancestry(r, path) && |path| > 1 && path[0] == base && path[|path| - 1] == r.branches[branch]
  {
    if Spent(r, branch, base) {
      var path := ContainedHasAncestry(r, r.branches[branch], base);
    }
    if branch in r.branches {
      if path :| Ancestry(r, path) && |path| > 1 && path[0] == base && path[|path| - 1] == r.branches[branch] {
        AncestryIsContained(r, path);
        AncestorsAreOlder(r, path);
      }
    }
  }

  lemma {:induction false} AncestorsAreOlder(r: Repo, path: seq<Commit>)
    requires r.Valid() && Ancestry(r, path) && |path| > 1
    ensures path[|path| - 1] < path[0]
  {
    assert Parent(r, path, 0);
    if |path| > 2 {
      var rest := path[1..];
      forall i | 0 <= i < |rest| - 1 ensures Parent(r, rest, i) { assert Parent(r, path, i + 1); }
      AncestorsAreOlder(r, rest);
    }
  }

  function AttemptName(component: string, n: nat): string {
    "task/" + component + "-a" + Decimal(n)
  }

  lemma AttemptNameInjective(component: string, m: nat, n: nat)
    requires AttemptName(component, m) == AttemptName(component, n)
    ensures m == n
  {
    var prefix := "task/" + component + "-a";
    assert AttemptName(component, m)[|prefix|..] == Decimal(m);
    assert AttemptName(component, n)[|prefix|..] == Decimal(n);
    DecimalInjective(m, n);
  }

  /** n is the first attempt number, from 2 on, whose branch name is free. */
  ghost predicate FirstFree(r: Repo, component: string, n: nat) {
    n >= 2 && !Taken(r, component, n) && forall m: nat :: 2 <= m < n ==> Taken(r, component, m)
  }

  /** There is a branch for the n-th attempt. */
  ghost predicate Taken(r: Repo, component: string, n: nat) {
    "task/" + component + "-a" + Decimal(n) in r.branches
  }

  /** A current branch that is not spent is kept; otherwise the first free attempt name is taken. Either way
      the result is never a spent branch. The search ends because there are finitely many branches. */
  method AttemptBranch(r: Repo, component: string, current: string, base: Commit) returns (b: string)
    requires r.Valid() && base < |r.parents|
    ensures !Spent(r, b, base)
    ensures !Spent(r, current, base) ==> b == current
    ensures Spent(r, current, base) ==>
              exists n: nat :: FirstFree(r, component, n) && b == "task/" + component + "-a" + Decimal(n)
  {
    if current !in r.branches {
      return current;
    }
    if r.branches[current] == base {
      return current;
    }
    if !Contains(r, r.branches[current], base) {
      return current;
    }
    var attempt := FirstFreeAttempt(r, component);
    return AttemptName(component, attempt);
  }

  method FirstFreeAttempt(r: Repo, component: string) returns (attempt: nat)
    ensures FirstFree(r, component, attempt)
  {
    attempt := 2;
    while AttemptName(component, attempt) in r.branches
      invariant attempt >= 2 && Names(component, attempt) <= r.branches.Keys
      decreases |r.branches| + 2 - attempt
    {
      attempt := attempt + 1;
      NamesCount(component, attempt);
      SubsetSize(Names(component, attempt), r.branches.Keys);
    }
    forall m: nat | 2 <= m < attempt ensures Taken(r, component, m) {
      NamesMember(component, attempt, m);
    }
  }

  /** The attempt names from 2 up to, but without, n. */
  ghost function Names(component: string, n: nat): set<string> {
    if n <= 2 then {} else Names(component, n - 1) + {AttemptName(component, n - 1)}
  }

  lemma {:induction false} NamesMember(component: string, n: nat, m: nat)
    requires 2 <= m < n
    ensures AttemptName(component, m) in Names(component, n)
  {
    if m < n - 1 { NamesMember(component, n - 1, m); }
  }

  lemma {:induction false} NamesCount(component: string, n: nat)
    requires n >= 2
    ensures |Names(component, n)| == n - 2
  {
    if n > 2 {
      NamesCount(component, n - 1);
      NewName(component, n - 1, n - 1);
    }
  }

  lemma {:induction false} NewName(component: string, n: nat, m: nat)
    requires n <= m
    ensures AttemptName(component, m) !in Names(component, n)
  {
    if n > 2 {
      NewName(component, n - 1, m);
      if AttemptName(component, m) == AttemptName(component, n - 1) { AttemptNameInjective(component, m, n - 1); }
    }
  }

  // ---- a merged branch stays spent ----

  /** What happens to a repository between attempts; head names the integration branch. */
  datatype Change = NewBranch(name: string, at: Commit) | CommitOn(name: string) | MergeIntoHead(name: string)

  /** An existing branch is not created again; committing needs a branch; merging what is already contained
      makes no commit. */
  function Apply(r: Repo, head: string, change: Change): (r': Repo)
    requires r.Valid() && head in r.branches
    ensures r'.Valid() && head in r'.branches && r.parents <= r'.parents
  {
    match change
    case NewBranch(name, at) =>
      if name in r.branches || at >= |r.parents| then r else r.(branches := r.branches[name := at])
    case CommitOn(name) =>
      if name !in r.branches then r
      else Repo(r.parents + [{r.branches[name]}], r.branches[name := |r.parents|])
    case MergeIntoHead(name) =>
      if name !in r.branches || Contains(r, r.branches[name], r.branches[head]) then r
      else Repo(r.parents + [{r.branches[head], r.branches[name]}], r.branches[head := |r.parents|])
  }

  function ApplyAll(r: Repo, head: string, changes: seq<Change>): (r': Repo)
    requires r.Valid() && head in r.branches
    ensures r'.Valid() && head in r'.branches
    decreases |changes|
  {
    if changes == [] then r else Apply(ApplyAll(r, head, changes[..|changes| - 1]), head, changes[|changes| - 1])
  }

  lemma {:induction false} ContainsOlder(r: Repo, a: Commit, d: Commit)
    requires r.Valid() && d < |r.parents| && Contains(r, a, d)
    ensures a <= d
    decreases d
  {
    if a != d {
      var p :| p in r.parents[d] && Contains(r, a, p);
      ContainsOlder(r, a, p);
    }
  }

  lemma {:induction false} ContainsTransitive(r: Repo, a: Commit, b: Commit, d: Commit)
    requires r.Valid() && b < |r.parents| && d < |r.parents| && Contains(r, a, b) && Contains(r, b, d)
    ensures Contains(r, a, d)
    decreases d
  {
    if b != d {
      var p :| p in r.parents[d] && Contains(r, b, p);
      ContainsTransitive(r, a, b, p);
    }
  }

  /** New commits do not change what old ones contain. */
  lemma {:induction false} ContainsStable(r: Repo, r': Repo, a: Commit, d: Commit)
    requires r.Valid() && r'.Valid() && r.parents <= r'.parents && d < |r.parents| && Contains(r, a, d)
    ensures Contains(r', a, d)
    decreases d
  {
    if a != d {
      var p :| p in r.parents[d] && Contains(r, a, p);
      ContainsStable(r, r', a, p);
      assert r'.parents[d] == r.parents[d];
    }
  }

  /** The head only moves forward: its old tip is contained in its new one. */
  lemma HeadGrows(r: Repo, head: string, change: Change)
    requires r.Valid() && head in r.branches
    ensures var r' := Apply(r, head, change); Contains(r', r.branches[head], r'.branches[head])
  {
    var r' := Apply(r, head, change);
    if r'.branches[head] == |r.parents| {
      assert r.branches[head] in r'.parents[|r.parents|];
      assert Contains(r', r.branches[head], r.branches[head]);
    }
  }

  lemma SpentStaysOnce(r: Repo, head: string, change: Change, b: string)
    requires r.Valid() && head in r.branches && b != head && Spent(r, b, r.branches[head])
    requires change != CommitOn(b)
    ensures var r' := Apply(r, head, change); Spent(r', b, r'.branches[head])
  {
    var r' := Apply(r, head, change);
    var tip, was, now := r.branches[b], r.branches[head], r'.branches[head];
    assert r'.branches[b] == tip;
    ContainsStable(r, r', tip, was);
    HeadGrows(r, head, change);
    ContainsTransitive(r', tip, was, now);
    ContainsOlder(r, tip, was);
    ContainsOlder(r', was, now);
  }

  /** Once spent, a branch stays spent, however the repository goes on, as long as nobody commits on it. */
  lemma {:induction false} SpentForever(r: Repo, head: string, changes: seq<Change>, b: string)
    requires r.Valid() && head in r.branches && b != head && Spent(r, b, r.branches[head])
    requires forall i :: 0 <= i < |changes| ==> changes[i] != CommitOn(b)
    ensures var r' := ApplyAll(r, head, changes); Spent(r', b, r'.branches[head])
    decreases |changes|
  {
    if changes != [] {
      var before := changes[..|changes| - 1];
      assert forall i :: 0 <= i < |before| ==> before[i] == changes[i];
      SpentForever(r, head, before, b);
      SpentStaysOnce(ApplyAll(r, head, before), head, changes[|changes| - 1], b);
    }
  }

  /** A merge that makes a new commit spends the branch. */
  lemma MergeSpends(r: Repo, head: string, b: string)
    requires r.Valid() && head in r.branches && b in r.branches && b != head
    requires !Contains(r, r.branches[b], r.branches[head])
    ensures var r' := Apply(r, head, MergeIntoHead(b)); Spent(r', b, r'.branches[head])
  {
    var r' := Apply(r, head, MergeIntoHead(b));
    assert r.branches[b] in r'.parents[|r.parents|];
    assert Contains(r', r.branches[b], r.branches[b]);
  }

  /** After a real merge no attempt is handed the merged branch again. */
  method AttemptAfterMerge(r: Repo, head: string, b: string, changes: seq<Change>, component: string, current: string)
    returns (next: string)
    requires r.Valid() && head in r.branches && b in r.branches && b != head
    requires !Contains(r, r.branches[b], r.branches[head])
    requires forall i :: 0 <= i < |changes| ==> changes[i] != CommitOn(b)
    ensures next != b
  {
    MergeSpends(r, head, b);
    SpentForever(Apply(r, head, MergeIntoHead(b)), head, changes, b);
    var later := ApplyAll(Apply(r, head, MergeIntoHead(b)), head, changes);
    next := AttemptBranch(later, component, current, later.branches[head]);
  }
}
