/** Write scopes as strings (minifleet/model.py scopes_overlap, minifleet/scheduler.py _within). */
module Scopes {

  /** fnmatch(name, pattern). Only its behaviour on patterns without wildcards matters here. */
  type Glob = (string, string) -> bool

  predicate WildcardFree(p: string) {
    forall i :: 0 <= i < |p| ==> p[i] != '*' && p[i] != '?' && p[i] != '['
  }

  /** A pattern without wildcards matches itself and nothing else. */
  ghost predicate Literal(glob: Glob) {
    forall n, p :: WildcardFree(p) ==> (glob(n, p) <==> n == p)
  }

  /** rstrip("/") */
  function Strip(s: string): (r: string)
    ensures |r| <= |s| && r == s[..|r|]
    ensures r == "" || r[|r| - 1] != '/'
    ensures forall i :: |r| <= i < |s| ==> s[i] == '/'
  {
    if s == "" || s[|s| - 1] != '/' then s else Strip(s[..|s| - 1])
  }

  predicate StartsWith(s: string, p: string) {
    p <= s
  }

  predicate ScopesOverlap(glob: Glob, left: string, right: string) {
    var a, b := Strip(left), Strip(right);
    || a == b
    || StartsWith(a, b + "/") || StartsWith(b, a + "/")
    || glob(a, right) || glob(b, left)
  }

  /** One pattern of a write scope admits a path. */
  predicate Admits(glob: Glob, pattern: string, path: string) {
    || glob(path, pattern)
    || (pattern != "" && pattern[|pattern| - 1] == '/' && StartsWith(path, pattern))
    || StartsWith(path, Strip(pattern) + "/")
  }

  predicate Within(glob: Glob, path: string, patterns: seq<string>) {
    exists i :: 0 <= i < |patterns| && Admits(glob, patterns[i], path)
  }

  /** The loop the source runs. */
  method IsWithin(glob: Glob, path: string, patterns: seq<string>) returns (r: bool)
    ensures r == Within(glob, path, patterns)
  {
    for i := 0 to |patterns|
      invariant forall j :: 0 <= j < i ==> !Admits(glob, patterns[j], path)
    {
      if Admits(glob, patterns[i], path) {
        return true;
      }
    }
    return false;
  }

  lemma StripWildcards(p: string)
    requires WildcardFree(p)
    ensures WildcardFree(Strip(p))
  {
  }

  /** Without wildcards a pattern admits exactly its own path and whatever lies below it. */
  lemma AdmitsIff(glob: Glob, p: string, path: string)
    requires Literal(glob) && WildcardFree(p)
    ensures Admits(glob, p, path) <==> path == p || StartsWith(path, Strip(p) + "/")
  {
    var a := Strip(p);
    if p != "" && p[|p| - 1] == '/' && StartsWith(path, p) {
      assert |a| < |p|;
      assert p[..|a| + 1] == a + "/";
      assert path[..|p|] == p;
      assert path[..|a| + 1] == p[..|a| + 1];
    }
  }

  /** Everything a literal pattern admits is the stripped pattern or lies below it. */
  lemma AdmittedBelow(glob: Glob, p: string, path: string)
    requires Literal(glob) && WildcardFree(p) && Admits(glob, p, path)
    ensures path == Strip(p) || StartsWith(path, Strip(p) + "/")
  {
    AdmitsIff(glob, p, path);
    var a := Strip(p);
    if path == p && |a| < |p| {
      assert p[..|a| + 1] == a + "/";
    }
  }

  lemma PrefixesNest(a: string, b: string, path: string)
    requires StartsWith(path, a + "/") && StartsWith(path, b + "/") && |a| <= |b|
    ensures a == b || StartsWith(b, a + "/")
  {
    assert path[..|a| + 1] == a + "/" && path[..|b| + 1] == b + "/";
    assert path[..|a|] == a && path[..|b|] == b;
    if |a| < |b| {
      assert b[..|a| + 1] == path[..|a| + 1];
    }
  }

  lemma CommonPathOverlaps(glob: Glob, p: string, q: string, path: string)
    requires Literal(glob) && WildcardFree(p) && WildcardFree(q)
    requires Admits(glob, p, path) && Admits(glob, q, path)
    ensures ScopesOverlap(glob, p, q)
  {
    AdmittedBelow(glob, p, path);
    AdmittedBelow(glob, q, path);
    var a, b := Strip(p), Strip(q);
    if StartsWith(path, a + "/") && StartsWith(path, b + "/") {
      if |a| <= |b| { PrefixesNest(a, b, path); } else { PrefixesNest(b, a, path); }
    }
  }

  lemma OverlapHasCommonPath(glob: Glob, p: string, q: string) returns (path: string)
    requires Literal(glob) && WildcardFree(p) && WildcardFree(q)
    requires ScopesOverlap(glob, p, q)
    ensures Admits(glob, p, path) && Admits(glob, q, path)
  {
    var a, b := Strip(p), Strip(q);
    StripWildcards(p);
    StripWildcards(q);
    path := (if |a| >= |b| then a else b) + "/";
    if a == q { LiteralStrip(q, a); }
    if b == p { LiteralStrip(p, b); }
    assert StartsWith(path, a + "/") && StartsWith(path, b + "/");
  }

  lemma LiteralStrip(q: string, a: string)
    requires a == q && (a == "" || a[|a| - 1] != '/')
    ensures Strip(q) == a
  {
  }

  /** Without wildcards the overlap test is exact: two scopes overlap exactly when some path lies in both. */
  lemma OverlapIff(glob: Glob, p: string, q: string)
    requires Literal(glob) && WildcardFree(p) && WildcardFree(q)
    ensures ScopesOverlap(glob, p, q) <==> exists path :: Admits(glob, p, path) && Admits(glob, q, path)
  {
    if ScopesOverlap(glob, p, q) {
      var path := OverlapHasCommonPath(glob, p, q);
    }
    forall path | Admits(glob, p, path) && Admits(glob, q, path) ensures ScopesOverlap(glob, p, q) {
      CommonPathOverlaps(glob, p, q, path);
    }
  }

  /** Whatever a pattern matches, with or without wildcards: a path it admits overlaps it when claimed as a scope. */
  lemma AdmittedPathOverlaps(glob: Glob, pattern: string, path: string)
    requires Admits(glob, pattern, path) && Strip(path) == path
    ensures ScopesOverlap(glob, path, pattern) && ScopesOverlap(glob, pattern, path)
  {
    var a := Strip(pattern);
    if pattern != "" && pattern[|pattern| - 1] == '/' && StartsWith(path, pattern) {
      assert pattern[..|a| + 1] == a + "/";
      assert path[..|pattern|] == pattern;
      assert path[..|a| + 1] == pattern[..|a| + 1];
    }
  }

  /** With wildcards the test is incomplete: both patterns admit calc/xy.py and no overlap is seen. */
  lemma WildcardOverlapMissed(glob: Glob)
    requires glob("calc/xy.py", "calc/x*") && glob("calc/xy.py", "calc/*.py")
    requires !glob("calc/x*", "calc/*.py") && !glob("calc/*.py", "calc/x*")
    ensures Admits(glob, "calc/x*", "calc/xy.py") && Admits(glob, "calc/*.py", "calc/xy.py")
    ensures !ScopesOverlap(glob, "calc/x*", "calc/*.py")
  {
    var p, q := "calc/x*", "calc/*.py";
    assert p[|p| - 1] == '*' && q[|q| - 1] == 'y';
    assert Strip(p) == p && Strip(q) == q;
    assert p[5] == 'x' && q[5] == '*';
    assert (p + "/")[5] == 'x' && (q + "/")[5] == '*';
  }
}
