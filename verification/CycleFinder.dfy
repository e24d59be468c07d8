/** Depth-first search for dependency cycles (minifleet/architect.py, find_cycles). */
module CycleFinder {
  import opened Text
  import opened Dictionary
  import opened TaskGraph

  /** A node without a colour is still white. */
  datatype Colour = Grey | Black

  datatype Search<N> = Search(colour: map<N, Colour>, stack: seq<N>, cycles: seq<seq<N>>)

  function IndexOf<N(==)>(s: seq<N>, x: N): (i: nat)
    ensures i <= |s| && (i < |s| <==> x in s) && (i < |s| ==> s[i] == x)
  {
    if s == [] then 0
    else if s[0] == x then 0
    else 1 + IndexOf(s[1..], x)
  }

  /** The meaning of `visit`: enter n, scan its dependencies, leave it black. */
  function Visit<N(!new)>(g: Graph<N>, s: Search<N>, n: N): (r: Search<N>)
    requires n in Mentioned(g) && n !in s.colour
    ensures s.colour.Keys + {n} <= r.colour.Keys
    ensures r.stack == s.stack
    decreases Mentioned(g) - s.colour.Keys, 0, 0
  {
    assert s.colour[n := Grey].Keys == s.colour.Keys + {n};
    var t := Scan(g, Search(s.colour[n := Grey], s.stack + [n], s.cycles), n, 0);
    Search(t.colour[n := Black], t.stack[..|t.stack| - 1], t.cycles)
  }

  /** The dependencies of n from position i on, n being on top of the stack. */
  function Scan<N(!new)>(g: Graph<N>, s: Search<N>, n: N, i: nat): (r: Search<N>)
    requires i <= |Deps(g, n)|
    ensures s.colour.Keys <= r.colour.Keys
    ensures r.stack == s.stack
    decreases Mentioned(g) - s.colour.Keys, 1, |Deps(g, n)| - i, 1
  {
    if i == |Deps(g, n)| then s else Scan(g, Examine(g, s, n, i), n, i + 1)
  }

  /** One dependency: a white one is visited, a grey one closes a cycle, a black one is done. */
  function Examine<N(!new)>(g: Graph<N>, s: Search<N>, n: N, i: nat): (r: Search<N>)
    requires i < |Deps(g, n)|
    ensures s.colour.Keys <= r.colour.Keys
    ensures r.stack == s.stack
    decreases Mentioned(g) - s.colour.Keys, 1, |Deps(g, n)| - i, 0
  {
    var d := Deps(g, n)[i];
    if d !in s.colour then
      DependencyIsMentioned(g, n, i);
      Visit(g, s, d)
    else if s.colour[d] == Grey then Report(s, d)
    else s
  }

  /** The search after reporting the part of the stack that d closes into a cycle. */
  function Report<N(!new)>(s: Search<N>, d: N): Search<N> {
    s.(cycles := s.cycles + [s.stack[IndexOf(s.stack, d)..]])
  }

  /** The outer loop over the declared nodes, in their order of declaration. */
  function Roots<N(!new)>(g: Graph<N>, order: seq<N>, s: Search<N>, i: nat): (r: Search<N>)
    requires i <= |order| && Elements(order) == g.Keys
    ensures s.colour.Keys <= r.colour.Keys
    ensures r.stack == s.stack
    decreases |order| - i
  {
    if i == |order| then s
    else
      assert order[i] in Elements(order);
      Roots(g, order, if order[i] in s.colour then s else Visit(g, s, order[i]), i + 1)
  }

  /** Every cycle the search reports, in the order it reports them. */
  function FindCycles<N(!new)>(d: Dict<N, seq<N>>): seq<seq<N>>
    requires d.Valid()
  {
    Roots(d.table, d.keys, Search(map[], [], []), 0).cycles
  }

  /** A cycle that visits no task twice. */
  ghost predicate IsSimpleCycle<N(!new)>(g: Graph<N>, c: seq<N>) {
    IsCycle(g, c) && Distinct(c)
  }

  /** The stack is the grey path from a root to the node being visited. */
  ghost predicate GreyPath<N(!new)>(g: Graph<N>, s: Search<N>) {
    && (forall n :: n in s.stack <==> n in s.colour && s.colour[n] == Grey)
    && Distinct(s.stack)
    && (s.stack != [] ==> IsWalk(g, s.stack))
  }

  ghost predicate Sound<N(!new)>(g: Graph<N>, s: Search<N>) {
    forall c :: c in s.cycles ==> IsSimpleCycle(g, c)
  }

  ghost predicate OnTop<N(!new)>(s: Search<N>, n: N) {
    s.stack != [] && s.stack[|s.stack| - 1] == n
  }

  ghost predicate Reachable<N(!new)>(g: Graph<N>, s: Search<N>, n: N) {
    s.stack != [] ==> n in Deps(g, s.stack[|s.stack| - 1])
  }

  lemma Entered<N(!new)>(g: Graph<N>, s: Search<N>, n: N)
    requires GreyPath(g, s) && n !in s.colour && Reachable(g, s, n)
    ensures GreyPath(g, Search(s.colour[n := Grey], s.stack + [n], s.cycles))
  {
    var t := Search(s.colour[n := Grey], s.stack + [n], s.cycles);
    forall x ensures x in t.stack <==> x in t.colour && t.colour[x] == Grey {
      assert x in t.stack <==> x in s.stack || x == n;
    }
    if s.stack != [] { ExtendWalk(g, s.stack, n); }
    forall i, j | 0 <= i < j < |t.stack| ensures t.stack[i] != t.stack[j] {
      if j == |s.stack| { assert s.stack[i] in s.stack; }
    }
  }

  lemma Left<N(!new)>(g: Graph<N>, s: Search<N>, n: N)
    requires GreyPath(g, s) && OnTop(s, n)
    ensures GreyPath(g, Search(s.colour[n := Black], s.stack[..|s.stack| - 1], s.cycles))
  {
    var rest := s.stack[..|s.stack| - 1];
    assert s.stack == rest + [n];
    forall x ensures x in rest <==> x in s.colour[n := Black] && s.colour[n := Black][x] == Grey {
      assert x in s.stack <==> x in rest || x == n;
    }
    if rest != [] {
      forall k | 0 <= k < |rest| - 1 ensures Follows(g, rest, k) {
        assert Follows(g, s.stack, k);
      }
    }
  }

  lemma Reported<N(!new)>(g: Graph<N>, s: Search<N>, n: N, d: N)
    requires GreyPath(g, s) && Sound(g, s) && OnTop(s, n)
    requires d in Deps(g, n) && d in s.stack
    ensures GreyPath(g, Report(s, d)) && Sound(g, Report(s, d))
  {
    TailCycle(g, s.stack, IndexOf(s.stack, d));
  }

  /** Whatever is reported is a real simple cycle. */
  lemma {:induction false} VisitSound<N(!new)>(g: Graph<N>, s: Search<N>, n: N)
    requires n in Mentioned(g) && n !in s.colour
    requires GreyPath(g, s) && Sound(g, s) && Reachable(g, s, n)
    ensures GreyPath(g, Visit(g, s, n)) && Sound(g, Visit(g, s, n))
    decreases Mentioned(g) - s.colour.Keys, 0, 0
  {
    var e := Search(s.colour[n := Grey], s.stack + [n], s.cycles);
    Entered(g, s, n);
    assert e.colour.Keys == s.colour.Keys + {n};
    ScanSound(g, e, n, 0);
    Left(g, Scan(g, e, n, 0), n);
  }

  lemma {:induction false} ScanSound<N(!new)>(g: Graph<N>, s: Search<N>, n: N, i: nat)
    requires i <= |Deps(g, n)|
    requires GreyPath(g, s) && Sound(g, s) && OnTop(s, n)
    ensures GreyPath(g, Scan(g, s, n, i)) && Sound(g, Scan(g, s, n, i))
    decreases Mentioned(g) - s.colour.Keys, 1, |Deps(g, n)| - i
  {
    if i < |Deps(g, n)| {
      var d := Deps(g, n)[i];
      if d !in s.colour {
        DependencyIsMentioned(g, n, i);
        VisitSound(g, s, d);
      } else if s.colour[d] == Grey {
        Reported(g, s, n, d);
      }
      ScanSound(g, Examine(g, s, n, i), n, i + 1);
    }
  }

  /** r goes on from s: colours already given stay, and reports are never withdrawn. */
  ghost predicate Continues<N(!new)>(s: Search<N>, r: Search<N>) {
    && (forall n :: n in s.colour ==> n in r.colour && r.colour[n] == s.colour[n])
    && (forall c :: c in s.cycles ==> c in r.cycles)
  }

  ghost predicate IsBlack<N(!new)>(s: Search<N>, n: N) {
    n in s.colour && s.colour[n] == Black
  }

  /** The edge from n to d closed a reported cycle: n is its last member, d its first. */
  ghost predicate Closes<N(!new)>(cycles: seq<seq<N>>, n: N, d: N) {
    exists c :: c in cycles && c != [] && c[|c| - 1] == n && c[0] == d
  }

  /** The search is done with this edge: its target is finished, or the edge closed a reported cycle. */
  ghost predicate Settled<N(!new)>(s: Search<N>, n: N, d: N) {
    IsBlack(s, d) || Closes(s.cycles, n, d)
  }

  ghost predicate SettledUpTo<N(!new)>(g: Graph<N>, s: Search<N>, n: N, i: nat)
    requires i <= |Deps(g, n)|
  {
    forall k :: 0 <= k < i ==> Settled(s, n, Deps(g, n)[k])
  }

  lemma StaysSettled<N(!new)>(g: Graph<N>, s: Search<N>, r: Search<N>, n: N, i: nat)
    requires i <= |Deps(g, n)| && SettledUpTo(g, s, n, i) && Continues(s, r)
    ensures SettledUpTo(g, r, n, i)
  {
    forall k | 0 <= k < i ensures Settled(r, n, Deps(g, n)[k]) {
      assert Settled(s, n, Deps(g, n)[k]);
    }
  }

  lemma ReportCloses<N(!new)>(s: Search<N>, n: N, d: N)
    requires OnTop(s, n) && d in s.stack
    ensures Continues(s, Report(s, d)) && Closes(Report(s, d).cycles, n, d)
  {
    var c := s.stack[IndexOf(s.stack, d)..];
    assert Report(s, d).cycles[|s.cycles|] == c;
    assert c[|c| - 1] == n && c[0] == d;
  }

  /** A visit finishes its node, and settles every edge that leaves it. */
  lemma {:induction false} VisitSettles<N(!new)>(g: Graph<N>, s: Search<N>, n: N)
    requires n in Mentioned(g) && n !in s.colour
    requires GreyPath(g, s) && Sound(g, s) && Reachable(g, s, n)
    ensures Continues(s, Visit(g, s, n)) && IsBlack(Visit(g, s, n), n)
    ensures SettledUpTo(g, Visit(g, s, n), n, |Deps(g, n)|)
    decreases Mentioned(g) - s.colour.Keys, 0, 0
  {
    var e := Search(s.colour[n := Grey], s.stack + [n], s.cycles);
    Entered(g, s, n);
    assert e.colour.Keys == s.colour.Keys + {n};
    ScanSettles(g, e, n, 0);
    LeavingSettles(g, s, n);
  }

  /** Leaving a node keeps the edges that were settled while it was on top. */
  lemma LeavingSettles<N(!new)>(g: Graph<N>, s: Search<N>, n: N)
    requires n in Mentioned(g) && n !in s.colour
    requires SettledUpTo(g, Scan(g, Search(s.colour[n := Grey], s.stack + [n], s.cycles), n, 0), n, |Deps(g, n)|)
    ensures SettledUpTo(g, Visit(g, s, n), n, |Deps(g, n)|)
  {
    var t := Scan(g, Search(s.colour[n := Grey], s.stack + [n], s.cycles), n, 0);
    forall k | 0 <= k < |Deps(g, n)| ensures Settled(Visit(g, s, n), n, Deps(g, n)[k]) {
      assert Settled(t, n, Deps(g, n)[k]);
    }
  }

  lemma {:induction false} ScanSettles<N(!new)>(g: Graph<N>, s: Search<N>, n: N, i: nat)
    requires i <= |Deps(g, n)| && SettledUpTo(g, s, n, i)
    requires GreyPath(g, s) && Sound(g, s) && OnTop(s, n)
    ensures Continues(s, Scan(g, s, n, i))
    ensures SettledUpTo(g, Scan(g, s, n, i), n, |Deps(g, n)|)
    decreases Mentioned(g) - s.colour.Keys, 1, |Deps(g, n)| - i
  {
    if i < |Deps(g, n)| {
      var t := Examine(g, s, n, i);
      ExamineSettles(g, s, n, i);
      StaysSettled(g, s, t, n, i);
      ScanSettles(g, t, n, i + 1);
    }
  }

  lemma {:induction false} ExamineSettles<N(!new)>(g: Graph<N>, s: Search<N>, n: N, i: nat)
    requires i < |Deps(g, n)|
    requires GreyPath(g, s) && Sound(g, s) && OnTop(s, n)
    ensures var t := Examine(g, s, n, i);
            && GreyPath(g, t) && Sound(g, t) && Continues(s, t) && Settled(t, n, Deps(g, n)[i])
    decreases Mentioned(g) - s.colour.Keys, 1, |Deps(g, n)| - i, 0
  {
    var d := Deps(g, n)[i];
    if d !in s.colour {
      DependencyIsMentioned(g, n, i);
      VisitSound(g, s, d);
      VisitSettles(g, s, d);
    } else if s.colour[d] == Grey {
      Reported(g, s, n, d);
      ReportCloses(s, n, d);
    }
  }

  /** A numbering that puts every node above its dependencies, but for the edges that closed a reported cycle. */
  ghost predicate RanksBut<N(!new)>(g: Graph<N>, cycles: seq<seq<N>>, rank: map<N, nat>) {
    forall n, d {:trigger d in Deps(g, n)} :: n in rank && d in Deps(g, n) ==>
      Closes(cycles, n, d) || (d in rank && rank[d] < rank[n])
  }

  /** The black nodes are ranked. */
  ghost predicate Certified<N(!new)>(g: Graph<N>, s: Search<N>, rank: map<N, nat>) {
    RanksBut(g, s.cycles, rank) && Bounded(rank) && forall n :: n in rank <==> IsBlack(s, n)
  }

  ghost predicate Bounded<N(!new)>(rank: map<N, nat>) {
    forall n :: n in rank ==> rank[n] < |rank|
  }

  lemma RankedNext<N(!new)>(g: Graph<N>, cycles: seq<seq<N>>, rank: map<N, nat>, n: N)
    requires RanksBut(g, cycles, rank) && Bounded(rank) && n !in rank
    requires forall d :: d in Deps(g, n) ==> d in rank || Closes(cycles, n, d)
    ensures RanksBut(g, cycles, rank[n := |rank|]) && Bounded(rank[n := |rank|])
  {
    BoundedNext(rank, n);
    var rank' := rank[n := |rank|];
    forall x, d | x in rank' && d in Deps(g, x)
      ensures Closes(cycles, x, d) || (d in rank' && rank'[d] < rank'[x])
    {
      if x != n && !Closes(cycles, x, d) { assert d in rank && d != n && rank[d] < rank[x]; }
    }
  }

  lemma BoundedNext<N(!new)>(rank: map<N, nat>, n: N)
    requires Bounded(rank) && n !in rank
    ensures Bounded(rank[n := |rank|])
  {
    var rank' := rank[n := |rank|];
    assert rank'.Keys == rank.Keys + {n};
    assert |rank'.Keys| == |rank.Keys| + 1;
  }

  lemma MoreReports<N(!new)>(g: Graph<N>, s: Search<N>, r: Search<N>, rank: map<N, nat>)
    requires RanksBut(g, s.cycles, rank) && Continues(s, r)
    ensures RanksBut(g, r.cycles, rank)
  {
    forall n, d | n in rank && d in Deps(g, n) ensures Closes(r.cycles, n, d) || (d in rank && rank[d] < rank[n]) {
      if Closes(s.cycles, n, d) {
        var c :| c in s.cycles && c != [] && c[|c| - 1] == n && c[0] == d;
        assert c in r.cycles;
      }
    }
  }

  lemma Finished<N(!new)>(g: Graph<N>, t: Search<N>, n: N, rank: map<N, nat>) returns (rank': map<N, nat>)
    requires Certified(g, t, rank) && OnTop(t, n) && n in t.colour && t.colour[n] == Grey
    requires SettledUpTo(g, t, n, |Deps(g, n)|)
    ensures Certified(g, Search(t.colour[n := Black], t.stack[..|t.stack| - 1], t.cycles), rank')
  {
    rank' := rank[n := |rank|];
    forall d | d in Deps(g, n) ensures d in rank || Closes(t.cycles, n, d) {
      var k :| 0 <= k < |Deps(g, n)| && Deps(g, n)[k] == d;
      assert Settled(t, n, Deps(g, n)[k]);
    }
    RankedNext(g, t.cycles, rank, n);
  }

  lemma {:induction false} VisitCertified<N(!new)>(g: Graph<N>, s: Search<N>, n: N, rank: map<N, nat>)
    returns (rank': map<N, nat>)
    requires n in Mentioned(g) && n !in s.colour && Certified(g, s, rank)
    requires GreyPath(g, s) && Sound(g, s) && Reachable(g, s, n)
    ensures Certified(g, Visit(g, s, n), rank')
    decreases Mentioned(g) - s.colour.Keys, 0, 0
  {
    var e := Search(s.colour[n := Grey], s.stack + [n], s.cycles);
    Entered(g, s, n);
    assert e.colour.Keys == s.colour.Keys + {n};
    assert forall x :: IsBlack(e, x) <==> IsBlack(s, x);
    var mid := ScanCertified(g, e, n, 0, rank);
    ScanSettles(g, e, n, 0);
    rank' := Finished(g, Scan(g, e, n, 0), n, mid);
  }

  lemma {:induction false} ScanCertified<N(!new)>(g: Graph<N>, s: Search<N>, n: N, i: nat, rank: map<N, nat>)
    returns (rank': map<N, nat>)
    requires i <= |Deps(g, n)| && Certified(g, s, rank)
    requires GreyPath(g, s) && Sound(g, s) && OnTop(s, n)
    ensures Certified(g, Scan(g, s, n, i), rank')
    decreases Mentioned(g) - s.colour.Keys, 1, |Deps(g, n)| - i
  {
    rank' := rank;
    if i < |Deps(g, n)| {
      ExamineSettles(g, s, n, i);
      rank' := ExamineCertified(g, s, n, i, rank);
      rank' := ScanCertified(g, Examine(g, s, n, i), n, i + 1, rank');
    }
  }

  lemma {:induction false} ExamineCertified<N(!new)>(g: Graph<N>, s: Search<N>, n: N, i: nat, rank: map<N, nat>)
    returns (rank': map<N, nat>)
    requires i < |Deps(g, n)| && Certified(g, s, rank)
    requires GreyPath(g, s) && Sound(g, s) && OnTop(s, n)
    ensures Certified(g, Examine(g, s, n, i), rank')
    decreases Mentioned(g) - s.colour.Keys, 1, |Deps(g, n)| - i, 0
  {
    var d := Deps(g, n)[i];
    rank' := rank;
    if d !in s.colour {
      DependencyIsMentioned(g, n, i);
      rank' := VisitCertified(g, s, d, rank);
    } else if s.colour[d] == Grey {
      ReportCloses(s, n, d);
      MoreReports(g, s, Report(s, d), rank);
      assert forall x :: IsBlack(Report(s, d), x) <==> IsBlack(s, x);
    }
  }

  lemma {:induction false} RootsSound<N(!new)>(g: Graph<N>, order: seq<N>, s: Search<N>, i: nat)
    requires i <= |order| && Elements(order) == g.Keys
    requires GreyPath(g, s) && Sound(g, s) && s.stack == []
    ensures Sound(g, Roots(g, order, s, i))
    decreases |order| - i
  {
    if i < |order| {
      assert order[i] in Elements(order);
      if order[i] !in s.colour { VisitSound(g, s, order[i]); }
      RootsSound(g, order, if order[i] in s.colour then s else Visit(g, s, order[i]), i + 1);
    }
  }

  ghost predicate BlackUpTo<N(!new)>(names: seq<N>, i: nat, s: Search<N>)
    requires i <= |names|
  {
    forall k :: 0 <= k < i ==> IsBlack(s, names[k])
  }

  lemma {:induction false} RootsCertified<N(!new)>(g: Graph<N>, order: seq<N>, s: Search<N>, i: nat, rank: map<N, nat>)
    returns (rank': map<N, nat>)
    requires i <= |order| && Elements(order) == g.Keys
    requires s.stack == [] && Certified(g, s, rank) && BlackUpTo(order, i, s)
    requires GreyPath(g, s) && Sound(g, s)
    ensures Certified(g, Roots(g, order, s, i), rank') && BlackUpTo(order, |order|, Roots(g, order, s, i))
    decreases |order| - i
  {
    rank' := rank;
    if i < |order| {
      var n := order[i];
      assert n in Elements(order);
      if n in s.colour {
        assert n !in s.stack;
        rank' := RootsCertified(g, order, s, i + 1, rank);
      } else {
        VisitSound(g, s, n);
        VisitSettles(g, s, n);
        rank' := VisitCertified(g, s, n, rank);
        rank' := RootsCertified(g, order, Visit(g, s, n), i + 1, rank');
      }
    }
  }

  /** What the whole search leaves behind: every declared node has a rank. */
  lemma SearchRanks<N(!new)>(d: Dict<N, seq<N>>) returns (rank: map<N, nat>)
    requires d.Valid()
    ensures RanksBut(d.table, FindCycles(d), rank) && d.table.Keys <= rank.Keys
  {
    var start := Search(map[], [], []);
    rank := RootsCertified(d.table, d.keys, start, 0, map[]);
    var r := Roots(d.table, d.keys, start, 0);
    forall n | n in d.table ensures n in rank {
      assert n in Elements(d.keys);
      var k :| 0 <= k < |d.keys| && d.keys[k] == n;
      assert IsBlack(r, d.keys[k]);
    }
  }

  /** Some edge of c closed a reported cycle. */
  ghost predicate HoldsClosing<N(!new)>(cycles: seq<seq<N>>, c: seq<N>) {
    exists i :: 0 <= i < |c| && Closes(cycles, c[i], NextOn(c, i))
  }

  lemma RankStep<N(!new)>(g: Graph<N>, cycles: seq<seq<N>>, rank: map<N, nat>, c: seq<N>, i: nat)
    requires RanksBut(g, cycles, rank) && IsCycle(g, c) && !HoldsClosing(cycles, c) && i < |c| && c[i] in rank
    ensures NextOn(c, i) in rank && rank[NextOn(c, i)] < rank[c[i]]
  {
    CycleSteps(g, c);
    assert NextOn(c, i) in Deps(g, c[i]) && !Closes(cycles, c[i], NextOn(c, i));
  }

  lemma {:induction false} RankAlong<N(!new)>(g: Graph<N>, cycles: seq<seq<N>>, rank: map<N, nat>, c: seq<N>, i: nat)
    requires RanksBut(g, cycles, rank) && IsCycle(g, c) && !HoldsClosing(cycles, c) && i < |c| && c[0] in rank
    ensures c[i] in rank && rank[c[i]] <= rank[c[0]]
  {
    if i > 0 {
      RankAlong(g, cycles, rank, c, i - 1);
      RankStep(g, cycles, rank, c, i - 1);
    }
  }

  /** Completeness: the search need not report every cycle, but every cycle of the graph runs through an edge
      that closed a reported one. */
  lemma EveryCycleHoldsClosing<N(!new)>(d: Dict<N, seq<N>>, c: seq<N>)
    requires d.Valid() && IsCycle(d.table, c)
    ensures HoldsClosing(FindCycles(d), c)
  {
    var rank := SearchRanks(d);
    CycleSteps(d.table, c);
    assert NextOn(c, 0) in Deps(d.table, c[0]);
    if !HoldsClosing(FindCycles(d), c) {
      RankAlong(d.table, FindCycles(d), rank, c, |c| - 1);
    }
  }

  /** Exactness: only real simple cycles are reported, and none is reported exactly when none exists. */
  lemma FindCyclesExact<N(!new)>(d: Dict<N, seq<N>>)
    requires d.Valid()
    ensures forall c :: c in FindCycles(d) ==> IsSimpleCycle(d.table, c)
    ensures FindCycles(d) == [] <==> !HasCycle(d.table)
  {
    RootsSound(d.table, d.keys, Search(map[], [], []), 0);
    if FindCycles(d) != [] { assert FindCycles(d)[0] in FindCycles(d); }
    if c :| IsCycle(d.table, c) { EveryCycleHoldsClosing(d, c); }
  }

  /** The edge of a cycle that closed a reported one, and the report. */
  lemma ClosingReport<N(!new)>(d: Dict<N, seq<N>>, c: seq<N>) returns (i: nat, r: seq<N>)
    requires d.Valid() && IsCycle(d.table, c)
    ensures r in FindCycles(d) && IsSimpleCycle(d.table, r)
    ensures i < |c| && r[|r| - 1] == c[i] && r[0] == NextOn(c, i)
  {
    FindCyclesExact(d);
    EveryCycleHoldsClosing(d, c);
    i :| 0 <= i < |c| && Closes(FindCycles(d), c[i], NextOn(c, i));
    r :| r in FindCycles(d) && r != [] && r[|r| - 1] == c[i] && r[0] == NextOn(c, i);
  }

  /** The search as the source runs it: one object whose colours, stack and report change in place. */
  class Finder<N(==,!new)> {
    const graph: Graph<N>
    var colour: map<N, Colour>
    var stack: seq<N>
    var cycles: seq<seq<N>>

    ghost function State(): Search<N>
      reads this
    {
      Search(colour, stack, cycles)
    }

    constructor (g: Graph<N>)
      ensures graph == g && State() == Search(map[], [], [])
    {
      graph := g;
      colour, stack, cycles := map[], [], [];
    }

    method VisitNode(n: N)
      requires n in Mentioned(graph) && n !in colour
      modifies this
      ensures State() == Visit(graph, old(State()), n)
      decreases Mentioned(graph) - colour.Keys
    {
      colour := colour[n := Grey];
      stack := stack + [n];
      var deps := Deps(graph, n);
      ghost var entered := State();
      for i := 0 to |deps|
        invariant old(colour).Keys + {n} <= colour.Keys
        invariant Scan(graph, State(), n, i) == Scan(graph, entered, n, 0)
      {
        var d := deps[i];
        if d in colour && colour[d] == Grey {
          var at := IndexOf(stack, d);
          cycles := cycles + [stack[at..]];
        } else if d !in colour {
          DependencyIsMentioned(graph, n, i);
          VisitNode(d);
        }
      }
      stack := stack[..|stack| - 1];
      colour := colour[n := Black];
    }
  }

  method FindAllCycles<N(!new)>(d: Dict<N, seq<N>>) returns (cycles: seq<seq<N>>)
    requires d.Valid()
    ensures cycles == FindCycles(d)
  {
    var f := new Finder(d.table);
    for i := 0 to |d.keys|
      invariant Roots(d.table, d.keys, f.State(), i).cycles == FindCycles(d)
    {
      assert d.keys[i] in Elements(d.keys);
      if d.keys[i] !in f.colour {
        f.VisitNode(d.keys[i]);
      }
    }
    return f.cycles;
  }
}
