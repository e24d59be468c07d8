/** Repair alone does not make every graph acyclic: one search need not report every cycle. */
module RepairExample {
  import opened Text
  import opened Dictionary
  import opened TaskGraph
  import opened CycleFinder
  import opened Model
  import opened Architect

  /** v depends on a and b, both of these on u, and u on v. */
  function Diamond<N(==)>(v: N, a: N, b: N, u: N): Dict<N, seq<N>> {
    Dict([v, a, b, u], map[v := [a, b], a := [u], b := [u], u := [v]])
  }

  ghost predicate Four<N>(v: N, a: N, b: N, u: N) {
    v != a && v != b && v != u && a != b && a != u && b != u
  }

  lemma DiamondDeps<N(!new)>(v: N, a: N, b: N, u: N)
    requires Four(v, a, b, u)
    ensures Diamond(v, a, b, u).Valid()
    ensures var g := Diamond(v, a, b, u).table;
            && Deps(g, v) == [a, b] && Deps(g, a) == [u] && Deps(g, b) == [u] && Deps(g, u) == [v]
            && v in Mentioned(g) && a in Mentioned(g) && b in Mentioned(g) && u in Mentioned(g)
  {
    var d := Diamond(v, a, b, u);
    assert Elements(d.keys) == d.table.Keys;
  }

  /** u meets the grey v and reports v, a, u. */
  lemma VisitLast<N(!new)>(v: N, a: N, b: N, u: N)
    requires Four(v, a, b, u)
    ensures Visit(Diamond(v, a, b, u).table, Search(map[v := Grey, a := Grey], [v, a], []), u)
         == Search(map[v := Grey, a := Grey, u := Black], [v, a], [[v, a, u]])
  {
    var g := Diamond(v, a, b, u).table;
    DiamondDeps(v, a, b, u);
    var s := Search(map[v := Grey, a := Grey][u := Grey], [v, a] + [u], []);
    assert s.stack == [v, a, u] && IndexOf(s.stack, v) == 0 && s.stack[0..] == s.stack;
    var t := s.(cycles := [[v, a, u]]);
    assert Examine(g, s, u, 0) == t;
    assert Scan(g, t, u, 1) == t;
    assert Scan(g, s, u, 0) == t;
    assert t.stack[..2] == [v, a];
  }

  lemma VisitSecond<N(!new)>(v: N, a: N, b: N, u: N)
    requires Four(v, a, b, u)
    ensures Visit(Diamond(v, a, b, u).table, Search(map[v := Grey], [v], []), a)
         == Search(map[v := Grey, a := Black, u := Black], [v], [[v, a, u]])
  {
    var g := Diamond(v, a, b, u).table;
    DiamondDeps(v, a, b, u);
    VisitLast(v, a, b, u);
    var s := Search(map[v := Grey][a := Grey], [v] + [a], []);
    assert s == Search(map[v := Grey, a := Grey], [v, a], []);
    var t := Search(map[v := Grey, a := Grey, u := Black], [v, a], [[v, a, u]]);
    assert Examine(g, s, a, 0) == t;
    assert Scan(g, t, a, 1) == t;
    assert Scan(g, s, a, 0) == t;
    assert t.stack[..1] == [v];
    assert t.colour[a := Black] == map[v := Grey, a := Black, u := Black];
  }

  /** When b is examined, u is black: the cycle through b is not seen. */
  lemma VisitThird<N(!new)>(v: N, a: N, b: N, u: N)
    requires Four(v, a, b, u)
    ensures Visit(Diamond(v, a, b, u).table, Search(map[v := Grey, a := Black, u := Black], [v], [[v, a, u]]), b)
         == Search(map[v := Grey, a := Black, u := Black, b := Black], [v], [[v, a, u]])
  {
    var g := Diamond(v, a, b, u).table;
    DiamondDeps(v, a, b, u);
    var s := Search(map[v := Grey, a := Black, u := Black][b := Grey], [v] + [b], [[v, a, u]]);
    assert Examine(g, s, b, 0) == s;
    assert Scan(g, s, b, 1) == s;
    assert Scan(g, s, b, 0) == s;
    assert s.stack[..1] == [v];
    assert s.colour[b := Black] == map[v := Grey, a := Black, u := Black, b := Black];
  }

  lemma VisitFirst<N(!new)>(v: N, a: N, b: N, u: N)
    requires Four(v, a, b, u)
    ensures v in Mentioned(Diamond(v, a, b, u).table)
    ensures Visit(Diamond(v, a, b, u).table, Search(map[], [], []), v)
         == Search(map[v := Black, a := Black, u := Black, b := Black], [], [[v, a, u]])
  {
    var g := Diamond(v, a, b, u).table;
    DiamondDeps(v, a, b, u);
    VisitSecond(v, a, b, u);
    VisitThird(v, a, b, u);
    var none: Search<N> := Search(map[], [], []);
    var s := Search(none.colour[v := Grey], none.stack + [v], none.cycles);
    assert s == Search(map[v := Grey], [v], []);
    var s1 := Search(map[v := Grey, a := Black, u := Black], [v], [[v, a, u]]);
    var s2 := Search(map[v := Grey, a := Black, u := Black, b := Black], [v], [[v, a, u]]);
    assert Examine(g, s, v, 0) == s1;
    assert Examine(g, s1, v, 1) == s2;
    assert Scan(g, s2, v, 2) == s2;
    assert Scan(g, s1, v, 1) == s2;
    assert Scan(g, s, v, 0) == s2;
    assert s2.stack[..0] == [];
    assert s2.colour[v := Black] == map[v := Black, a := Black, u := Black, b := Black];
  }

  /** Walking v, a, u closes one cycle; the cycle v, b, u goes unreported. */
  lemma DiamondReport<N(!new)>(v: N, a: N, b: N, u: N)
    requires Four(v, a, b, u)
    ensures Diamond(v, a, b, u).Valid()
    ensures FindCycles(Diamond(v, a, b, u)) == [[v, a, u]]
  {
    var d := Diamond(v, a, b, u);
    DiamondDeps(v, a, b, u);
    VisitFirst(v, a, b, u);
    var all := Search(map[v := Black, a := Black, u := Black, b := Black], [], [[v, a, u]]);
    assert Roots(d.table, d.keys, all, 4) == all;
    assert Roots(d.table, d.keys, all, 3) == all;
    assert Roots(d.table, d.keys, all, 2) == all;
    assert Roots(d.table, d.keys, all, 1) == all;
  }

  function DiamondTasks(v: string, a: string, b: string, u: string): seq<Task> {
    [Bare(v, [a, b]), Bare(a, [u]), Bare(b, [u]), Bare(u, [v])]
  }

  /** A task with a new id adds one entry at the end. */
  lemma DictSnoc(ts: seq<Task>, t: Task, keys: seq<string>, table: map<string, seq<string>>)
    requires DependencyDict(ts) == Dict(keys, table) && t.id !in table
    ensures DependencyDict(ts + [t]) == Dict(keys + [t.id], table[t.id := t.dependsOn])
  {
    assert (ts + [t])[..|ts|] == ts;
  }

  lemma DictOfTwo(s: Task, t: Task)
    requires s.id != t.id
    ensures DependencyDict([s, t]) == Dict([s.id, t.id], map[s.id := s.dependsOn, t.id := t.dependsOn])
  {
    assert [] + [s] == [s] && [s] + [t] == [s, t];
    DictSnoc([], s, [], map[]);
    DictSnoc([s], t, [s.id], map[s.id := s.dependsOn]);
  }

  lemma DiamondDict(v: string, a: string, b: string, u: string)
    requires Four(v, a, b, u)
    ensures DependencyDict(DiamondTasks(v, a, b, u)) == Diamond(v, a, b, u)
  {
    var tv, ta, tb, tu := Bare(v, [a, b]), Bare(a, [u]), Bare(b, [u]), Bare(u, [v]);
    var two, three := map[v := [a, b], a := [u]], map[v := [a, b], a := [u], b := [u]];
    DictOfTwo(tv, ta);
    assert [tv, ta] + [tb] == [tv, ta, tb] && [v, a] + [b] == [v, a, b] && two[b := [u]] == three;
    DictSnoc([tv, ta], tb, [v, a], two);
    LastOfFour(tv, ta, tb, tu, three);
  }

  lemma LastOfFour(s: Task, t: Task, x: Task, y: Task, table: map<string, seq<string>>)
    requires DependencyDict([s, t, x]) == Dict([s.id, t.id, x.id], table) && y.id !in table
    ensures DependencyDict([s, t, x, y]) == Dict([s.id, t.id, x.id, y.id], table[y.id := y.dependsOn])
  {
    assert [s, t, x] + [y] == [s, t, x, y];
    assert [s.id, t.id, x.id] + [y.id] == [s.id, t.id, x.id, y.id];
    DictSnoc([s, t, x], y, [s.id, t.id, x.id], table);
  }

  lemma SmallestIsVictim(c: seq<string>, a: string)
    requires a in c && forall x :: x in c ==> Leq(a, x)
    ensures Victim(c) == a
  {
    SortCorrect(c);
    SortKeepsElements(c);
    var s := Sort(c);
    assert s[0] in Elements(s) && a in Elements(s);
    var i :| 0 <= i < |s| && s[i] == a;
    LeqTotal(a, a);
    assert Leq(s[0], s[i]);
    LeqAntisymmetric(a, s[0]);
  }

  lemma OtherCycle<N(!new)>(v: N, a: N, b: N, u: N)
    requires Four(v, a, b, u)
    ensures IsCycle(Diamond(v, a, b, u).table, [v, b, u]) && a !in [v, b, u]
  {
    var g, c := Diamond(v, a, b, u).table, [v, b, u];
    DiamondDeps(v, a, b, u);
    assert Follows(g, c, 0) && Follows(g, c, 1);
  }

  /** Repair drops a's edge, and v, b, u is still a cycle; only the review that follows refuses the plan. */
  lemma DiamondStaysCyclic(v: string, a: string, b: string, u: string)
    requires Four(v, a, b, u) && Leq(a, v) && Leq(a, u)
    ensures UniqueIds(DiamondTasks(v, a, b, u)) && Reports(DiamondTasks(v, a, b, u)) == [[v, a, u]]
    ensures IsCycle(GraphOf(RepairTasks(DiamondTasks(v, a, b, u))), [v, b, u])
  {
    DiamondIds(v, a, b, u);
    DiamondReports(v, a, b, u);
    LeqTotal(a, a);
    OtherCycleSurvives(DiamondTasks(v, a, b, u), v, a, b, u);
  }

  lemma DiamondIds(v: string, a: string, b: string, u: string)
    requires Four(v, a, b, u)
    ensures UniqueIds(DiamondTasks(v, a, b, u))
  {
  }

  lemma DiamondReports(v: string, a: string, b: string, u: string)
    requires Four(v, a, b, u)
    ensures GraphOf(DiamondTasks(v, a, b, u)) == Diamond(v, a, b, u).table
    ensures Reports(DiamondTasks(v, a, b, u)) == [[v, a, u]]
  {
    DiamondDict(v, a, b, u);
    DiamondReport(v, a, b, u);
  }

  lemma OtherCycleSurvives(ts: seq<Task>, v: string, a: string, b: string, u: string)
    requires Four(v, a, b, u) && Leq(a, v) && Leq(a, u) && Leq(a, a)
    requires UniqueIds(ts) && GraphOf(ts) == Diamond(v, a, b, u).table && Reports(ts) == [[v, a, u]]
    ensures IsCycle(GraphOf(RepairTasks(ts)), [v, b, u])
  {
    OtherCycle(v, a, b, u);
    SmallestIsVictim([v, a, u], a);
    NotCut(ts, [v, a, u], [v, b, u], a);
    CycleSurvivesIff(ts, [v, b, u]);
  }

  lemma NotCut(ts: seq<Task>, reported: seq<string>, c: seq<string>, a: string)
    requires Reports(ts) == [reported] && reported != [] && Victim(reported) == a
    requires c != [] && a !in c
    ensures !Cut(ts, c)
  {
  }

  /** A concrete plan that repair leaves cyclic. */
  lemma RepairCanLeaveACycle()
    ensures IsCycle(GraphOf(RepairTasks(DiamondTasks("v", "a", "b", "u"))), ["v", "b", "u"])
  {
    assert "v"[0] == 'v' && "a"[0] == 'a' && "b"[0] == 'b' && "u"[0] == 'u';
    DiamondStaysCyclic("v", "a", "b", "u");
  }
}
