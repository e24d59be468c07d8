/** When breaking the reported cycles is enough (minifleet/architect.py, repair). */
module CycleBreaking {
  import opened Text
  import opened Dictionary
  import opened TaskGraph
  import opened CycleFinder
  import opened Model
  import opened Architect

  /** The edges of a cycle, whatever member it is written from. */
  function EdgesOf(c: seq<string>): set<(string, string)> {
    set i | 0 <= i < |c| :: (c[i], NextOn(c, i))
  }

  /** Two simple cycles with a common edge have all edges in common. */
  ghost predicate CyclesApart(g: Graph<string>) {
    forall c, e :: IsSimpleCycle(g, c) && IsSimpleCycle(g, e) ==> EdgesOf(c) == EdgesOf(e) || EdgesOf(c) !! EdgesOf(e)
  }

  ghost predicate Matched(reports: seq<seq<string>>, c: seq<string>) {
    exists r :: r in reports && Elements(r) == Elements(c)
  }

  /** Every simple cycle has the members of a reported one. */
  ghost predicate AllMatched(tasks: seq<Task>) {
    forall c :: IsSimpleCycle(GraphOf(tasks), c) ==> Matched(Reports(tasks), c)
  }

  lemma InElements(c: seq<string>, x: string) returns (i: nat)
    requires x in Elements(c)
    ensures i < |c| && c[i] == x
  {
    i :| 0 <= i < |c| && c[i] == x;
  }

  /** Whoever of the members gives way, a cycle with the members of a reported one is cut. */
  lemma MatchedIsCut(tasks: seq<Task>, c: seq<string>)
    requires c != [] && Matched(Reports(tasks), c)
    ensures Cut(tasks, c)
  {
    var r :| r in Reports(tasks) && Elements(r) == Elements(c);
    var k :| 0 <= k < |Reports(tasks)| && Reports(tasks)[k] == r;
    assert c[0] in Elements(r);
    SortKeepsElements(r);
    assert Victim(r) in Elements(Sort(r));
    var i := InElements(c, Victim(r));
    assert NextOn(c, i) in Elements(c);
    assert Dropped(Reports(tasks), c[i], NextOn(c, i));
  }

  /** Repair leaves no cycle when every simple cycle has the members of a reported one. */
  lemma RepairBreaksMatched(tasks: seq<Task>)
    requires UniqueIds(tasks) && AllMatched(tasks)
    ensures !HasCycle(GraphOf(RepairTasks(tasks)))
  {
    forall c | IsSimpleCycle(GraphOf(tasks), c) ensures Cut(tasks, c) {
      MatchedIsCut(tasks, c);
    }
    RepairAcyclicIff(tasks);
  }

  /** A reported cycle whose closing edge lies on c has the members of c. */
  lemma ClosingEdgeMatches(g: Graph<string>, c: seq<string>, i: nat, r: seq<string>)
    requires CyclesApart(g) && IsSimpleCycle(g, c) && IsSimpleCycle(g, r)
    requires i < |c| && r[|r| - 1] == c[i] && r[0] == NextOn(c, i)
    ensures Elements(r) == Elements(c)
  {
    var edge := (c[i], NextOn(c, i));
    assert NextOn(r, |r| - 1) == r[0];
    assert edge in EdgesOf(c) && edge in EdgesOf(r);
    SameEdgesSameMembers(c, r);
  }

  lemma ApartMeansMatched(tasks: seq<Task>)
    requires CyclesApart(GraphOf(tasks))
    ensures AllMatched(tasks)
  {
    forall c | IsSimpleCycle(GraphOf(tasks), c) ensures Matched(Reports(tasks), c) {
      ApartCycleMatched(tasks, c);
    }
  }

  lemma ApartCycleMatched(tasks: seq<Task>, c: seq<string>)
    requires CyclesApart(GraphOf(tasks)) && IsSimpleCycle(GraphOf(tasks), c)
    ensures Matched(Reports(tasks), c)
  {
    var i, r := ClosingReport(DependencyDict(tasks), c);
    ClosingEdgeMatches(GraphOf(tasks), c, i, r);
  }

  lemma SameEdgesSameMembers(c: seq<string>, r: seq<string>)
    requires EdgesOf(c) == EdgesOf(r)
    ensures Elements(c) == Elements(r)
  {
    MembersOfEdges(c, r);
    MembersOfEdges(r, c);
  }

  lemma MembersOfEdges(c: seq<string>, r: seq<string>)
    requires EdgesOf(c) <= EdgesOf(r)
    ensures Elements(c) <= Elements(r)
  {
    forall x | x in Elements(c) ensures x in Elements(r) {
      var i := InElements(c, x);
      assert (c[i], NextOn(c, i)) in EdgesOf(r);
    }
  }

  /** A condition on the tasks alone: where no edge lies on two different simple cycles, repair is enough. */
  lemma RepairBreaksCyclesApart(tasks: seq<Task>)
    requires UniqueIds(tasks) && CyclesApart(GraphOf(tasks))
    ensures !HasCycle(GraphOf(RepairTasks(tasks)))
  {
    ApartMeansMatched(tasks);
    RepairBreaksMatched(tasks);
  }

  // ---- whichever member gives way ----

  /** A rule that picks the member of a reported cycle that gives way. */
  type Rule = seq<string> -> string

  ghost predicate Picks(rule: Rule) {
    forall c: seq<string> :: c != [] ==> rule(c) in c
  }

  /** The rule of the source: the smallest id. */
  function Smallest(c: seq<string>): string {
    if c == [] then "" else Victim(c)
  }

  ghost predicate DroppedBy(rule: Rule, reports: seq<seq<string>>, v: string, d: string) {
    exists k :: 0 <= k < |reports| && reports[k] != [] && rule(reports[k]) == v && d in reports[k]
  }

  ghost function Kept(rule: Rule, reports: seq<seq<string>>, v: string, deps: seq<string>): seq<string> {
    if deps == [] then []
    else (if DroppedBy(rule, reports, v, deps[0]) then [] else [deps[0]]) + Kept(rule, reports, v, deps[1..])
  }

  /** The graph after each reported cycle made the member its rule picks give up the others. */
  ghost function BrokenBy(rule: Rule, tasks: seq<Task>): Graph<string> {
    map n | n in GraphOf(tasks) :: Kept(rule, Reports(tasks), n, GraphOf(tasks)[n])
  }

  lemma {:induction false} KeptMembers(rule: Rule, reports: seq<seq<string>>, v: string, deps: seq<string>, d: string)
    ensures d in Kept(rule, reports, v, deps) <==> d in deps && !DroppedBy(rule, reports, v, d)
  {
    if deps != [] {
      assert deps == [deps[0]] + deps[1..];
      KeptMembers(rule, reports, v, deps[1..], d);
    }
  }

  lemma BrokenEdge(rule: Rule, tasks: seq<Task>, v: string, d: string)
    ensures d in Deps(BrokenBy(rule, tasks), v)
       <==> d in Deps(GraphOf(tasks), v) && !DroppedBy(rule, Reports(tasks), v, d)
  {
    if v in GraphOf(tasks) { KeptMembers(rule, Reports(tasks), v, GraphOf(tasks)[v], d); }
  }

  /** A graph with a cycle has a simple one. */
  lemma SimpleCycleOf(rule: Rule, tasks: seq<Task>) returns (c: seq<string>)
    requires HasCycle(BrokenBy(rule, tasks))
    ensures IsSimpleCycle(BrokenBy(rule, tasks), c)
  {
    var d := Dict(DependencyDict(tasks).keys, BrokenBy(rule, tasks));
    FindCyclesExact(d);
    c := FindCycles(d)[0];
    assert c in FindCycles(d);
  }

  /** If every simple cycle is matched, no rule leaves a cycle. */
  lemma MatchedBreaksAnyRule(tasks: seq<Task>, rule: Rule)
    requires AllMatched(tasks) && Picks(rule)
    ensures !HasCycle(BrokenBy(rule, tasks))
  {
    if HasCycle(BrokenBy(rule, tasks)) {
      var b := BrokenBy(rule, tasks);
      var c := SimpleCycleOf(rule, tasks);
      CycleSteps(b, c);
      forall i | 0 <= i < |c| ensures NextOn(c, i) in Deps(GraphOf(tasks), c[i]) {
        assert NextOn(c, i) in Deps(b, c[i]);
        BrokenEdge(rule, tasks, c[i], NextOn(c, i));
      }
      CycleSteps(GraphOf(tasks), c);
      MatchedEdgeGone(tasks, rule, c);
    }
  }

  lemma MatchedEdgeGone(tasks: seq<Task>, rule: Rule, c: seq<string>)
    requires Picks(rule) && c != [] && Matched(Reports(tasks), c)
    ensures !IsCycle(BrokenBy(rule, tasks), c)
  {
    var r :| r in Reports(tasks) && Elements(r) == Elements(c);
    var k :| 0 <= k < |Reports(tasks)| && Reports(tasks)[k] == r;
    assert c[0] in Elements(r);
    assert rule(r) in Elements(r);
    var i := InElements(c, rule(r));
    assert NextOn(c, i) in Elements(c);
    assert DroppedBy(rule, Reports(tasks), c[i], NextOn(c, i));
    BrokenEdge(rule, tasks, c[i], NextOn(c, i));
    CycleSteps(BrokenBy(rule, tasks), c);
  }

  /** Picking v for r leaves the edge of c at v alone. */
  ghost predicate Spares(c: seq<string>, r: seq<string>, v: string) {
    v in r && forall i :: 0 <= i < |c| && c[i] == v ==> NextOn(c, i) !in r
  }

  /** A rule that spares c wherever it can. */
  ghost function Sparing(c: seq<string>, r: seq<string>): string {
    if v :| Spares(c, r, v) then v else if r == [] then "" else r[0]
  }

  lemma UnsparedStep(c: seq<string>, r: seq<string>, v: string) returns (i: nat)
    requires v in r && !Spares(c, r, v)
    ensures i < |c| && c[i] == v && NextOn(c, i) in r
  {
    i :| 0 <= i < |c| && c[i] == v && NextOn(c, i) in r;
  }

  lemma StaysInside(c: seq<string>, r: seq<string>, i: nat)
    requires Distinct(c) && i < |c| && c[i] in r && forall v :: !Spares(c, r, v)
    ensures NextOn(c, i) in r
  {
    var j := UnsparedStep(c, r, c[i]);
  }

  /** If every member of r would cut c, then r has the members of c. */
  lemma UnsparedIsMatched(c: seq<string>, r: seq<string>)
    requires Distinct(c) && c != [] && r != [] && forall v :: !Spares(c, r, v)
    ensures Elements(r) == Elements(c)
  {
    forall v | v in r ensures v in c {
      var i := UnsparedStep(c, r, v);
    }
    var start := UnsparedStep(c, r, r[0]);
    forall j | 0 <= j < |c| ensures c[j] in r {
      RoundInside(c, r, start, if j >= start then j - start else j - start + |c|);
    }
  }

  function Turn(c: seq<string>, start: nat, n: nat): nat
    requires start < |c| && n < |c|
  {
    if start + n < |c| then start + n else start + n - |c|
  }

  lemma {:induction false} RoundInside(c: seq<string>, r: seq<string>, start: nat, n: nat)
    requires start < |c| && n < |c| && c[start] in r
    requires Distinct(c) && forall v :: !Spares(c, r, v)
    ensures c[Turn(c, start, n)] in r
  {
    if n > 0 {
      RoundInside(c, r, start, n - 1);
      StaysInside(c, r, Turn(c, start, n - 1));
      assert NextOn(c, Turn(c, start, n - 1)) == c[Turn(c, start, n)];
    }
  }

  lemma DroppingReport(rule: Rule, reports: seq<seq<string>>, v: string, d: string) returns (r: seq<string>)
    requires DroppedBy(rule, reports, v, d)
    ensures r in reports && r != [] && rule(r) == v && d in r
  {
    var k :| 0 <= k < |reports| && reports[k] != [] && rule(reports[k]) == v && d in reports[k];
    r := reports[k];
  }

  /** An unmatched simple cycle survives under the rule that spares it. */
  lemma UnmatchedSurvives(tasks: seq<Task>, c: seq<string>)
    requires IsSimpleCycle(GraphOf(tasks), c) && !Matched(Reports(tasks), c)
    ensures Picks(r => Sparing(c, r)) && IsCycle(BrokenBy(r => Sparing(c, r), tasks), c)
  {
    var rule: Rule := r => Sparing(c, r);
    CycleSteps(GraphOf(tasks), c);
    forall i | 0 <= i < |c| ensures NextOn(c, i) in Deps(BrokenBy(rule, tasks), c[i]) {
      if DroppedBy(rule, Reports(tasks), c[i], NextOn(c, i)) {
        var r := DroppingReport(rule, Reports(tasks), c[i], NextOn(c, i));
        assert !Spares(c, r, c[i]);
        assert forall v :: !Spares(c, r, v);
        UnsparedIsMatched(c, r);
      }
      assert NextOn(c, i) in Deps(GraphOf(tasks), c[i]);
      BrokenEdge(rule, tasks, c[i], NextOn(c, i));
    }
    CycleSteps(BrokenBy(rule, tasks), c);
  }

  /** Breaking the reported cycles is enough under every rule exactly when every simple cycle has the members
      of a reported one. */
  lemma AnyRuleIsEnoughIff(tasks: seq<Task>)
    ensures AllMatched(tasks) <==> forall rule: Rule :: Picks(rule) ==> !HasCycle(BrokenBy(rule, tasks))
  {
    if AllMatched(tasks) {
      forall rule: Rule | Picks(rule) ensures !HasCycle(BrokenBy(rule, tasks)) {
        MatchedBreaksAnyRule(tasks, rule);
      }
    } else {
      var c :| IsSimpleCycle(GraphOf(tasks), c) && !Matched(Reports(tasks), c);
      UnmatchedSurvives(tasks, c);
    }
  }

  lemma SameDrops(reports: seq<seq<string>>, v: string, d: string)
    ensures DroppedBy(Smallest, reports, v, d) <==> Dropped(reports, v, d)
  {
  }

  /** The source's repair has the cycles of the rule "smallest id". */
  lemma RepairIsSmallestRule(tasks: seq<Task>, c: seq<string>)
    requires UniqueIds(tasks) && c != []
    ensures Picks(Smallest)
    ensures IsCycle(GraphOf(RepairTasks(tasks)), c) <==> IsCycle(BrokenBy(Smallest, tasks), c)
  {
    forall e: seq<string> | e != [] ensures Smallest(e) in e {
      SortKeepsElements(e);
      assert Victim(e) in Elements(Sort(e));
    }
    var r, b := GraphOf(RepairTasks(tasks)), BrokenBy(Smallest, tasks);
    CycleSteps(r, c);
    CycleSteps(b, c);
    forall i | 0 <= i < |c| ensures NextOn(c, i) in Deps(r, c[i]) ==> NextOn(c, i) in Deps(b, c[i]) {
      RepairedEdge(tasks, c[i], NextOn(c, i));
      BrokenEdge(Smallest, tasks, c[i], NextOn(c, i));
      SameDrops(Reports(tasks), c[i], NextOn(c, i));
    }
    if IsCycle(b, c) {
      forall i | 0 <= i < |c| ensures NextOn(c, i) in Deps(r, c[i]) {
        BrokenStep(tasks, c, i);
      }
    }
  }

  lemma BrokenStep(tasks: seq<Task>, c: seq<string>, i: nat)
    requires UniqueIds(tasks) && IsCycle(BrokenBy(Smallest, tasks), c) && i < |c|
    ensures NextOn(c, i) in Deps(GraphOf(RepairTasks(tasks)), c[i])
  {
    var b, j := BrokenBy(Smallest, tasks), if i + 1 < |c| then i + 1 else 0;
    CycleSteps(b, c);
    assert NextOn(c, i) in Deps(b, c[i]) && NextOn(c, j) in Deps(b, c[j]);
    GraphKeys(tasks, c[j]);
    var k :| 0 <= k < |tasks| && tasks[k].id == c[j];
    assert tasks[k] in tasks;
    RepairedEdge(tasks, c[i], NextOn(c, i));
    BrokenEdge(Smallest, tasks, c[i], NextOn(c, i));
    SameDrops(Reports(tasks), c[i], NextOn(c, i));
  }
}
