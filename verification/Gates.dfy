/** Running gates, and the verdict over what they reported (minifleet/gates.py). */
module Gates {
  import opened Model

  type Metrics = map<string, real>

  /** What running a gate's command, or looking at its files, turned out to give. */
  datatype Observation = Observation(status: Status, published: Metrics)

  predicate Compare(value: real, op: string, threshold: real) {
    if op == "<=" then value <= threshold
    else if op == "<" then value < threshold
    else if op == ">=" then value >= threshold
    else if op == ">" then value > threshold
    else if op == "==" then value == threshold
    else false
  }

  /** What a budget demands of a value; an operator that is none of these is never met. */
  ghost predicate Meets(value: real, op: string, threshold: real) {
    || (op == "<=" && value <= threshold)
    || (op == "<" && value < threshold)
    || (op == ">=" && value >= threshold)
    || (op == ">" && value > threshold)
    || (op == "==" && value == threshold)
  }

  lemma CompareIsMeets(value: real, op: string, threshold: real)
    ensures Compare(value, op, threshold) <==> Meets(value, op, threshold)
  {
    assert |"<="| == |">="| == |"=="| == 2 && |"<"| == |">"| == 1;
    assert "<="[0] == '<' && ">="[0] == '>' && "=="[0] == '=' && "<"[0] == '<' && ">"[0] == '>';
  }

  /** A budget whose metric nobody measured is an error, never a pass. */
  function JudgeBudget(g: Gate, store: Metrics): Status {
    if g.metric !in store then Error
    else if Compare(store[g.metric], g.op, g.threshold) then Pass
    else Fail
  }

  function StatusOf(g: Gate, store: Metrics, o: Observation): Status {
    match g.kind
    case Command => o.status
    case Files => o.status
    case Json => o.status
    case Budget => JudgeBudget(g, store)
    case UnknownKind => Error
  }

  /** Only commands publish metrics. */
  function StoreAfter(g: Gate, store: Metrics, o: Observation): Metrics {
    if g.kind == Command then store + o.published else store
  }

  /** The store before the k-th gate of a pass. */
  function StoreAt(gs: seq<Gate>, store: Metrics, observe: nat -> Observation, k: nat): Metrics
    requires k <= |gs|
  {
    if k == 0 then store else StoreAfter(gs[k - 1], StoreAt(gs, store, observe, k - 1), observe(k - 1))
  }

  /** The evidence of the first k gates of a pass. */
  function EvidenceUpTo(gs: seq<Gate>, store: Metrics, observe: nat -> Observation, taskId: string,
                        k: nat): (e: seq<Evidence>)
    requires k <= |gs|
    ensures |e| == k
    ensures forall i :: 0 <= i < k ==> e[i].gateId == gs[i].id
  {
    if k == 0 then []
    else
      EvidenceUpTo(gs, store, observe, taskId, k - 1)
      + [Evidence(gs[k - 1].id, StatusOf(gs[k - 1], StoreAt(gs, store, observe, k - 1), observe(k - 1)), taskId)]
  }

  function EvidenceOf(gs: seq<Gate>, store: Metrics, observe: nat -> Observation, taskId: string): seq<Evidence> {
    EvidenceUpTo(gs, store, observe, taskId, |gs|)
  }

  class GateRunner {
    var store: Metrics

    constructor (values: Metrics)
      ensures store == values
    {
      store := values;
    }

    method RunGate(g: Gate, o: Observation, taskId: string) returns (e: Evidence)
      modifies this
      ensures e == Evidence(g.id, StatusOf(g, old(store), o), taskId)
      ensures store == StoreAfter(g, old(store), o)
      ensures g.kind == Budget && g.metric !in old(store) ==> e.status == Error
      ensures g.kind == Budget && g.metric in old(store) ==>
                e.status == if Meets(old(store)[g.metric], g.op, g.threshold) then Pass else Fail
      ensures g.kind == Command || g.kind == Files || g.kind == Json ==> e.status == o.status
      ensures g.kind == UnknownKind ==> e.status == Error
      ensures g.kind != Command ==> store == old(store)
      ensures g.kind == Command ==> forall m :: m in store <==> m in old(store) || m in o.published
      ensures g.kind == Command ==> forall m :: m in o.published ==> store[m] == o.published[m]
    {
      if g.kind == Budget && g.metric in store { CompareIsMeets(store[g.metric], g.op, g.threshold); }
      e := Evidence(g.id, StatusOf(g, store, o), taskId);
      if g.kind == Command {
        store := store + o.published;
      }
    }

    method RunAll(gs: seq<Gate>, observe: nat -> Observation, taskId: string) returns (evidence: seq<Evidence>)
      modifies this
      ensures evidence == EvidenceOf(gs, old(store), observe, taskId)
      ensures store == StoreAt(gs, old(store), observe, |gs|)
    {
      evidence := [];
      for i := 0 to |gs|
        invariant evidence == EvidenceUpTo(gs, old(store), observe, taskId, i)
        invariant store == StoreAt(gs, old(store), observe, i)
      {
        var e := RunGate(gs[i], observe(i), taskId);
        evidence := evidence + [e];
      }
    }
  }

  // ---- measurement before judgement ----

  function WhereBudget(gs: seq<Gate>, budget: bool): seq<Gate> {
    if gs == [] then []
    else (if (gs[0].kind == Budget) == budget then [gs[0]] else []) + WhereBudget(gs[1..], budget)
  }

  /** A stable sort on "is a budget". */
  function BudgetsLast(gs: seq<Gate>): seq<Gate> {
    WhereBudget(gs, false) + WhereBudget(gs, true)
  }

  lemma {:induction false} WhereBudgetMembers(gs: seq<Gate>, budget: bool, g: Gate)
    ensures g in WhereBudget(gs, budget) <==> g in gs && (g.kind == Budget) == budget
  {
    if gs != [] {
      assert gs == [gs[0]] + gs[1..];
      WhereBudgetMembers(gs[1..], budget, g);
    }
  }

  lemma BudgetsLastMembers(gs: seq<Gate>, g: Gate)
    ensures g in BudgetsLast(gs) <==> g in gs
  {
    WhereBudgetMembers(gs, false, g);
    WhereBudgetMembers(gs, true, g);
  }

  lemma BudgetsAreLast(gs: seq<Gate>, i: nat)
    requires |WhereBudget(gs, false)| <= i < |BudgetsLast(gs)|
    ensures BudgetsLast(gs)[i].kind == Budget
  {
    var g := BudgetsLast(gs)[i];
    assert g == WhereBudget(gs, true)[i - |WhereBudget(gs, false)|];
    WhereBudgetMembers(gs, true, g);
  }

  lemma PosOfBudget(gs: seq<Gate>, i: nat)
    requires i < |BudgetsLast(gs)| && BudgetsLast(gs)[i].kind == Budget
    ensures i >= |WhereBudget(gs, false)|
  {
    if i < |WhereBudget(gs, false)| {
      WhereBudgetMembers(gs, false, BudgetsLast(gs)[i]);
    }
  }

  /** Once the first budget is reached the store no longer changes. */
  lemma {:induction false} StoreSettles(gs: seq<Gate>, store: Metrics, observe: nat -> Observation, i: nat, k: nat)
    requires |WhereBudget(gs, false)| <= i <= k <= |BudgetsLast(gs)|
    ensures StoreAt(BudgetsLast(gs), store, observe, k) == StoreAt(BudgetsLast(gs), store, observe, i)
    decreases k
  {
    if i < k {
      BudgetsAreLast(gs, k - 1);
      StoreSettles(gs, store, observe, i, k - 1);
    }
  }

  lemma {:induction false} EvidenceAt(gs: seq<Gate>, store: Metrics, observe: nat -> Observation, taskId: string,
                                      k: nat, i: nat)
    requires i < k <= |gs|
    ensures EvidenceUpTo(gs, store, observe, taskId, k)[i]
         == Evidence(gs[i].id, StatusOf(gs[i], StoreAt(gs, store, observe, i), observe(i)), taskId)
  {
    if i < k - 1 { EvidenceAt(gs, store, observe, taskId, k - 1, i); }
  }

  // ---- the verdict ----

  datatype Verdict =
    | NoVerdict
    | AllGreen
    | MissingEvidence(gates: set<string>)
    | Failing(bad: map<string, Status>)
    | OwnershipConflict
    | IntegrationError

  /** The last status recorded for each gate. */
  function Latest(evidence: seq<Evidence>): map<string, Status> {
    if evidence == [] then map[]
    else
      var e := evidence[|evidence| - 1];
      Latest(evidence[..|evidence| - 1])[e.gateId := e.status]
  }

  function Judge(evidence: seq<Evidence>, required: set<string>): Verdict {
    var byGate := Latest(evidence);
    var missing := required - byGate.Keys;
    if missing != {} then MissingEvidence(missing)
    else
      var bad := map g | g in byGate && g in required && byGate[g] != Pass :: byGate[g];
      if bad != map[] then Failing(bad) else AllGreen
  }

  /** A pass means exactly that the last evidence of every required gate passed. */
  lemma JudgePassesIff(evidence: seq<Evidence>, required: set<string>)
    ensures Judge(evidence, required) == AllGreen
       <==> forall g :: g in required ==> g in Latest(evidence) && Latest(evidence)[g] == Pass
  {
    var byGate := Latest(evidence);
    var bad := map g | g in byGate && g in required && byGate[g] != Pass :: byGate[g];
    if g :| g in required && g !in byGate { assert g in required - byGate.Keys; }
    if g :| g in required && g in byGate && byGate[g] != Pass { assert g in bad; }
  }

  /** The last row of a gate is the one that counts. */
  lemma {:induction false} LatestOfLast(evidence: seq<Evidence>, i: nat)
    requires i < |evidence|
    requires forall k :: i < k < |evidence| ==> evidence[k].gateId != evidence[i].gateId
    ensures evidence[i].gateId in Latest(evidence) && Latest(evidence)[evidence[i].gateId] == evidence[i].status
  {
    var n := |evidence| - 1;
    if i < n { LatestOfLast(evidence[..n], i); }
  }

  lemma {:induction false} LatestOfConcat(a: seq<Evidence>, b: seq<Evidence>)
    ensures Latest(a + b) == Latest(a) + Latest(b)
  {
    if b == [] {
      assert a + b == a;
    } else {
      var n := |b| - 1;
      assert (a + b)[..|a| + n] == a + b[..n];
      LatestOfConcat(a, b[..n]);
    }
  }

  ghost predicate UniqueGates(gs: seq<Gate>) {
    forall i, j :: 0 <= i < j < |gs| ==> gs[i].id != gs[j].id
  }

  function RequiredIds(gs: seq<Gate>): set<string> {
    set g | g in gs && g.required :: g.id
  }

  lemma {:induction false} WhereBudgetUnique(gs: seq<Gate>, budget: bool)
    requires UniqueGates(gs)
    ensures UniqueGates(WhereBudget(gs, budget))
  {
    if gs != [] {
      WhereBudgetUnique(gs[1..], budget);
      var rest := WhereBudget(gs[1..], budget);
      forall j | 0 <= j < |rest| ensures rest[j].id != gs[0].id {
        WhereBudgetMembers(gs[1..], budget, rest[j]);
        var k :| 0 <= k < |gs[1..]| && gs[1..][k] == rest[j];
        assert gs[k + 1].id != gs[0].id;
      }
    }
  }

  lemma {:induction false} WhereBudgetConcat(a: seq<Gate>, b: seq<Gate>, budget: bool)
    ensures WhereBudget(a + b, budget) == WhereBudget(a, budget) + WhereBudget(b, budget)
  {
    if a == [] {
      assert a + b == b;
    } else {
      assert (a + b)[1..] == a[1..] + b;
      WhereBudgetConcat(a[1..], b, budget);
    }
  }

  /** Behind a budget come only budgets, so with distinct budget ids nothing behind it repeats its id. */
  lemma NoLaterBudget(gs: seq<Gate>, i: nat, k: nat)
    requires UniqueGates(WhereBudget(gs, true)) && i < k < |BudgetsLast(gs)| && BudgetsLast(gs)[i].kind == Budget
    ensures BudgetsLast(gs)[k].id != BudgetsLast(gs)[i].id
  {
    PosOfBudget(gs, i);
    var n := |WhereBudget(gs, false)|;
    assert BudgetsLast(gs)[i] == WhereBudget(gs, true)[i - n] && BudgetsLast(gs)[k] == WhereBudget(gs, true)[k - n];
  }

  /** A passing pass measured every required budget, and the value left in the store meets the threshold. Only
      the ids of budgets need to differ: a budget that shares its id with another kind of gate is judged later. */
  lemma PassMeansBudgetsMet(gs: seq<Gate>, store: Metrics, observe: nat -> Observation, taskId: string, g: Gate)
    requires UniqueGates(WhereBudget(gs, true)) && g in gs && g.required && g.kind == Budget
    requires Judge(EvidenceOf(BudgetsLast(gs), store, observe, taskId), RequiredIds(gs)) == AllGreen
    ensures var final := StoreAt(BudgetsLast(gs), store, observe, |BudgetsLast(gs)|);
            g.metric in final && Meets(final[g.metric], g.op, g.threshold)
  {
    var order := BudgetsLast(gs);
    BudgetsLastMembers(gs, g);
    var i :| 0 <= i < |order| && order[i] == g;
    PosOfBudget(gs, i);
    StoreSettles(gs, store, observe, i, |order|);
    JudgePassesIff(EvidenceOf(order, store, observe, taskId), RequiredIds(gs));
    forall k | i < k < |order| ensures order[k].id != g.id {
      NoLaterBudget(gs, i, k);
    }
    LatestOfLast(EvidenceOf(order, store, observe, taskId), i);
    EvidenceAt(order, store, observe, taskId, |order|, i);
    assert g.id in RequiredIds(gs);
    var final := StoreAt(order, store, observe, |order|);
    if g.metric in final { CompareIsMeets(final[g.metric], g.op, g.threshold); }
  }
}
