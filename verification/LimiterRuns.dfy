/** What a limiter promises over whole sequences of calls. */
module LimiterRuns {
  import opened Text
  import opened Dictionary
  import opened TokenBucket

  /** One call on the limiter; retry_after and tracked_keys change nothing and are left out. */
  datatype Call<K> = Request(key: K, now: real) | Reset(key: K) | ResetAll

  function Apply<K(==)>(c: Config, s: Dict<K, Bucket>, op: Call<K>): Dict<K, Bucket> {
    match op
    case Request(k, now) => AfterAllow(c, s, k, now)
    case Reset(k) => Forget(s, k)
    case ResetAll => Dict([], map[])
  }

  function Run<K(==)>(c: Config, s: Dict<K, Bucket>, ops: seq<Call<K>>): Dict<K, Bucket> {
    if ops == [] then s else Apply(c, Run(c, s, ops[..|ops| - 1]), ops[|ops| - 1])
  }

  lemma ApplyOk<K(!new)>(c: Config, s: Dict<K, Bucket>, op: Call<K>)
    requires c.Valid() && StateOk(c, s)
    ensures StateOk(c, Apply(c, s, op))
  {
    match op
    case Request(k, now) => AfterAllowOk(c, s, k, now);
    case Reset(k) => ForgetOk(c, s, k);
    case ResetAll =>
      var e: Dict<K, Bucket> := Dict([], map[]);
      assert Elements(e.keys) == e.table.Keys;
  }

  lemma {:induction false} RunOk<K(!new)>(c: Config, s: Dict<K, Bucket>, ops: seq<Call<K>>)
    requires c.Valid() && StateOk(c, s)
    ensures StateOk(c, Run(c, s, ops))
  {
    if ops != [] {
      RunOk(c, s, ops[..|ops| - 1]);
      ApplyOk(c, Run(c, s, ops[..|ops| - 1]), ops[|ops| - 1]);
    }
  }

  // ---- counting ----

  function Granted<K(==)>(c: Config, s: Dict<K, Bucket>, op: Call<K>, k: K): nat
    requires c.Valid()
  {
    if op.Request? && op.key == k && Decide(c, s, k, op.now).allowed then 1 else 0
  }

  /** Requests for k that the run grants. */
  function Grants<K(==)>(c: Config, s: Dict<K, Bucket>, ops: seq<Call<K>>, k: K): nat
    requires c.Valid()
  {
    if ops == [] then 0
    else
      var before := ops[..|ops| - 1];
      Grants(c, s, before, k) + Granted(c, Run(c, s, before), ops[|ops| - 1], k)
  }

  /** How often k stopped being tracked, by eviction or by reset. */
  function Losses<K(==)>(c: Config, s: Dict<K, Bucket>, ops: seq<Call<K>>, k: K): nat {
    if ops == [] then 0
    else
      var before := ops[..|ops| - 1];
      Losses(c, s, before, k) + LossOf(c, Run(c, s, before), ops[|ops| - 1], k)
  }

  /** Clock reading of the latest request for k; start is the one before the run, if there was any. */
  function LastUse<K(==)>(ops: seq<Call<K>>, k: K, start: seq<real>): seq<real> {
    if ops == [] then start
    else
      var op := ops[|ops| - 1];
      if op.Request? && op.key == k then [op.now] else LastUse(ops[..|ops| - 1], k, start)
  }

  /** Sum of the positive clock increments between consecutive requests for k. */
  function Elapsed<K(==)>(ops: seq<Call<K>>, k: K, start: seq<real>): real {
    if ops == [] then 0.0
    else
      var before, op := ops[..|ops| - 1], ops[|ops| - 1];
      Elapsed(before, k, start) + SinceLast(before, op, k, start)
  }

  function StartOf<K>(s: Dict<K, Bucket>, k: K): seq<real> {
    if k in s.table then [s.table[k].last] else []
  }

  /** What one call may add to the tokens of k: a refill, or a fresh bucket after a loss. */
  function CreditOf<K(==)>(c: Config, s: Dict<K, Bucket>, op: Call<K>, k: K): real {
    if op.Request? && op.key == k then
      if k in s.table then Positive(op.now - s.table[k].last) * c.rate else 0.0
    else if k in s.table && k !in Apply(c, s, op).table then c.burst
    else 0.0
  }

  function Credit<K(==)>(c: Config, s: Dict<K, Bucket>, ops: seq<Call<K>>, k: K): real {
    if ops == [] then 0.0
    else
      var before := ops[..|ops| - 1];
      Credit(c, s, before, k) + CreditOf(c, Run(c, s, before), ops[|ops| - 1], k)
  }

  /** Tokens k can count on: those of its bucket, or the burst a new bucket would start with. */
  function InHand<K>(c: Config, s: Dict<K, Bucket>, k: K): real {
    if k in s.table then s.table[k].tokens else c.burst
  }

  /** One call: what is granted and what stays in hand come out of what was in hand and the credit. */
  lemma CallCovered<K(!new)>(c: Config, s: Dict<K, Bucket>, op: Call<K>, k: K)
    requires c.Valid() && StateOk(c, s)
    ensures Granted(c, s, op, k) as real + InHand(c, Apply(c, s, op), k) <= InHand(c, s, k) + CreditOf(c, s, op, k)
  {
    match op {
      case Request(j, now) => if j == k { OwnCallCovered(c, s, now, k); } else { AfterAllowOk(c, s, j, now); }
      case Reset(j) => ForgetOk(c, s, j);
      case ResetAll =>
    }
  }

  lemma OwnCallCovered<K(!new)>(c: Config, s: Dict<K, Bucket>, now: real, k: K)
    requires c.Valid() && StateOk(c, s)
    ensures Granted(c, s, Request(k, now), k) as real + InHand(c, AfterAllow(c, s, k, now), k)
         <= InHand(c, s, k) + CreditOf(c, s, Request(k, now), k)
  {
    AfterAllowOk(c, s, k, now);
    TokensInHand(c, s, now, k);
  }

  /** What a request finds is at most what was in hand and its credit. */
  lemma TokensInHand<K(!new)>(c: Config, s: Dict<K, Bucket>, now: real, k: K)
    requires c.Valid() && StateOk(c, s)
    ensures TokensAt(c, s, k, now) <= InHand(c, s, k) + CreditOf(c, s, Request(k, now), k)
  {
    if k in s.table { RefillBounds(c, s.table[k], now); }
  }

  lemma {:induction false} RunCovered<K(!new)>(c: Config, s: Dict<K, Bucket>, ops: seq<Call<K>>, k: K)
    requires c.Valid() && StateOk(c, s)
    ensures Grants(c, s, ops, k) as real + InHand(c, Run(c, s, ops), k) <= InHand(c, s, k) + Credit(c, s, ops, k)
  {
    if ops != [] {
      var before := ops[..|ops| - 1];
      RunCovered(c, s, before, k);
      RunOk(c, s, before);
      CallCovered(c, Run(c, s, before), ops[|ops| - 1], k);
    }
  }

  /** A tracked bucket remembers the latest request for its key. */
  lemma {:induction false} LastUseTracked<K(!new)>(c: Config, s: Dict<K, Bucket>, ops: seq<Call<K>>, k: K)
    requires c.Valid() && StateOk(c, s)
    ensures k in Run(c, s, ops).table ==> LastUse(ops, k, StartOf(s, k)) == [Run(c, s, ops).table[k].last]
  {
    if ops != [] {
      var before, op := ops[..|ops| - 1], ops[|ops| - 1];
      LastUseTracked(c, s, before, k);
      RunOk(c, s, before);
      match op
      case Request(j, now) => AfterAllowOk(c, Run(c, s, before), j, now);
      case Reset(j) => ForgetOk(c, Run(c, s, before), j);
      case ResetAll =>
    }
  }

  lemma Distribute(x: real, y: real, z: real)
    ensures x * (y + z) == x * y + x * z
  {
  }

  /** Full bursts for the losses, and a refill for the elapsed time. */
  function Allowance(c: Config, losses: nat, elapsed: real): real {
    c.burst * losses as real + c.rate * elapsed
  }

  lemma AllowanceAdds(c: Config, m: nat, x: real, n: nat, y: real)
    ensures Allowance(c, m, x) + Allowance(c, n, y) == Allowance(c, m + n, x + y)
  {
    Distribute(c.burst, m as real, n as real);
    Distribute(c.rate, x, y);
  }

  function LossOf<K(==)>(c: Config, s: Dict<K, Bucket>, op: Call<K>, k: K): nat {
    if k in s.table && k !in Apply(c, s, op).table then 1 else 0
  }

  function SinceLast<K(==)>(before: seq<Call<K>>, op: Call<K>, k: K, start: seq<real>): (t: real)
    ensures t >= 0.0
  {
    if op.Request? && op.key == k && LastUse(before, k, start) != []
    then Positive(op.now - LastUse(before, k, start)[0]) else 0.0
  }

  /** The allowance of the calls one by one. */
  function Due<K(==)>(c: Config, s: Dict<K, Bucket>, ops: seq<Call<K>>, k: K, start: seq<real>): real {
    if ops == [] then 0.0
    else
      var before, op := ops[..|ops| - 1], ops[|ops| - 1];
      Due(c, s, before, k, start) + Allowance(c, LossOf(c, Run(c, s, before), op, k), SinceLast(before, op, k, start))
  }

  lemma CallCredit<K(!new)>(c: Config, s: Dict<K, Bucket>, before: seq<Call<K>>, op: Call<K>, k: K, start: seq<real>)
    requires c.Valid() && StateOk(c, s)
    requires k in s.table ==> LastUse(before, k, start) == [s.table[k].last]
    ensures CreditOf(c, s, op, k) <= Allowance(c, LossOf(c, s, op, k), SinceLast(before, op, k, start))
  {
    if op.Request? && op.key == k {
      OwnCallCredit(c, s, before, op, k, start);
    } else {
      AllowanceCovers(c, LossOf(c, s, op, k), 0.0);
    }
  }

  lemma OwnCallCredit<K(!new)>(c: Config, s: Dict<K, Bucket>, before: seq<Call<K>>, op: Call<K>, k: K, start: seq<real>)
    requires c.Valid() && op.Request? && op.key == k
    requires k in s.table ==> LastUse(before, k, start) == [s.table[k].last]
    ensures CreditOf(c, s, op, k) <= Allowance(c, LossOf(c, s, op, k), SinceLast(before, op, k, start))
  {
    var elapsed := SinceLast(before, op, k, start);
    AllowanceCovers(c, LossOf(c, s, op, k), elapsed);
    assert k in s.table ==> CreditOf(c, s, op, k) == elapsed * c.rate;
  }

  /** An allowance pays for the refill, and with a loss for a burst. */
  lemma AllowanceCovers(c: Config, losses: nat, elapsed: real)
    requires c.Valid() && elapsed >= 0.0
    ensures Allowance(c, losses, elapsed) >= elapsed * c.rate >= 0.0
    ensures losses >= 1 ==> Allowance(c, losses, elapsed) >= c.burst
  {
    ProductNonNegative(elapsed, c.rate);
    ProductNonNegative(c.burst, losses as real);
    if losses >= 1 {
      Distribute(c.burst, 1.0, losses as real - 1.0);
      ProductNonNegative(c.burst, losses as real - 1.0);
    }
  }

  lemma {:induction false} CreditWithinDue<K(!new)>(c: Config, s: Dict<K, Bucket>, ops: seq<Call<K>>, k: K)
    requires c.Valid() && StateOk(c, s)
    ensures Credit(c, s, ops, k) <= Due(c, s, ops, k, StartOf(s, k))
  {
    if ops != [] {
      var before, op := ops[..|ops| - 1], ops[|ops| - 1];
      CreditWithinDue(c, s, before, k);
      RunOk(c, s, before);
      LastUseTracked(c, s, before, k);
      CallCredit(c, Run(c, s, before), before, op, k, StartOf(s, k));
    }
  }

  lemma {:induction false} DueInAll<K(!new)>(c: Config, s: Dict<K, Bucket>, ops: seq<Call<K>>, k: K, start: seq<real>)
    ensures Due(c, s, ops, k, start) == Allowance(c, Losses(c, s, ops, k), Elapsed(ops, k, start))
  {
    if ops == [] {
      NoAllowance(c);
    } else {
      var before, op := ops[..|ops| - 1], ops[|ops| - 1];
      DueInAll(c, s, before, k, start);
      AllowanceAdds(c, Losses(c, s, before, k), Elapsed(before, k, start),
                    LossOf(c, Run(c, s, before), op, k), SinceLast(before, op, k, start));
    }
  }

  /** The credit of a run: a burst for each loss, and the rate times the time between requests. */
  lemma CreditBound<K(!new)>(c: Config, s: Dict<K, Bucket>, ops: seq<Call<K>>, k: K)
    requires c.Valid() && StateOk(c, s)
    ensures Credit(c, s, ops, k) <= Allowance(c, Losses(c, s, ops, k), Elapsed(ops, k, StartOf(s, k)))
  {
    CreditWithinDue(c, s, ops, k);
    DueInAll(c, s, ops, k, StartOf(s, k));
  }

  lemma NoAllowance(c: Config)
    ensures Allowance(c, 0, 0.0) == 0.0
  {
  }

  /** The rate bound, for any calls, any clock readings and any state to start from: what is in hand, one
      burst for each time the bucket was lost, and the rate times the time that passed between requests. */
  lemma RateBound<K(!new)>(c: Config, s: Dict<K, Bucket>, ops: seq<Call<K>>, k: K)
    requires c.Valid() && StateOk(c, s)
    ensures Grants(c, s, ops, k) as real
         <= InHand(c, s, k) + Allowance(c, Losses(c, s, ops, k), Elapsed(ops, k, StartOf(s, k)))
    ensures InHand(c, s, k) <= c.burst
  {
    RunCovered(c, s, ops, k);
    RunOk(c, s, ops);
    CreditBound(c, s, ops, k);
  }

  /** Readings of the clock at the requests for k. */
  function UsesOf<K(==)>(ops: seq<Call<K>>, k: K): seq<real> {
    if ops == [] then []
    else
      var op := ops[|ops| - 1];
      UsesOf(ops[..|ops| - 1], k) + if op.Request? && op.key == k then [op.now] else []
  }

  ghost predicate Monotone(ts: seq<real>) {
    forall i, j :: 0 <= i < j < |ts| ==> ts[i] <= ts[j]
  }

  function Span(ts: seq<real>): real {
    if ts == [] then 0.0 else ts[|ts| - 1] - ts[0]
  }

  lemma SpanGrows(ts: seq<real>, t: real)
    requires Monotone(ts + [t])
    ensures Monotone(ts)
    ensures Span(ts + [t]) == Span(ts) + if ts == [] then 0.0 else Positive(t - ts[|ts| - 1])
  {
    var all := ts + [t];
    assert forall i :: 0 <= i < |ts| ==> all[i] == ts[i];
    assert all[|ts|] == t;
  }

  lemma {:induction false} LastUseIsLast<K(!new)>(ops: seq<Call<K>>, k: K)
    ensures var ts := UsesOf(ops, k); LastUse(ops, k, []) == if ts == [] then [] else [ts[|ts| - 1]]
  {
    if ops != [] { LastUseIsLast(ops[..|ops| - 1], k); }
  }

  lemma {:induction false} MonotoneElapsed<K(!new)>(ops: seq<Call<K>>, k: K)
    requires Monotone(UsesOf(ops, k))
    ensures Elapsed(ops, k, []) == Span(UsesOf(ops, k))
  {
    if ops != [] {
      var before, op := ops[..|ops| - 1], ops[|ops| - 1];
      if op.Request? && op.key == k {
        SpanGrows(UsesOf(before, k), op.now);
        LastUseIsLast(before, k);
      } else {
        assert UsesOf(ops, k) == UsesOf(before, k);
      }
      MonotoneElapsed(before, k);
    }
  }

  /** On a clock that never runs backwards, a key that is never lost gets burst plus rate times elapsed time. */
  lemma MonotoneRateBound<K(!new)>(c: Config, ops: seq<Call<K>>, k: K)
    requires c.Valid() && Losses(c, Dict([], map[]), ops, k) == 0
    requires Monotone(UsesOf(ops, k)) && UsesOf(ops, k) != []
    ensures Grants(c, Dict([], map[]), ops, k) as real <= c.burst + c.rate * Span(UsesOf(ops, k))
  {
    var e: Dict<K, Bucket> := Dict([], map[]);
    EmptyOk<K>(c);
    RateBound(c, e, ops, k);
    MonotoneElapsed(ops, k);
    OnlyRefill(c, Span(UsesOf(ops, k)));
  }

  lemma OnlyRefill(c: Config, elapsed: real)
    ensures Allowance(c, 0, elapsed) == c.rate * elapsed
  {
  }

  lemma EmptyOk<K(!new)>(c: Config)
    ensures StateOk<K>(c, Dict([], map[]))
  {
    var e: Dict<K, Bucket> := Dict([], map[]);
    assert Elements(e.keys) == e.table.Keys;
  }

  // ---- which keys are tracked ----

  /** Distinct keys in order of their last request. */
  function Recent<K(==)>(ops: seq<Call<K>>): seq<K> {
    if ops == [] then []
    else
      var op := ops[|ops| - 1];
      if op.Request? then Remove(Recent(ops[..|ops| - 1]), op.key) + [op.key] else Recent(ops[..|ops| - 1])
  }

  ghost predicate NoReset<K(!new)>(ops: seq<Call<K>>) {
    forall i :: 0 <= i < |ops| ==> ops[i].Request?
  }

  lemma {:induction false} RecentDistinct<K(!new)>(ops: seq<Call<K>>)
    ensures Distinct(Recent(ops))
  {
    if ops != [] {
      RecentDistinct(ops[..|ops| - 1]);
      if ops[|ops| - 1].Request? { MoveToEnd(Recent(ops[..|ops| - 1]), ops[|ops| - 1].key); }
    }
  }

  lemma {:induction false} RemoveConcat<K>(a: seq<K>, b: seq<K>, k: K)
    ensures Remove(a + b, k) == Remove(a, k) + Remove(b, k)
  {
    if a == [] {
      assert a + b == b;
    } else {
      assert (a + b)[1..] == a[1..] + b;
      RemoveConcat(a[1..], b, k);
    }
  }

  lemma {:induction false} RemoveLength<K>(keys: seq<K>, k: K)
    requires Distinct(keys)
    ensures |Remove(keys, k)| == |keys| - if k in keys then 1 else 0
  {
    if keys != [] {
      RemoveLength(keys[1..], k);
      assert keys == [keys[0]] + keys[1..];
      if keys[0] == k {
        assert forall j :: 0 <= j < |keys[1..]| ==> keys[1..][j] == keys[j + 1] != k;
      }
    }
  }

  lemma PartsDistinct<K(!new)>(a: seq<K>, b: seq<K>, k: K)
    requires Distinct(a + b) && k in b
    ensures Distinct(b) && k !in a
  {
    var j :| 0 <= j < |b| && b[j] == k;
    forall i | 0 <= i < |a| ensures a[i] != k { assert (a + b)[i] == a[i] && (a + b)[|a| + j] == k; }
    assert forall i :: 0 <= i < |b| ==> (a + b)[|a| + i] == b[i];
  }

  /** A list split into the keys a cut drops and the n keys it keeps. */
  lemma MoveKept<K(!new)>(a: seq<K>, b: seq<K>, k: K)
    requires Distinct(a + b) && k in b
    ensures LastN(Remove(b, k) + [k], |b|) == LastN(Remove(a + b, k) + [k], |b|)
  {
    PartsDistinct(a, b, k);
    RemoveConcat(a, b, k);
    RemoveShorter(a, k);
    RemoveLength(b, k);
    assert (a + Remove(b, k)) + [k] == a + (Remove(b, k) + [k]);
    SuffixOfConcat(a, Remove(b, k) + [k], |b|);
  }

  lemma MoveDropped<K(!new)>(a: seq<K>, b: seq<K>, k: K)
    requires k !in b && b != []
    ensures LastN(Remove(b, k) + [k], |b|) == LastN(Remove(a + b, k) + [k], |b|)
  {
    RemoveConcat(a, b, k);
    RemoveShorter(b, k);
    var kept := Remove(a, k);
    assert (kept + b) + [k] == kept + (b + [k]);
    SuffixOfConcat(kept, b + [k], |b|);
  }

  lemma SuffixOfConcat<K>(a: seq<K>, b: seq<K>, n: nat)
    requires n <= |b|
    ensures LastN(a + b, n) == LastN(b, n)
  {
    assert (a + b)[|a + b| - n..] == b[|b| - n..];
  }

  /** Cutting to the n most recent keys before or after a move gives the same keys. */
  lemma MoveThenCut<K(!new)>(keys: seq<K>, k: K, n: nat)
    requires Distinct(keys) && n > 0
    ensures LastN(Remove(LastN(keys, n), k) + [k], n) == LastN(Remove(keys, k) + [k], n)
  {
    if |keys| > n {
      var a, b := keys[..|keys| - n], keys[|keys| - n..];
      assert keys == a + b;
      if k in b { MoveKept(a, b, k); } else { MoveDropped(a, b, k); }
    }
  }

  /** Without resets, the tracked keys are the maxKeys most recently requested ones, in order of last request. */
  lemma {:induction false} TrackedAreMostRecent<K(!new)>(c: Config, ops: seq<Call<K>>)
    requires c.Valid() && NoReset(ops)
    ensures Run(c, Dict([], map[]), ops).keys == LastN(Recent(ops), c.maxKeys)
  {
    var e: Dict<K, Bucket> := Dict([], map[]);
    EmptyOk<K>(c);
    if ops != [] {
      var before, op := ops[..|ops| - 1], ops[|ops| - 1];
      assert forall i :: 0 <= i < |before| ==> before[i] == ops[i];
      TrackedAreMostRecent(c, before);
      RecentDistinct(before);
      RunOk(c, e, before);
      AfterAllowOk(c, Run(c, e, before), op.key, op.now);
      MoveThenCut(Recent(before), op.key, c.maxKeys);
    }
  }

  ghost predicate Requested<K(!new)>(ops: seq<Call<K>>, k: K) {
    exists i :: 0 <= i < |ops| && ops[i].Request? && ops[i].key == k
  }

  /** The distinct other keys requested since the last request for k. */
  function OthersSince<K(==)>(ops: seq<Call<K>>, k: K): set<K> {
    if ops == [] then {}
    else
      var op := ops[|ops| - 1];
      if !op.Request? then OthersSince(ops[..|ops| - 1], k)
      else if op.key == k then {}
      else OthersSince(ops[..|ops| - 1], k) + {op.key}
  }

  /** Position of a key, counted from the most recent one. */
  function Age<K(==)>(keys: seq<K>, k: K): nat {
    if keys == [] || keys[|keys| - 1] == k then 0 else 1 + Age(keys[..|keys| - 1], k)
  }

  lemma {:induction false} AgePosition<K(!new)>(keys: seq<K>, k: K)
    requires k in keys
    ensures Age(keys, k) < |keys| && keys[|keys| - 1 - Age(keys, k)] == k
  {
    var m := |keys| - 1;
    if keys[m] != k {
      assert keys == keys[..m] + [keys[m]];
      AgePosition(keys[..m], k);
    }
  }

  lemma AgeInLastN<K(!new)>(keys: seq<K>, k: K, n: nat)
    requires Distinct(keys) && k in keys
    ensures k in LastN(keys, n) <==> Age(keys, k) < n
  {
    AgePosition(keys, k);
    var p := |keys| - 1 - Age(keys, k);
    if |keys| > n {
      var kept := keys[|keys| - n..];
      if Age(keys, k) < n { assert kept[p - (|keys| - n)] == k; }
      if i :| 0 <= i < |kept| && kept[i] == k { assert keys[|keys| - n + i] == k; }
    }
  }

  /** The keys younger than k in the recency list. */
  function Younger<K(==)>(keys: seq<K>, k: K): set<K> {
    if keys == [] || keys[|keys| - 1] == k then {} else Younger(keys[..|keys| - 1], k) + {keys[|keys| - 1]}
  }

  lemma {:induction false} YoungerInside<K(!new)>(keys: seq<K>, k: K)
    ensures Younger(keys, k) <= Elements(keys) - {k}
  {
    if keys != [] && keys[|keys| - 1] != k { YoungerInside(keys[..|keys| - 1], k); }
  }

  lemma {:induction false} AgeCountsYounger<K(!new)>(keys: seq<K>, k: K)
    requires Distinct(keys)
    ensures |Younger(keys, k)| == Age(keys, k)
  {
    if keys != [] && keys[|keys| - 1] != k {
      var m := |keys| - 1;
      AgeCountsYounger(keys[..m], k);
      YoungerInside(keys[..m], k);
      assert keys[m] !in Younger(keys[..m], k) by { assert keys[m] !in keys[..m]; }
    }
  }

  lemma {:induction false} YoungerAfterMove<K(!new)>(keys: seq<K>, j: K, k: K)
    requires j != k && k in keys && Distinct(keys)
    ensures Younger(Remove(keys, j), k) == Younger(keys, k) - {j}
  {
    var m := |keys| - 1;
    assert keys == keys[..m] + [keys[m]];
    RemoveConcat(keys[..m], [keys[m]], j);
    assert Remove([keys[m]], j) == if keys[m] == j then [] else [keys[m]];
    if keys[m] == k {
      var r := Remove(keys, j);
      assert r[|r| - 1] == k;
    } else {
      assert k in keys[..m];
      YoungerAfterMove(keys[..m], j, k);
      if keys[m] == j {
        assert Remove(keys, j) == Remove(keys[..m], j);
        YoungerInside(keys[..m], k);
        assert j !in Younger(keys[..m], k) by { assert j !in keys[..m]; }
      } else {
        var r := Remove(keys, j);
        assert r == Remove(keys[..m], j) + [keys[m]];
        assert r[..|r| - 1] == Remove(keys[..m], j);
      }
    }
  }

  lemma {:induction false} YoungerAreOthers<K(!new)>(ops: seq<Call<K>>, k: K)
    ensures k in Recent(ops) <==> Requested(ops, k)
    ensures k in Recent(ops) ==> Younger(Recent(ops), k) == OthersSince(ops, k)
  {
    if ops != [] {
      var before, op := ops[..|ops| - 1], ops[|ops| - 1];
      YoungerAreOthers(before, k);
      RequestedSplit(ops, k);
      if op.Request? {
        RecentDistinct(before);
        MoveToEnd(Recent(before), op.key);
        var r := Remove(Recent(before), op.key);
        assert (r + [op.key])[..|r|] == r;
        if op.key != k && k in Recent(before) { YoungerAfterMove(Recent(before), op.key, k); }
      }
    }
  }

  lemma RequestedSplit<K(!new)>(ops: seq<Call<K>>, k: K)
    requires ops != []
    ensures var op := ops[|ops| - 1];
            Requested(ops, k) <==> Requested(ops[..|ops| - 1], k) || (op.Request? && op.key == k)
  {
    var before := ops[..|ops| - 1];
    if i :| 0 <= i < |before| && before[i].Request? && before[i].key == k {
      assert ops[i] == before[i];
    }
    if i :| 0 <= i < |ops| && ops[i].Request? && ops[i].key == k {
      if i < |before| { assert ops[i] == before[i]; }
    }
  }

  /** A key is tracked exactly while fewer than maxKeys other keys were requested since its own last request. */
  lemma TrackedIff<K(!new)>(c: Config, ops: seq<Call<K>>, k: K)
    requires c.Valid() && NoReset(ops)
    ensures k in Run(c, Dict([], map[]), ops).table <==> Requested(ops, k) && |OthersSince(ops, k)| < c.maxKeys
  {
    var e: Dict<K, Bucket> := Dict([], map[]);
    EmptyOk<K>(c);
    RunOk(c, e, ops);
    var r := Run(c, e, ops);
    assert k in r.table <==> k in Elements(r.keys);
    TrackedAreMostRecent(c, ops);
    RecentDistinct(ops);
    YoungerAreOthers(ops, k);
    if k in Recent(ops) {
      AgeInLastN(Recent(ops), k, c.maxKeys);
      AgeCountsYounger(Recent(ops), k);
    } else {
      LastNMembers(Recent(ops), c.maxKeys);
    }
  }

  // ---- the reported wait ----

  /** The clock reading from which a bucket holds a whole token. */
  function ReadyAt(c: Config, b: Bucket): real
    requires c.Valid()
  {
    b.last + (1.0 - b.tokens) / c.rate
  }

  lemma QuotientBound(c: Config, x: real, t: real)
    requires c.Valid()
    ensures t * c.rate >= x <==> t >= x / c.rate
  {
    var q := x / c.rate;
    assert q * c.rate == x;
    if t >= q { Distribute(c.rate, q, t - q); ProductNonNegative(c.rate, t - q); }
    if t < q { Distribute(c.rate, t, q - t); ProductPositive(c.rate, q - t); }
  }

  lemma ProductPositive(x: real, y: real)
    requires x > 0.0 && y > 0.0
    ensures x * y > 0.0
  {
  }

  /** With a burst of at least one token, a tracked key is granted exactly from ReadyAt on. */
  lemma GrantedIffReady<K(!new)>(c: Config, s: Dict<K, Bucket>, k: K, now: real)
    requires c.Valid() && StateOk(c, s) && c.burst >= 1.0
    requires k in s.table && now >= s.table[k].last
    ensures Decide(c, s, k, now).allowed <==> now >= ReadyAt(c, s.table[k])
  {
    var b := s.table[k];
    QuotientBound(c, 1.0 - b.tokens, now - b.last);
  }

  /** A refused request leaves ReadyAt where it was, and reports exactly the time until then. */
  lemma RefusalKeepsReadyAt<K(!new)>(c: Config, s: Dict<K, Bucket>, k: K, now: real)
    requires c.Valid() && StateOk(c, s) && c.burst >= 1.0
    requires k in s.table && now >= s.table[k].last && !Decide(c, s, k, now).allowed
    ensures var r := AfterAllow(c, s, k, now);
            && k in r.table && r.table[k].last == now
            && ReadyAt(c, r.table[k]) == ReadyAt(c, s.table[k])
            && Decide(c, s, k, now).wait == ReadyAt(c, s.table[k]) - now
  {
    AfterAllowOk(c, s, k, now);
    RefusedTokens(c, s.table[k], now);
  }

  lemma RefusedTokens(c: Config, b: Bucket, now: real)
    requires c.Valid() && c.burst >= 1.0 && now >= b.last && Refilled(c, b, now) < 1.0
    ensures (1.0 - Refilled(c, b, now)) / c.rate == ReadyAt(c, b) - now
  {
    var gained := (now - b.last) * c.rate;
    assert Refilled(c, b, now) == b.tokens + gained;
    QuotientShift(c, 1.0 - b.tokens, now - b.last);
    assert 1.0 - (b.tokens + gained) == (1.0 - b.tokens) - gained;
  }

  lemma Below(c: Config, x: real, y: real)
    requires c.Valid() && x < y
    ensures x * c.rate < y * c.rate
  {
    ProductPositive(y - x, c.rate);
    Distribute(c.rate, x, y - x);
  }

  lemma SameProduct(c: Config, x: real, y: real)
    requires c.Valid() && x * c.rate == y * c.rate
    ensures x == y
  {
    if x < y { Below(c, x, y); }
    if y < x { Below(c, y, x); }
  }

  lemma QuotientShift(c: Config, x: real, t: real)
    requires c.Valid()
    ensures (x - t * c.rate) / c.rate == x / c.rate - t
  {
    var p, q := x / c.rate, (x - t * c.rate) / c.rate;
    Distribute(c.rate, p, -t);
    assert (p - t) * c.rate == x - t * c.rate == q * c.rate;
    SameProduct(c, p - t, q);
  }

  /** k is tracked throughout, its requests come in clock order, and all of them before a deadline. */
  ghost predicate Polling<K(!new)>(c: Config, s: Dict<K, Bucket>, ops: seq<Call<K>>, k: K, deadline: real)
    decreases |ops|
  {
    if ops == [] then k in s.table
    else
      var before, op := ops[..|ops| - 1], ops[|ops| - 1];
      && Polling(c, s, before, k, deadline)
      && k in Run(c, s, ops).table
      && (op.Request? && op.key == k ==> Run(c, s, before).table[k].last <= op.now < deadline)
  }

  /** However often k is polled before its time, nothing is granted and the time does not move. */
  lemma {:induction false} PollingChangesNothing<K(!new)>(c: Config, s: Dict<K, Bucket>, ops: seq<Call<K>>, k: K)
    requires c.Valid() && StateOk(c, s) && c.burst >= 1.0 && k in s.table
    requires Polling(c, s, ops, k, ReadyAt(c, s.table[k]))
    ensures k in Run(c, s, ops).table && ReadyAt(c, Run(c, s, ops).table[k]) == ReadyAt(c, s.table[k])
    ensures Grants(c, s, ops, k) == 0
    decreases |ops|
  {
    if ops != [] {
      var before, op := ops[..|ops| - 1], ops[|ops| - 1];
      PollingChangesNothing(c, s, before, k);
      RunOk(c, s, before);
      OneMorePoll(c, Run(c, s, before), op, k);
    }
  }

  lemma OneMorePoll<K(!new)>(c: Config, s: Dict<K, Bucket>, op: Call<K>, k: K)
    requires c.Valid() && StateOk(c, s) && c.burst >= 1.0 && k in s.table && k in Apply(c, s, op).table
    requires op.Request? && op.key == k ==> s.table[k].last <= op.now < ReadyAt(c, s.table[k])
    ensures ReadyAt(c, Apply(c, s, op).table[k]) == ReadyAt(c, s.table[k]) && Granted(c, s, op, k) == 0
  {
    match op
    case Request(j, now) =>
      AfterAllowOk(c, s, j, now);
      if j == k {
        GrantedIffReady(c, s, k, now);
        RefusalKeepsReadyAt(c, s, k, now);
      }
    case Reset(j) => ForgetOk(c, s, j);
    case ResetAll =>
  }

  /** After a refusal at t with wait w and any polling in between, a request is granted exactly from t + w on. */
  lemma ReportedWaitIsExact<K(!new)>(c: Config, s: Dict<K, Bucket>, k: K, t: real, ops: seq<Call<K>>, now: real)
    requires c.Valid() && StateOk(c, s) && c.burst >= 1.0 && (k in s.table ==> t >= s.table[k].last)
    requires !Decide(c, s, k, t).allowed
    requires Polling(c, AfterAllow(c, s, k, t), ops, k, t + Decide(c, s, k, t).wait)
    requires Run(c, AfterAllow(c, s, k, t), ops).table[k].last <= now
    ensures Decide(c, Run(c, AfterAllow(c, s, k, t), ops), k, now).allowed <==> now >= t + Decide(c, s, k, t).wait
  {
    var r := AfterAllow(c, s, k, t);
    AfterAllowOk(c, s, k, t);
    RefusalKeepsReadyAt(c, s, k, t);
    PollingChangesNothing(c, r, ops, k);
    RunOk(c, r, ops);
    GrantedIffReady(c, Run(c, r, ops), k, now);
  }

  /** Below a burst of one token nothing is ever granted. */
  lemma {:induction false} SmallBurstGrantsNothing<K(!new)>(c: Config, s: Dict<K, Bucket>, ops: seq<Call<K>>, k: K)
    requires c.Valid() && StateOk(c, s) && c.burst < 1.0
    ensures Grants(c, s, ops, k) == 0
  {
    if ops != [] {
      var before := ops[..|ops| - 1];
      SmallBurstGrantsNothing(c, s, before, k);
      RunOk(c, s, before);
    }
  }

  /** The promise behind the wait holds exactly for a burst of at least one token; below it nothing is ever granted,
      by this request or by any run. */
  lemma WaitHonouredIff<K(!new)>(c: Config, s: Dict<K, Bucket>, k: K, t: real)
    requires c.Valid() && StateOk(c, s) && (k in s.table ==> t >= s.table[k].last)
    requires !Decide(c, s, k, t).allowed
    ensures Decide(c, AfterAllow(c, s, k, t), k, t + Decide(c, s, k, t).wait).allowed <==> c.burst >= 1.0
    ensures c.burst < 1.0 ==> forall ops :: Grants(c, s, ops, k) == 0
  {
    var r, w := AfterAllow(c, s, k, t), Decide(c, s, k, t).wait;
    AfterAllowOk(c, s, k, t);
    if c.burst >= 1.0 {
      assert Run(c, r, []) == r;
      QuotientBound(c, 1.0 - TokensAt(c, s, k, t), 0.0);
      ReportedWaitIsExact(c, s, k, t, [], t + w);
    } else {
      forall ops ensures Grants(c, s, ops, k) == 0 {
        SmallBurstGrantsNothing(c, s, ops, k);
      }
    }
  }

  /** retry_after predicts allow, except for an unknown key of a limiter whose burst is below one token. */
  lemma ForecastIsExact<K(!new)>(c: Config, s: Dict<K, Bucket>, k: K, now: real)
    requires c.Valid() && StateOk(c, s)
    ensures Forecast(c, s, k, now) == Decide(c, s, k, now).wait <==> k in s.table || c.burst >= 1.0
    ensures k in s.table || c.burst >= 1.0 ==> (Forecast(c, s, k, now) == 0.0 <==> Decide(c, s, k, now).allowed)
  {
    var tokens := TokensAt(c, s, k, now);
    if tokens < 1.0 {
      assert (1.0 - tokens) / c.rate > 0.0 by { QuotientBound(c, 1.0 - tokens, 0.0); }
    }
  }
}
