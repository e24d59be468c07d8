/** Token buckets with a bounded number of tracked keys (examples/linksvc/linksvc/ratelimit.py). */
module TokenBucket {
  import opened Text
  import opened Options
  import opened Dictionary

  /** Tokens left at the last call, and the clock reading of that call. */
  datatype Bucket = Bucket(tokens: real, last: real)

  datatype Config = Config(rate: real, burst: real, maxKeys: nat) {
    predicate Valid() {
      rate > 0.0 && burst > 0.0 && maxKeys > 0
    }
  }

  function Min(x: real, y: real): real {
    if x <= y then x else y
  }

  function Positive(x: real): real {
    if x >= 0.0 then x else 0.0
  }

  /** Tokens a tracked key has at a clock reading. */
  function Refilled(c: Config, b: Bucket, now: real): real {
    Min(c.burst, b.tokens + Positive(now - b.last) * c.rate)
  }

  function TokensAt<K>(c: Config, s: Dict<K, Bucket>, k: K, now: real): real {
    if k in s.table then Refilled(c, s.table[k], now) else c.burst
  }

  function Remove<K(==)>(keys: seq<K>, k: K): seq<K> {
    if keys == [] then []
    else (if keys[0] == k then [] else [keys[0]]) + Remove(keys[1..], k)
  }

  /** The n most recent entries of a list. */
  function LastN<K>(keys: seq<K>, n: nat): seq<K> {
    if |keys| <= n then keys else keys[|keys| - n..]
  }

  function Restrict<K>(s: Dict<K, Bucket>, keys: seq<K>): Dict<K, Bucket> {
    Dict(keys, map k | k in s.table && k in keys :: s.table[k])
  }

  /** Store a bucket as the most recent one and keep no more than maxKeys of them. */
  function Remember<K(==)>(c: Config, s: Dict<K, Bucket>, k: K, b: Bucket): Dict<K, Bucket> {
    var moved := Remove(s.keys, k) + [k];
    Restrict(Dict(moved, s.table[k := b]), LastN(moved, c.maxKeys))
  }

  datatype Answer = Answer(allowed: bool, wait: real)

  /** The answer to one request. */
  function Decide<K>(c: Config, s: Dict<K, Bucket>, k: K, now: real): Answer
    requires c.Valid()
  {
    var tokens := TokensAt(c, s, k, now);
    if tokens >= 1.0 then Answer(true, 0.0) else Answer(false, (1.0 - tokens) / c.rate)
  }

  function AfterAllow<K(==)>(c: Config, s: Dict<K, Bucket>, k: K, now: real): Dict<K, Bucket> {
    var tokens := TokensAt(c, s, k, now);
    Remember(c, s, k, Bucket(if tokens >= 1.0 then tokens - 1.0 else tokens, now))
  }

  function Forecast<K>(c: Config, s: Dict<K, Bucket>, k: K, now: real): real
    requires c.Valid()
  {
    if k !in s.table then 0.0
    else
      var tokens := Refilled(c, s.table[k], now);
      if tokens >= 1.0 then 0.0 else (1.0 - tokens) / c.rate
  }

  function Forget<K(==)>(s: Dict<K, Bucket>, k: K): Dict<K, Bucket> {
    Dict(Remove(s.keys, k), s.table - {k})
  }

  ghost predicate StateOk<K(!new)>(c: Config, s: Dict<K, Bucket>) {
    && s.Valid() && |s.keys| <= c.maxKeys
    && forall k :: k in s.table ==> 0.0 <= s.table[k].tokens <= c.burst
  }

  // ---- lists of keys ----

  lemma {:induction false} RemoveMembers<K>(keys: seq<K>, k: K, x: K)
    ensures x in Remove(keys, k) <==> x in keys && x != k
  {
    if keys != [] {
      assert keys == [keys[0]] + keys[1..];
      RemoveMembers(keys[1..], k, x);
    }
  }

  lemma {:induction false} RemoveDistinct<K>(keys: seq<K>, k: K)
    requires Distinct(keys)
    ensures Distinct(Remove(keys, k))
  {
    if keys != [] {
      RemoveDistinct(keys[1..], k);
      var rest := Remove(keys[1..], k);
      forall j | 0 <= j < |rest| ensures rest[j] != keys[0] {
        RemoveMembers(keys[1..], k, rest[j]);
      }
    }
  }

  lemma MoveToEnd<K>(keys: seq<K>, k: K)
    requires Distinct(keys)
    ensures Distinct(Remove(keys, k) + [k])
    ensures forall x :: x in Remove(keys, k) + [k] <==> x in keys || x == k
  {
    RemoveDistinct(keys, k);
    RemoveMembers(keys, k, k);
    var moved := Remove(keys, k) + [k];
    forall x ensures x in moved <==> x in keys || x == k {
      RemoveMembers(keys, k, x);
      assert x in moved <==> x in Remove(keys, k) || x == k;
    }
    forall i, j | 0 <= i < j < |moved| ensures moved[i] != moved[j] {
      if j == |moved| - 1 { assert moved[i] in Remove(keys, k); }
    }
  }

  lemma LastNMembers<K>(keys: seq<K>, n: nat)
    requires Distinct(keys)
    ensures Distinct(LastN(keys, n)) && |LastN(keys, n)| <= n
    ensures forall x :: x in LastN(keys, n) ==> x in keys
    ensures keys != [] && n > 0 ==> keys[|keys| - 1] in LastN(keys, n)
  {
    var kept := LastN(keys, n);
    if keys != [] && n > 0 { assert kept[|kept| - 1] == keys[|keys| - 1]; }
  }

  lemma RestrictValid<K>(s: Dict<K, Bucket>, kept: seq<K>)
    requires Distinct(kept) && forall x :: x in kept ==> x in s.table
    ensures Restrict(s, kept).Valid()
  {
    var r := Restrict(s, kept);
    assert Elements(r.keys) == r.table.Keys;
  }

  /** Remembering keeps the invariant, always keeps k, and touches no other bucket it keeps. */
  lemma RememberOk<K(!new)>(c: Config, s: Dict<K, Bucket>, k: K, b: Bucket)
    requires c.Valid() && StateOk(c, s) && 0.0 <= b.tokens <= c.burst
    ensures var r := Remember(c, s, k, b);
            && StateOk(c, r) && k in r.table && r.table[k] == b
            && r.keys == LastN(Remove(s.keys, k) + [k], c.maxKeys)
            && forall j :: j in r.table && j != k ==> j in s.table && r.table[j] == s.table[j]
  {
    var moved := Remove(s.keys, k) + [k];
    MoveToEnd(s.keys, k);
    LastNMembers(moved, c.maxKeys);
    forall x | x in LastN(moved, c.maxKeys) ensures x in s.table[k := b] {
      assert x in s.keys ==> x in Elements(s.keys);
    }
    RestrictValid(Dict(moved, s.table[k := b]), LastN(moved, c.maxKeys));
  }

  lemma AfterAllowOk<K(!new)>(c: Config, s: Dict<K, Bucket>, k: K, now: real)
    requires c.Valid() && StateOk(c, s)
    ensures var r, t := AfterAllow(c, s, k, now), TokensAt(c, s, k, now);
            && StateOk(c, r) && k in r.table
            && r.table[k] == Bucket(if t >= 1.0 then t - 1.0 else t, now)
            && r.keys == LastN(Remove(s.keys, k) + [k], c.maxKeys)
            && forall j :: j in r.table && j != k ==> j in s.table && r.table[j] == s.table[j]
  {
    var t := TokensAt(c, s, k, now);
    if k in s.table { RefillBounds(c, s.table[k], now); }
    RememberOk(c, s, k, Bucket(if t >= 1.0 then t - 1.0 else t, now));
  }

  lemma RefillBounds(c: Config, b: Bucket, now: real)
    requires c.Valid() && 0.0 <= b.tokens <= c.burst
    ensures 0.0 <= Refilled(c, b, now) <= c.burst
    ensures Refilled(c, b, now) <= b.tokens + Positive(now - b.last) * c.rate
  {
    ProductNonNegative(Positive(now - b.last), c.rate);
  }

  /** Waiting for the reported time refills exactly what is missing. */
  lemma WaitFillsGap(c: Config, gap: real)
    requires c.Valid() && gap > 0.0
    ensures gap / c.rate > 0.0 && (gap / c.rate) * c.rate == gap
  {
    var q := gap / c.rate;
    assert q * c.rate == gap;
    if q <= 0.0 { ProductNonNegative(-q, c.rate); }
  }

  lemma ProductNonNegative(x: real, y: real)
    requires x >= 0.0 && y >= 0.0
    ensures x * y >= 0.0
  {
  }

  lemma ForgetOk<K(!new)>(c: Config, s: Dict<K, Bucket>, k: K)
    requires StateOk(c, s)
    ensures StateOk(c, Forget(s, k)) && k !in Forget(s, k).table
    ensures forall j :: j in Forget(s, k).table ==> j in s.table && Forget(s, k).table[j] == s.table[j]
  {
    RemoveDistinct(s.keys, k);
    RemoveShorter(s.keys, k);
    var r := Forget(s, k);
    forall x ensures x in Elements(r.keys) <==> x in r.table {
      RemoveMembers(s.keys, k, x);
      assert x in s.keys <==> x in Elements(s.keys);
    }
  }

  lemma {:induction false} RemoveShorter<K>(keys: seq<K>, k: K)
    ensures |Remove(keys, k)| <= |keys|
    ensures k !in keys ==> Remove(keys, k) == keys
  {
    if keys != [] { RemoveShorter(keys[1..], k); }
  }

  /** The limiter as an object: buckets are updated, reordered and evicted in place. */
  class Limiter<K(==,!new)> {
    const config: Config
    var buckets: Dict<K, Bucket>

    ghost predicate Valid()
      reads this
    {
      config.Valid() && StateOk(config, buckets)
    }

    constructor (c: Config)
      requires c.Valid()
      ensures Valid() && config == c && buckets == Dict([], map[])
    {
      config, buckets := c, Dict([], map[]);
    }

    method Allow(k: K, now: real) returns (a: Answer)
      requires Valid()
      modifies this
      ensures Valid()
      ensures a == Decide(config, old(buckets), k, now)
      ensures buckets == AfterAllow(config, old(buckets), k, now)
    {
      var tokens := config.burst;
      if k in buckets.table {
        tokens := Refilled(config, buckets.table[k], now);
        RefillBounds(config, buckets.table[k], now);
      }
      assert tokens == TokensAt(config, buckets, k, now);
      AfterAllowIs(config, buckets, k, now);
      if tokens >= 1.0 {
        Store(k, tokens - 1.0, now);
        return Answer(true, 0.0);
      }
      Store(k, tokens, now);
      return Answer(false, (1.0 - tokens) / config.rate);
    }

    method Store(k: K, tokens: real, now: real)
      requires Valid() && 0.0 <= tokens <= config.burst
      modifies this
      ensures Valid()
      ensures buckets == Remember(config, old(buckets), k, Bucket(tokens, now))
    {
      RememberOk(config, buckets, k, Bucket(tokens, now));
      MoveToEnd(buckets.keys, k);
      var order := Remove(buckets.keys, k) + [k];
      var table := buckets.table[k := Bucket(tokens, now)];
      assert forall x :: x in table ==> x in order by {
        forall x | x in table ensures x in order {
          assert x in buckets.table ==> x in Elements(buckets.keys);
        }
      }
      buckets := EvictOldest(Dict(order, table), config.maxKeys);
    }

    method RetryAfter(k: K, now: real) returns (w: real)
      requires Valid()
      ensures w == Forecast(config, buckets, k, now) && w >= 0.0
      ensures w == 0.0 <==> k !in buckets.table || Refilled(config, buckets.table[k], now) >= 1.0
      ensures w > 0.0 ==> Refilled(config, buckets.table[k], now) + w * config.rate == 1.0
    {
      if k !in buckets.table {
        return 0.0;
      }
      var tokens := Refilled(config, buckets.table[k], now);
      if tokens < 1.0 { WaitFillsGap(config, 1.0 - tokens); }
      return if tokens >= 1.0 then 0.0 else (1.0 - tokens) / config.rate;
    }

    method TrackedKeys() returns (n: nat)
      requires Valid()
      ensures n == |buckets.table.Keys| && n <= config.maxKeys
    {
      DistinctSize(buckets.keys);
      return |buckets.keys|;
    }

    method Reset(key: Option<K>)
      requires Valid()
      modifies this
      ensures Valid()
      ensures buckets == if key.None? then Dict([], map[]) else Forget(old(buckets), key.value)
      ensures forall j :: j in buckets.table <==> key.Some? && j != key.value && j in old(buckets).table
      ensures forall j :: j in buckets.table ==> buckets.table[j] == old(buckets).table[j]
    {
      match key
      case None =>
        buckets := Dict([], map[]);
      case Some(k) =>
        ForgetOk(config, buckets, k);
        buckets := Forget(buckets, k);
    }
  }

  lemma AfterAllowIs<K>(c: Config, s: Dict<K, Bucket>, k: K, now: real)
    ensures var tokens := TokensAt(c, s, k, now);
            AfterAllow(c, s, k, now) == Remember(c, s, k, Bucket(if tokens >= 1.0 then tokens - 1.0 else tokens, now))
  {
  }

  /** Drop entries from the front until no more than n are left. */
  method EvictOldest<K(==,!new)>(d: Dict<K, Bucket>, n: nat) returns (r: Dict<K, Bucket>)
    requires Distinct(d.keys) && forall x :: x in d.table ==> x in d.keys
    ensures r == Restrict(d, LastN(d.keys, n))
  {
    r := d;
    ghost var gone := 0;
    RestrictAll(d);
    while |r.keys| > n
      invariant gone <= |d.keys| && |r.keys| == |d.keys| - gone && r == From(d, gone)
      invariant gone == 0 || |d.keys| - gone >= n
    {
      EvictedOne(d, gone);
      r := Dict(r.keys[1..], r.table - {r.keys[0]});
      gone := gone + 1;
    }
    EvictionEnds(d, gone, n);
  }

  /** What is left when the first i entries are gone. */
  function From<K>(d: Dict<K, Bucket>, i: nat): (r: Dict<K, Bucket>)
    requires i <= |d.keys|
    ensures |r.keys| == |d.keys| - i
  {
    Restrict(d, d.keys[i..])
  }

  lemma RestrictAll<K>(d: Dict<K, Bucket>)
    requires forall x :: x in d.table ==> x in d.keys
    ensures From(d, 0) == d
  {
    assert d.keys[0..] == d.keys;
  }

  lemma EvictionEnds<K>(d: Dict<K, Bucket>, i: nat, n: nat)
    requires i <= |d.keys| && |d.keys| - i <= n && (i == 0 || |d.keys| - i >= n)
    ensures From(d, i) == Restrict(d, LastN(d.keys, n))
  {
    if i == 0 { assert d.keys[0..] == d.keys; }
  }

  lemma EvictedOne<K>(d: Dict<K, Bucket>, i: nat)
    requires i < |d.keys| && Distinct(d.keys)
    ensures var r := From(d, i); Dict(r.keys[1..], r.table - {r.keys[0]}) == From(d, i + 1)
  {
    var longer, shorter := d.keys[i..], d.keys[i + 1..];
    forall x ensures x in shorter <==> x in longer && x != d.keys[i] {
      if x in longer && x != d.keys[i] {
        var j :| 0 <= j < |longer| && longer[j] == x;
        assert shorter[j - 1] == x;
      }
      if x in shorter {
        var j :| 0 <= j < |shorter| && shorter[j] == x;
        assert longer[j + 1] == x && d.keys[i + 1 + j] == x;
      }
    }
    assert longer[1..] == shorter;
    assert From(d, i).table - {longer[0]} == From(d, i + 1).table;
  }

  /** The source's constructor refuses a configuration that is not positive throughout. */
  method NewLimiter<K(==,!new)>(rate: real, burst: real, maxKeys: int) returns (l: Option<Limiter<K>>)
    ensures l.Some? <==> rate > 0.0 && burst > 0.0 && maxKeys > 0
    ensures l.Some? ==>
              l.value.Valid() && l.value.config == Config(rate, burst, maxKeys) && l.value.buckets == Dict([], map[])
  {
    if rate <= 0.0 || burst <= 0.0 || maxKeys <= 0 {
      return None;
    }
    var limiter := new Limiter(Config(rate, burst, maxKeys));
    return Some(limiter);
  }
}
