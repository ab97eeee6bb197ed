/**
 The per-client token bucket of src/ratelimit.cpp, over reals.  Times are
 milliseconds; a client is the 64-bit key its address hashes to.  A shard that
 holds MAX_KEYS buckets first sweeps the idle ones.
 */
module RateLimit {

  const SHARDS := 64
  const MAX_KEYS := 4096
  const IDLE_MS := 60_000

  datatype Bucket = Bucket(tokens: real, last: int)

  datatype Limits = Limits(rate: real, burst: real)

  type Buckets = map<nat, Bucket>

  datatype Request = Request(key: nat, cost: real, now: int)

  /** The configured values: `reload_for_test` makes the burst at least 1. */
  predicate Sane(g: Limits) { g.rate >= 0.0 && g.burst >= 1.0 }

  // ---------- specification ----------

  /** Tokens gained in `dt` milliseconds. */
  function Gain(g: Limits, dt: int): real { dt as real / 1000.0 * g.rate }

  function Min(a: real, b: real): real { if a <= b then a else b }

  function Refilled(g: Limits, b: Bucket, now: int): real { Min(b.tokens + Gain(g, now - b.last), g.burst) }

  predicate Idle(b: Bucket, now: int) { now - b.last > IDLE_MS }

  function Sweep(m: Buckets, now: int): Buckets { map k | k in m && !Idle(m[k], now) :: m[k] }

  /** The bucket a request finds; a new one is full. */
  function Found(g: Limits, m: Buckets, r: Request): Bucket {
    if r.key in m then m[r.key] else Bucket(g.burst, r.now)
  }

  function Decision(g: Limits, m: Buckets, r: Request): bool {
    g.rate <= 0.0 || Refilled(g, Found(g, m, r), r.now) >= r.cost
  }

  function Spent(g: Limits, m: Buckets, r: Request): Bucket {
    var t := Refilled(g, Found(g, m, r), r.now);
    Bucket(if t >= r.cost then t - r.cost else t, r.now)
  }

  function ShardOf(s: seq<Buckets>, r: Request): Buckets
    requires |s| == SHARDS
  {
    var m := s[r.key % SHARDS];
    if |m| >= MAX_KEYS then Sweep(m, r.now) else m
  }

  /** One call of the limiter that sweeps. */
  function Next(g: Limits, s: seq<Buckets>, r: Request): (s': seq<Buckets>)
    requires |s| == SHARDS
    ensures |s'| == SHARDS
  {
    if g.rate <= 0.0 then s else s[r.key % SHARDS := ShardOf(s, r)[r.key := Spent(g, ShardOf(s, r), r)]]
  }

  class RateLimiter {
    const g: Limits
    var shards: seq<Buckets>

    constructor (g: Limits)
      ensures this.g == g && |shards| == SHARDS && forall i | 0 <= i < SHARDS :: shards[i] == map[]
    {
      this.g, shards := g, seq(SHARDS, _ => map[]);
    }

    method Allow(r: Request) returns (ok: bool)
      requires |shards| == SHARDS
      modifies this
      ensures ok == Decision(g, ShardOf(old(shards), r), r)
      ensures shards == Next(g, old(shards), r)
    {
      hide Refilled, Sweep;
      if g.rate <= 0.0 { return true; }
      var i := r.key % SHARDS;
      var m := shards[i];
      if |m| >= MAX_KEYS { m := EraseIdle(m, r.now); }
      ghost var found := m;
      assert found == ShardOf(old(shards), r);
      if r.key !in m { m := m[r.key := Bucket(g.burst, r.now)]; }
      var t := Refilled(g, m[r.key], r.now);
      ok := t >= r.cost;
      m := m[r.key := Bucket(if ok then t - r.cost else t, r.now)];
      assert m == found[r.key := Spent(g, found, r)];
      shards := shards[i := m];
    }
  }

  /** The sweep loop. */
  method EraseIdle(m: Buckets, now: int) returns (r: Buckets)
    ensures r == Sweep(m, now)
  {
    r := m;
    var left := m.Keys;
    while left != {}
      invariant left <= m.Keys
      invariant forall k :: k in r <==> k in m && (k in left || !Idle(m[k], now))
      invariant forall k <- r :: r[k] == m[k]
      decreases |left|
    {
      var k :| k in left;
      if now - r[k].last > IDLE_MS { r := r - {k}; }
      left := left - {k};
    }
  }

  // ---------- runs of the limiter that sweeps and of one that never does ----------

  predicate Ordered(rs: seq<Request>, from: int) {
    rs == [] || (from <= rs[0].now && rs[0].cost >= 0.0 && Ordered(rs[1..], rs[0].now))
  }

  function Decisions(g: Limits, s: seq<Buckets>, rs: seq<Request>): (d: seq<bool>)
    requires |s| == SHARDS
    ensures |d| == |rs|
    decreases |rs|
  {
    if rs == [] then [] else [Decision(g, ShardOf(s, rs[0]), rs[0])] + Decisions(g, Next(g, s, rs[0]), rs[1..])
  }

  function Keep(g: Limits, m: Buckets, r: Request): Buckets {
    if g.rate <= 0.0 then m else m[r.key := Spent(g, m, r)]
  }

  function KeptDecisions(g: Limits, m: Buckets, rs: seq<Request>): (d: seq<bool>)
    ensures |d| == |rs|
    decreases |rs|
  {
    if rs == [] then [] else [Decision(g, m, rs[0])] + KeptDecisions(g, Keep(g, m, rs[0]), rs[1..])
  }

  function Kept(g: Limits, m: Buckets, rs: seq<Request>): Buckets
    decreases |rs|
  {
    if rs == [] then m else Kept(g, Keep(g, m, rs[0]), rs[1..])
  }

  /** The shards of a limiter just started. */
  function Fresh(): (s: seq<Buckets>)
    ensures |s| == SHARDS && forall i | 0 <= i < SHARDS :: s[i] == map[]
  {
    seq(SHARDS, _ => map[])
  }

  // ---------- tokens stay in range ----------

  ghost predicate InRange(g: Limits, m: Buckets, now: int) {
    forall k <- m :: 0.0 <= m[k].tokens <= g.burst && m[k].last <= now
  }

  lemma GainLaws(g: Limits, a: int, b: int)
    requires g.rate >= 0.0
    ensures Gain(g, a) + Gain(g, b) == Gain(g, a + b)
    ensures a >= 0 ==> Gain(g, a) >= 0.0
    ensures Gain(g, 0) == 0.0
    ensures a <= b ==> Gain(g, a) <= Gain(g, b)
  {
    var x, y := a as real / 1000.0, b as real / 1000.0;
    assert x * g.rate + y * g.rate == (x + y) * g.rate;
    if a <= b { ProductOrder(x, y, g.rate); }
    if a >= 0 { ProductOrder(0.0, x, g.rate); }
  }

  lemma ProductOrder(x: real, y: real, c: real)
    requires x <= y && c >= 0.0
    ensures x * c <= y * c
  {
    assert (y - x) * c >= 0.0;
  }

  lemma KeepInRange(g: Limits, m: Buckets, r: Request, now: int)
    requires Sane(g) && InRange(g, m, now) && now <= r.now && r.cost >= 0.0
    ensures InRange(g, Keep(g, m, r), r.now)
  {
    hide Gain;
    if r.key in m { GainLaws(g, r.now - m[r.key].last, 0); } else { GainLaws(g, 0, 0); }
  }

  /** The shards after a run of the limiter that sweeps. */
  function After(g: Limits, s: seq<Buckets>, rs: seq<Request>): (s': seq<Buckets>)
    requires |s| == SHARDS
    ensures |s'| == SHARDS
    decreases |rs|
  {
    if rs == [] then s else After(g, Next(g, s, rs[0]), rs[1..])
  }

  ghost predicate AllInRange(g: Limits, s: seq<Buckets>, now: int) { forall m <- s :: InRange(g, m, now) }

  lemma NextInRange(g: Limits, s: seq<Buckets>, r: Request, now: int)
    requires Sane(g) && |s| == SHARDS && AllInRange(g, s, now) && now <= r.now && r.cost >= 0.0
    ensures AllInRange(g, Next(g, s, r), r.now)
  {
    hide Spent;
    var m := s[r.key % SHARDS];
    assert InRange(g, m, now);
    KeepInRange(g, ShardOf(s, r), r, now);
    forall x <- Next(g, s, r)
      ensures InRange(g, x, r.now)
    {
      assert x in s || x == Keep(g, ShardOf(s, r), r);
    }
  }

  lemma {:induction false} AfterInRange(g: Limits, s: seq<Buckets>, rs: seq<Request>, from: int, now: int)
    requires Sane(g) && |s| == SHARDS && AllInRange(g, s, from) && Ordered(rs, from) && from <= now
    requires rs != [] ==> rs[|rs| - 1].now <= now
    ensures AllInRange(g, After(g, s, rs), now)
    decreases |rs|
  {
    if rs != [] {
      hide AllInRange, Next;
      NextInRange(g, s, rs[0], from);
      OrderedLast(rs, from);
      AfterInRange(g, Next(g, s, rs[0]), rs[1..], rs[0].now, now);
    } else {
      assert After(g, s, rs) == s;
    }
  }

  /** In every run every bucket of every shard holds between 0 and `burst` tokens, refilled no later than now. */
  lemma TokensInRange(g: Limits, rs: seq<Request>, from: int, now: int)
    requires Sane(g) && Ordered(rs, from) && from <= now && (rs != [] ==> rs[|rs| - 1].now <= now)
    ensures forall m <- After(g, Fresh(), rs) :: InRange(g, m, now)
  {
    AfterInRange(g, Fresh(), rs, from, now);
  }

  lemma {:induction false} KeptInRange(g: Limits, m: Buckets, rs: seq<Request>, from: int, now: int)
    requires Sane(g) && InRange(g, m, from) && Ordered(rs, from) && from <= now
    requires rs != [] ==> rs[|rs| - 1].now <= now
    ensures InRange(g, Kept(g, m, rs), now)
    decreases |rs|
  {
    if rs != [] {
      hide InRange, Keep;
      KeepInRange(g, m, rs[0], from);
      OrderedLast(rs, from);
      KeptInRange(g, Keep(g, m, rs[0]), rs[1..], rs[0].now, now);
    } else {
      assert Kept(g, m, rs) == m;
    }
  }

  lemma {:induction false} OrderedLast(rs: seq<Request>, from: int)
    requires rs != [] && Ordered(rs, from)
    ensures from <= rs[0].now <= rs[|rs| - 1].now
  {
    if |rs| > 1 { OrderedLast(rs[1..], rs[0].now); }
  }

  // ---------- the sweep is invisible ----------

  /** An idle bucket is full again by the time it may be swept, counting whole milliseconds. */
  predicate RefillsWhenIdle(g: Limits) { g.burst * 1000.0 <= 60_001.0 * g.rate }

  /** `s` has the buckets of `m`, except some idle ones. */
  ghost predicate Same(g: Limits, s: seq<Buckets>, m: Buckets, now: int)
    requires |s| == SHARDS
  {
    forall k: nat ::
      && (k in s[k % SHARDS] ==> k in m && m[k] == s[k % SHARDS][k])
      && (k in m && k !in s[k % SHARDS] ==> Idle(m[k], now))
  }

  lemma IdleIsFull(g: Limits, b: Bucket, now: int)
    requires Sane(g) && RefillsWhenIdle(g) && b.tokens >= 0.0 && Idle(b, now)
    ensures Refilled(g, b, now) == g.burst
  {
    GainLaws(g, 60_001, now - b.last);
    assert Gain(g, 60_001) == 60_001.0 / 1000.0 * g.rate;
    assert 60_001.0 / 1000.0 * g.rate * 1000.0 == 60_001.0 * g.rate;
  }

  lemma FreshIsFull(g: Limits, now: int)
    requires g.rate >= 0.0
    ensures Refilled(g, Bucket(g.burst, now), now) == g.burst
  {
    GainLaws(g, 0, 0);
  }

  lemma SameStep(g: Limits, s: seq<Buckets>, m: Buckets, r: Request, now: int)
    requires Sane(g) && RefillsWhenIdle(g) && |s| == SHARDS && now <= r.now
    requires Same(g, s, m, now) && InRange(g, m, now)
    ensures Decision(g, ShardOf(s, r), r) == Decision(g, m, r)
    ensures Same(g, Next(g, s, r), Keep(g, m, r), r.now)
  {
    hide Refilled;
    var k := r.key;
    assert k in s[k % SHARDS] ==> k in m && m[k] == s[k % SHARDS][k];
    assert k in m && k !in s[k % SHARDS] ==> Idle(m[k], now);
    FreshIsFull(g, r.now);
    if k in m && k !in ShardOf(s, r) { IdleIsFull(g, m[k], r.now); }
    assert Refilled(g, Found(g, ShardOf(s, r), r), r.now) == Refilled(g, Found(g, m, r), r.now);
    SameOthers(g, s, m, r, now);
  }

  lemma SameOthers(g: Limits, s: seq<Buckets>, m: Buckets, r: Request, now: int)
    requires |s| == SHARDS && now <= r.now && Same(g, s, m, now)
    requires Spent(g, ShardOf(s, r), r) == Spent(g, m, r)
    ensures Same(g, Next(g, s, r), Keep(g, m, r), r.now)
  {
    hide Spent;
    var s', m' := Next(g, s, r), Keep(g, m, r);
    forall k: nat
      ensures (k in s'[k % SHARDS] ==> k in m' && m'[k] == s'[k % SHARDS][k])
           && (k in m' && k !in s'[k % SHARDS] ==> Idle(m'[k], r.now))
    {
      assert (k in s[k % SHARDS] ==> k in m && m[k] == s[k % SHARDS][k])
          && (k in m && k !in s[k % SHARDS] ==> Idle(m[k], now));
    }
  }

  lemma {:induction false} SameDecisions(g: Limits, s: seq<Buckets>, m: Buckets, rs: seq<Request>, now: int)
    requires Sane(g) && RefillsWhenIdle(g) && |s| == SHARDS && Ordered(rs, now)
    requires Same(g, s, m, now) && InRange(g, m, now)
    ensures Decisions(g, s, rs) == KeptDecisions(g, m, rs)
    decreases |rs|
  {
    if rs != [] {
      hide Same, InRange, Next, Keep, Decision, RefillsWhenIdle;
      SameStep(g, s, m, rs[0], now);
      KeepInRange(g, m, rs[0], now);
      SameDecisions(g, Next(g, s, rs[0]), Keep(g, m, rs[0]), rs[1..], rs[0].now);
    }
  }

  /** Eviction is invisible: the sweeping limiter decides every call of every run as one that never evicts. */
  lemma SweepInvisible(g: Limits, rs: seq<Request>, from: int)
    requires Sane(g) && RefillsWhenIdle(g) && Ordered(rs, from)
    ensures Decisions(g, Fresh(), rs) == KeptDecisions(g, map[], rs)
  {
    SameDecisions(g, Fresh(), map[], rs, from);
  }

  // ---------- and only then ----------

  /** Fill one shard with `n` spent buckets at time 0. */
  function Flood(g: Limits, i: nat, n: nat): seq<Request>
    requires i <= n
    decreases n - i
  {
    if i == n then [Request(0, g.burst, 60_001)]
    else [Request(SHARDS * i, g.burst, 0)] + Flood(g, i + 1, n)
  }

  lemma {:induction false} FloodOrdered(g: Limits, i: nat, n: nat)
    requires Sane(g) && i <= n
    ensures Ordered(Flood(g, i, n), 0)
    decreases n - i
  {
    if i < n {
      FloodOrdered(g, i + 1, n);
      assert Flood(g, i, n)[1..] == Flood(g, i + 1, n);
    } else {
      assert Flood(g, i, n)[1..] == [];
    }
  }

  /** `i` spent buckets, with keys below SHARDS * i. */
  ghost predicate Drained(m: Buckets, i: nat) {
    && |m| == i
    && (forall k <- m :: m[k] == Bucket(0.0, 0) && k < SHARDS * i)
    && (i > 0 ==> 0 in m)
  }

  lemma DrainMore(m: Buckets, i: nat)
    requires Drained(m, i)
    ensures SHARDS * i !in m && Drained(m[SHARDS * i := Bucket(0.0, 0)], i + 1)
  {
    var m' := m[SHARDS * i := Bucket(0.0, 0)];
    assert SHARDS * i !in m;
    assert m'.Keys == m.Keys + {SHARDS * i};
    assert |m'| == |m'.Keys| == |m.Keys| + 1;
  }

  lemma DrainStep(g: Limits, m: Buckets, i: nat)
    requires Sane(g) && g.rate > 0.0 && Drained(m, i)
    ensures var r := Request(SHARDS * i, g.burst, 0);
            Decision(g, m, r) && Drained(m[r.key := Spent(g, m, r)], i + 1)
  {
    hide Refilled, Drained;
    DrainMore(m, i);
    FreshIsFull(g, 0);
  }

  lemma {:induction false} FloodDiffers(g: Limits, s: seq<Buckets>, m: Buckets, i: nat)
    requires Sane(g) && g.rate > 0.0 && !RefillsWhenIdle(g) && i <= MAX_KEYS
    requires |s| == SHARDS && s[0] == m && Drained(m, i)
    ensures Decisions(g, s, Flood(g, i, MAX_KEYS)) != KeptDecisions(g, m, Flood(g, i, MAX_KEYS))
    decreases MAX_KEYS - i
  {
    hide Drained, RefillsWhenIdle, Spent, Decision;
    var rs := Flood(g, i, MAX_KEYS);
    var r := rs[0];
    if i == MAX_KEYS {
      LastDiffers(g, s, m);
      assert Decisions(g, s, rs)[0] != KeptDecisions(g, m, rs)[0];
    } else {
      assert r == Request(SHARDS * i, g.burst, 0) && rs[1..] == Flood(g, i + 1, MAX_KEYS);
      DrainedSize(m, i);
      assert r.key % SHARDS == 0;
      DrainStep(g, m, i);
      FloodDiffers(g, Next(g, s, r), Keep(g, m, r), i + 1);
      assert Decisions(g, s, rs)[1..] != KeptDecisions(g, m, rs)[1..];
    }
  }

  lemma DrainedSize(m: Buckets, i: nat)
    requires Drained(m, i)
    ensures |m| == i
  {}

  /** The last request of the flood: a full bucket after the sweep, a part-filled one without it. */
  lemma LastDiffers(g: Limits, s: seq<Buckets>, m: Buckets)
    requires Sane(g) && g.rate > 0.0 && !RefillsWhenIdle(g)
    requires |s| == SHARDS && s[0] == m && Drained(m, MAX_KEYS)
    ensures var r := Request(0, g.burst, 60_001);
            Decision(g, ShardOf(s, r), r) && !Decision(g, m, r)
  {
    var r := Request(0, g.burst, 60_001);
    assert 0 !in Sweep(m, r.now);
    FreshIsFull(g, r.now);
    assert Found(g, m, r) == Bucket(0.0, 0);
    assert Gain(g, 60_001) == 60_001.0 / 1000.0 * g.rate;
    assert 60_001.0 / 1000.0 * g.rate * 1000.0 == 60_001.0 * g.rate;
  }

  /**
   The exact condition: sweeping idle buckets never changes a decision, over all runs, if and
   only if a bucket refills completely in 60.001 seconds (or the limiter is off).
   */
  lemma SweepInvisibleIff(g: Limits)
    requires Sane(g)
    ensures (forall rs: seq<Request>, from: int :: Ordered(rs, from) ==> Decisions(g, Fresh(), rs) == KeptDecisions(g, map[], rs))
            <==> g.rate <= 0.0 || RefillsWhenIdle(g)
  {
    hide Decisions, KeptDecisions, Ordered;
    if g.rate <= 0.0 {
      forall rs: seq<Request>, from: int | Ordered(rs, from)
        ensures Decisions(g, Fresh(), rs) == KeptDecisions(g, map[], rs)
      {
        OffDecisions(g, Fresh(), map[], rs);
      }
    } else if RefillsWhenIdle(g) {
      forall rs: seq<Request>, from: int | Ordered(rs, from)
        ensures Decisions(g, Fresh(), rs) == KeptDecisions(g, map[], rs)
      {
        SweepInvisible(g, rs, from);
      }
    } else {
      var rs := Flood(g, 0, MAX_KEYS);
      FloodOrdered(g, 0, MAX_KEYS);
      FloodDiffers(g, Fresh(), map[], 0);
      assert Ordered(rs, 0) && Decisions(g, Fresh(), rs) != KeptDecisions(g, map[], rs);
    }
  }

  lemma {:induction false} OffDecisions(g: Limits, s: seq<Buckets>, m: Buckets, rs: seq<Request>)
    requires g.rate <= 0.0 && |s| == SHARDS
    ensures Decisions(g, s, rs) == KeptDecisions(g, m, rs)
    decreases |rs|
  {
    if rs != [] { OffDecisions(g, s, m, rs[1..]); }
  }

  // ---------- the bound ----------

  /** The cost admitted to `key`. */
  function Admitted(rs: seq<Request>, d: seq<bool>, key: nat): real
    requires |rs| == |d|
  {
    if rs == [] then 0.0 else
    (if d[0] && rs[0].key == key then rs[0].cost else 0.0) + Admitted(rs[1..], d[1..], key)
  }

  /** The tokens `key` could spend at `now`. */
  function Available(g: Limits, m: Buckets, key: nat, now: int): real {
    if key in m then Refilled(g, m[key], now) else g.burst
  }

  lemma AvailableGrows(g: Limits, m: Buckets, key: nat, t: int, now: int)
    requires Sane(g) && t <= now
    ensures Available(g, m, key, now) <= Available(g, m, key, t) + Gain(g, now - t)
    ensures Available(g, m, key, now) <= g.burst
  {
    hide Gain;
    GainLaws(g, now - t, 0);
    if key in m { GainLaws(g, t - m[key].last, now - t); }
  }

  lemma AvailableSpent(g: Limits, m: Buckets, r: Request, key: nat)
    requires Sane(g) && g.rate > 0.0 && r.cost >= 0.0
    ensures Available(g, Keep(g, m, r), key, r.now)
         == Available(g, m, key, r.now) - if Decision(g, m, r) && r.key == key then r.cost else 0.0
  {
    hide Gain;
    GainLaws(g, 0, 0);
    FreshIsFull(g, r.now);
  }

  lemma {:induction false} AdmittedBound(g: Limits, m: Buckets, rs: seq<Request>, key: nat, t: int, end: int)
    requires Sane(g) && g.rate > 0.0 && Ordered(rs, t) && t <= end && (rs != [] ==> rs[|rs| - 1].now <= end)
    requires Available(g, m, key, t) >= 0.0 && InRange(g, m, t)
    ensures Admitted(rs, KeptDecisions(g, m, rs), key) <= Available(g, m, key, t) + Gain(g, end - t)
    decreases |rs|
  {
    hide Gain, Available, Keep, Decision, InRange;
    if rs == [] {
      GainLaws(g, end - t, 0);
    } else {
      var r, m' := rs[0], Keep(g, m, rs[0]);
      OrderedLast(rs, t);
      AvailableGrows(g, m, key, t, r.now);
      AvailableSpent(g, m, r, key);
      KeepInRange(g, m, r, t);
      AvailableNonNeg(g, m', key, r.now);
      AdmittedBound(g, m', rs[1..], key, r.now, end);
      assert KeptDecisions(g, m, rs)[1..] == KeptDecisions(g, m', rs[1..]);
      GainLaws(g, r.now - t, end - r.now);
    }
  }

  lemma AvailableNonNeg(g: Limits, m: Buckets, key: nat, now: int)
    requires Sane(g) && InRange(g, m, now)
    ensures Available(g, m, key, now) >= 0.0
  {
    hide Gain;
    if key in m { GainLaws(g, now - m[key].last, 0); }
  }

  lemma {:induction false} SuffixDecisions(g: Limits, m: Buckets, rs: seq<Request>, i: nat)
    requires i <= |rs|
    ensures KeptDecisions(g, m, rs)[i..] == KeptDecisions(g, Kept(g, m, rs[..i]), rs[i..])
    decreases |rs|
  {
    hide Keep, Decision;
    if i > 0 {
      SuffixDecisions(g, Keep(g, m, rs[0]), rs[1..], i - 1);
      assert rs[..i][1..] == rs[1..][..i - 1] && rs[1..][i - 1..] == rs[i..];
      assert KeptDecisions(g, m, rs)[i..] == KeptDecisions(g, m, rs)[1..][i - 1..];
    } else {
      assert rs[..0] == [] && rs[0..] == rs;
    }
  }

  lemma {:induction false} PrefixDecisions(g: Limits, m: Buckets, rs: seq<Request>, j: nat)
    requires j <= |rs|
    ensures KeptDecisions(g, m, rs)[..j] == KeptDecisions(g, m, rs[..j])
    decreases |rs|
  {
    hide Keep, Decision;
    if j > 0 {
      PrefixDecisions(g, Keep(g, m, rs[0]), rs[1..], j - 1);
      assert rs[..j][1..] == rs[1..][..j - 1];
    }
  }

  lemma WindowSplit(g: Limits, m: Buckets, rs: seq<Request>, i: nat, j: nat)
    requires i <= j <= |rs|
    ensures KeptDecisions(g, m, rs)[i..j] == KeptDecisions(g, Kept(g, m, rs[..i]), rs[i..j])
  {
    hide KeptDecisions, Kept;
    SuffixDecisions(g, m, rs, i);
    PrefixDecisions(g, Kept(g, m, rs[..i]), rs[i..], j - i);
    assert rs[i..][..j - i] == rs[i..j];
    assert KeptDecisions(g, m, rs)[i..][..j - i] == KeptDecisions(g, m, rs)[i..j];
  }

  lemma {:induction false} OrderedWindow(rs: seq<Request>, from: int, i: nat, j: nat)
    requires Ordered(rs, from) && i < j <= |rs|
    ensures Ordered(rs[i..j], rs[i].now) && Ordered(rs[..i], from)
    ensures from <= rs[i].now && (i > 0 ==> rs[i - 1].now <= rs[i].now)
    decreases |rs|
  {
    if i > 0 {
      OrderedWindow(rs[1..], rs[0].now, i - 1, j - 1);
      assert rs[1..][i - 1..j - 1] == rs[i..j];
      assert rs[..i][1..] == rs[1..][..i - 1];
    } else {
      assert rs[..0] == [];
      OrderedPrefix(rs, from, j);
      assert rs[0..j] == rs[..j];
    }
  }

  lemma {:induction false} OrderedPrefix(rs: seq<Request>, from: int, j: nat)
    requires Ordered(rs, from) && 0 < j <= |rs|
    ensures Ordered(rs[..j], rs[0].now)
    decreases |rs|
  {
    if j > 1 {
      OrderedPrefix(rs[1..], rs[0].now, j - 1);
      assert rs[..j][1..] == rs[1..][..j - 1];
      OrderedFrom(rs[1..][..j - 1], rs[1].now, rs[0].now);
    } else {
      assert rs[..1][1..] == [];
    }
  }

  lemma OrderedFrom(rs: seq<Request>, from: int, earlier: int)
    requires Ordered(rs, from) && earlier <= from
    ensures Ordered(rs, earlier)
  {}

  /** The cost admitted to `key` in the window from request i to request j - 1 is within the limit. */
  ghost predicate WithinLimit(g: Limits, rs: seq<Request>, key: nat, i: nat, j: nat)
    requires i < j <= |rs|
  {
    Admitted(rs[i..j], Decisions(g, Fresh(), rs)[i..j], key) <= g.burst + Gain(g, rs[j - 1].now - rs[i].now)
  }

  /**
   The token-bucket bound: in every window of every run the cost admitted to a client is at
   most the burst plus the rate times the length of the window, across idle evictions.
   */
  lemma WindowBound(g: Limits, rs: seq<Request>, from: int, key: nat, i: nat, j: nat)
    requires Sane(g) && g.rate > 0.0 && RefillsWhenIdle(g) && Ordered(rs, from) && i < j <= |rs|
    ensures WithinLimit(g, rs, key, i, j)
  {
    hide Decisions, KeptDecisions, Gain, Available, RefillsWhenIdle, Admitted;
    SweepInvisible(g, rs, from);
    WindowSplit(g, map[], rs, i, j);
    OrderedWindow(rs, from, i, j);
    var m, w := Kept(g, map[], rs[..i]), rs[i..j];
    var t := rs[i].now;
    KeptInRange(g, map[], rs[..i], from, t);
    AvailableNonNeg(g, m, key, t);
    AvailableGrows(g, m, key, t, t);
    OrderedLast(w, t);
    AdmittedBound(g, m, w, key, t, rs[j - 1].now);
  }

  /** Past its first request, the flood admits the burst to key 0 once more, after the sweep. */
  lemma {:induction false} FloodAdmits(g: Limits, s: seq<Buckets>, i: nat)
    requires Sane(g) && g.rate > 0.0 && !RefillsWhenIdle(g) && 0 < i <= MAX_KEYS
    requires |s| == SHARDS && Drained(s[0], i)
    ensures Admitted(Flood(g, i, MAX_KEYS), Decisions(g, s, Flood(g, i, MAX_KEYS)), 0) == g.burst
    decreases MAX_KEYS - i
  {
    hide Drained, RefillsWhenIdle, Spent, Decision;
    var rs := Flood(g, i, MAX_KEYS);
    var r := rs[0];
    if i == MAX_KEYS {
      LastDiffers(g, s, s[0]);
    } else {
      assert r == Request(SHARDS * i, g.burst, 0) && rs[1..] == Flood(g, i + 1, MAX_KEYS);
      DrainedSize(s[0], i);
      assert r.key % SHARDS == 0 && r.key != 0;
      DrainStep(g, s[0], i);
      FloodAdmits(g, Next(g, s, r), i + 1);
      assert Decisions(g, s, rs)[1..] == Decisions(g, Next(g, s, r), rs[1..]);
    }
  }

  lemma {:induction false} FloodEnd(g: Limits, i: nat, n: nat)
    requires i <= n
    ensures var rs := Flood(g, i, n); |rs| == n - i + 1 && rs[|rs| - 1].now == 60_001 && (0 < n && i == 0 ==> rs[0].now == 0)
    decreases n - i
  {
    if i < n { FloodEnd(g, i + 1, n); }
  }

  /** The whole flood admits the burst to key 0 twice. */
  lemma FloodTotal(g: Limits)
    requires Sane(g) && g.rate > 0.0 && !RefillsWhenIdle(g)
    ensures Admitted(Flood(g, 0, MAX_KEYS), Decisions(g, Fresh(), Flood(g, 0, MAX_KEYS)), 0) == g.burst + g.burst
  {
    hide RefillsWhenIdle, Spent, Decision, Drained;
    var rs, m0: Buckets := Flood(g, 0, MAX_KEYS), map[];
    var r, s1 := rs[0], Next(g, Fresh(), rs[0]);
    assert rs[1..] == Flood(g, 1, MAX_KEYS) && r == Request(0, g.burst, 0);
    DrainNone(m0);
    DrainStep(g, m0, 0);
    assert ShardOf(Fresh(), r) == m0;
    FloodAdmits(g, s1, 1);
    var d := Decisions(g, Fresh(), rs);
    assert d[0] && d[1..] == Decisions(g, s1, rs[1..]);
  }

  lemma DrainNone(m: Buckets)
    requires m == map[]
    ensures Drained(m, 0)
  {}

  lemma FloodExceeds(g: Limits)
    requires Sane(g) && g.rate > 0.0 && !RefillsWhenIdle(g)
    ensures var rs := Flood(g, 0, MAX_KEYS);
            |rs| > 0 && Ordered(rs, 0) && !WithinLimit(g, rs, 0, 0, |rs|)
  {
    hide Decisions, Flood, Admitted, Ordered;
    var rs := Flood(g, 0, MAX_KEYS);
    FloodOrdered(g, 0, MAX_KEYS);
    FloodEnd(g, 0, MAX_KEYS);
    FloodTotal(g);
    var d := Decisions(g, Fresh(), rs);
    assert rs[0..|rs|] == rs && d[0..|rs|] == d;
    assert Gain(g, 60_001) == 60_001.0 / 1000.0 * g.rate;
    assert 60_001.0 / 1000.0 * g.rate * 1000.0 == 60_001.0 * g.rate;
  }

  /** The bound, too, holds for all runs, clients and windows exactly when an idle bucket refills. */
  lemma WindowBoundIff(g: Limits)
    requires Sane(g) && g.rate > 0.0
    ensures (forall rs: seq<Request>, from: int, key: nat, i: nat, j: nat ::
               Ordered(rs, from) && i < j <= |rs| ==> WithinLimit(g, rs, key, i, j))
            <==> RefillsWhenIdle(g)
  {
    hide WithinLimit, Ordered;
    if RefillsWhenIdle(g) {
      forall rs: seq<Request>, from: int, key: nat, i: nat, j: nat | Ordered(rs, from) && i < j <= |rs|
        ensures WithinLimit(g, rs, key, i, j)
      {
        WindowBound(g, rs, from, key, i, j);
      }
    } else {
      var rs := Flood(g, 0, MAX_KEYS);
      FloodExceeds(g);
      assert Ordered(rs, 0) && !WithinLimit(g, rs, 0, 0, |rs|);
    }
  }

  // ---------- who is admitted ----------

  lemma {:induction false} AfterPush(g: Limits, s: seq<Buckets>, rs: seq<Request>, i: nat)
    requires |s| == SHARDS && i < |rs|
    ensures After(g, s, rs[..i + 1]) == Next(g, After(g, s, rs[..i]), rs[i])
    ensures Decisions(g, s, rs)[i] == Decision(g, ShardOf(After(g, s, rs[..i]), rs[i]), rs[i])
    decreases i
  {
    hide Next, Decision;
    var s1 := Next(g, s, rs[0]);
    assert Decisions(g, s, rs) == [Decision(g, ShardOf(s, rs[0]), rs[0])] + Decisions(g, s1, rs[1..]);
    if i == 0 {
      assert rs[..1][1..] == [] && rs[..0] == [];
    } else {
      AfterPush(g, s1, rs[1..], i - 1);
      assert rs[..i + 1][1..] == rs[1..][..i] && rs[..i][1..] == rs[1..][..i - 1];
    }
  }

  /** The bucket of a client dates from one of its requests. */
  ghost predicate Dated(m: Buckets, rs: seq<Request>, i: nat, key: nat)
    requires i <= |rs|
  {
    key in m ==> exists j | 0 <= j < i :: rs[j].key == key && rs[j].now == m[key].last
  }

  lemma {:induction false} BucketDated(g: Limits, rs: seq<Request>, i: nat, key: nat)
    requires i <= |rs|
    ensures Dated(After(g, Fresh(), rs[..i])[key % SHARDS], rs, i, key)
  {
    if i == 0 {
      assert rs[..0] == [];
    } else {
      hide After, Spent;
      var s, r := After(g, Fresh(), rs[..i - 1]), rs[i - 1];
      AfterPush(g, Fresh(), rs, i - 1);
      BucketDated(g, rs, i - 1, key);
      var m, m' := s[key % SHARDS], Next(g, s, r)[key % SHARDS];
      SpentNow(g, ShardOf(s, r), r);
      if r.key != key && key in m' { assert key in m && m'[key] == m[key]; }
    }
  }

  lemma SpentNow(g: Limits, m: Buckets, r: Request)
    ensures Spent(g, m, r).last == r.now
  {}

  /**
   A client that has been quiet long enough to refill is admitted, in every run of the sweeping
   limiter: any cost up to the burst, if each of its earlier requests is at least burst / rate
   seconds ago.
   */
  lemma QuietClientAdmitted(g: Limits, rs: seq<Request>, from: int, i: nat)
    requires Sane(g) && g.rate > 0.0 && Ordered(rs, from) && i < |rs| && rs[i].cost <= g.burst
    requires forall j | 0 <= j < i && rs[j].key == rs[i].key :: (rs[i].now - rs[j].now) as real * g.rate >= g.burst * 1000.0
    ensures Decisions(g, Fresh(), rs)[i]
  {
    hide After, Decisions, Gain;
    var r, s := rs[i], After(g, Fresh(), rs[..i]);
    var m := s[r.key % SHARDS];
    AfterPush(g, Fresh(), rs, i);
    BucketDated(g, rs, i, r.key);
    OrderedWindow(rs, from, i, i + 1);
    TokensInRange(g, rs[..i], from, r.now);
    assert InRange(g, m, r.now);
    FreshIsFull(g, r.now);
    if r.key in ShardOf(s, r) {
      var j :| 0 <= j < i && rs[j].key == r.key && rs[j].now == m[r.key].last;
      GainEnough(g, r.now - m[r.key].last);
    }
  }

  lemma GainEnough(g: Limits, dt: int)
    requires dt as real * g.rate >= g.burst * 1000.0
    ensures Gain(g, dt) >= g.burst
  {
    assert dt as real / 1000.0 * g.rate * 1000.0 == dt as real * g.rate;
  }

  /** With the limiter off, every request is admitted. */
  lemma {:induction false} OffAdmits(g: Limits, s: seq<Buckets>, rs: seq<Request>)
    requires g.rate <= 0.0 && |s| == SHARDS
    ensures forall i | 0 <= i < |rs| :: Decisions(g, s, rs)[i]
    decreases |rs|
  {
    if rs != [] { OffAdmits(g, s, rs[1..]); }
  }

  // ---------- whole costs ----------

  predicate Whole(x: real) { x == x.Floor as real }

  /** The server charges one token, or one per url of a bulk request (src/app.cpp:416-421). */
  predicate WholeCosts(rs: seq<Request>) { forall r <- rs :: Whole(r.cost) }

  lemma {:induction false} FloodWhole(g: Limits, i: nat, n: nat)
    requires Whole(g.burst) && i <= n
    ensures WholeCosts(Flood(g, i, n))
    decreases n - i
  {
    if i < n { FloodWhole(g, i + 1, n); }
  }

  /** With a whole burst, both conditions are exact already for the runs of whole costs. */
  lemma WholeCostsIff(g: Limits)
    requires Sane(g) && g.rate > 0.0 && Whole(g.burst)
    ensures (forall rs: seq<Request>, from: int ::
               Ordered(rs, from) && WholeCosts(rs) ==> Decisions(g, Fresh(), rs) == KeptDecisions(g, map[], rs))
            <==> RefillsWhenIdle(g)
    ensures (forall rs: seq<Request>, from: int, key: nat, i: nat, j: nat ::
               Ordered(rs, from) && WholeCosts(rs) && i < j <= |rs| ==> WithinLimit(g, rs, key, i, j))
            <==> RefillsWhenIdle(g)
  {
    hide Decisions, KeptDecisions, WithinLimit, Ordered, WholeCosts;
    if RefillsWhenIdle(g) {
      SweepInvisibleIff(g);
      WindowBoundIff(g);
    } else {
      var rs := Flood(g, 0, MAX_KEYS);
      FloodWhole(g, 0, MAX_KEYS);
      FloodExceeds(g);
      FloodOrdered(g, 0, MAX_KEYS);
      FloodDiffers(g, Fresh(), map[], 0);
      assert Ordered(rs, 0) && WholeCosts(rs) && !WithinLimit(g, rs, 0, 0, |rs|);
      assert Decisions(g, Fresh(), rs) != KeptDecisions(g, map[], rs);
    }
  }
}
