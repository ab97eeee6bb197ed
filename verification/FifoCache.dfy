/**
 One shard of the read-through cache of src/store_rocks.cpp and
 src/store_kv.cpp (both files hold the same code): a map bounded by a queue of
 insertions, from which deleted keys are not removed.
 */
module FifoCache {
  import opened Text

  datatype CacheEntry = CacheEntry(url: string, expiry: int, at: int)

  datatype Shard = Shard(m: map<string, CacheEntry>, order: seq<string>)

  const EmptyShard := Shard(map[], [])

  predicate TooOld(e: CacheEntry, now: int, ttl: int) { ttl > 0 && now - e.at > ttl }

  predicate Expired(expiry: int, now: int) { expiry != 0 && expiry <= now }

  /** `cache_get`: what it returns, and the shard it leaves. */
  function Get(sh: Shard, code: string, now: int, ttl: int): Option<string> {
    if code in sh.m && !TooOld(sh.m[code], now, ttl) && !Expired(sh.m[code].expiry, now)
    then Some(sh.m[code].url) else None
  }

  function AfterGet(sh: Shard, code: string, now: int, ttl: int): Shard {
    if code in sh.m && TooOld(sh.m[code], now, ttl) then sh.(m := sh.m - {code}) else sh
  }

  /** The eviction loop of `cache_put`. */
  function Evict(sh: Shard, cap: nat): Shard
    decreases |sh.order|
  {
    if |sh.m| >= cap && sh.order != [] then Evict(Shard(sh.m - {sh.order[0]}, sh.order[1..]), cap) else sh
  }

  function Put(sh: Shard, cap: nat, code: string, e: CacheEntry): Shard {
    if code in sh.m then sh.(m := sh.m[code := e]) else
    var v := Evict(sh, cap);
    Shard(v.m[code := e], v.order + [code])
  }

  function Del(sh: Shard, code: string): Shard { sh.(m := sh.m - {code}) }

  /** Capacity per shard, cache TTL, number of shards, and the shard of a code. */
  datatype Config = Config(cap: nat, ttl: int, shards: nat, shard: string -> nat)

  ghost predicate ValidConfig(g: Config) { g.cap > 0 && forall c :: g.shard(c) < g.shards }

  class KvShard {
    var m: map<string, CacheEntry>
    var order: seq<string>

    constructor ()
      ensures Value() == EmptyShard
    {
      m, order := map[], [];
    }

    function Value(): Shard
      reads this
    {
      Shard(m, order)
    }

    method CacheGet(code: string, now: int, ttl: int) returns (u: Option<string>)
      modifies this
      ensures u == Get(old(Value()), code, now, ttl) && Value() == AfterGet(old(Value()), code, now, ttl)
      ensures u.Some? <==>
                && code in old(m) && (ttl <= 0 || now - old(m[code].at) <= ttl)
                && (old(m[code].expiry) == 0 || now < old(m[code].expiry))
      ensures u.Some? ==> u.value == old(m[code].url)
      ensures order == old(order) && m == if code in old(m) && ttl > 0 && now - old(m[code].at) > ttl then old(m) - {code} else old(m)
    {
      if code !in m { return None; }
      if ttl > 0 && now - m[code].at > ttl {
        m := m - {code};
        return None;
      }
      if m[code].expiry != 0 && m[code].expiry <= now { return None; }
      return Some(m[code].url);
    }

    method CachePut(cap: nat, code: string, u: string, e: int, now: int)
      modifies this
      ensures Value() == Put(old(Value()), cap, code, CacheEntry(u, e, now))
    {
      if code in m {
        m := m[code := CacheEntry(u, e, now)];
        return;
      }
      while |m| >= cap && order != []
        invariant Evict(Value(), cap) == Evict(old(Value()), cap)
        decreases |order|
      {
        m := m - {order[0]};
        order := order[1..];
      }
      order := order + [code];
      m := m[code := CacheEntry(u, e, now)];
    }

    method CacheDel(code: string)
      modifies this
      ensures Value() == Del(old(Value()), code)
    {
      m := m - {code};
    }
  }

  /** The values of the shards of one cache. */
  function Values(shards: seq<KvShard>): (vs: seq<Shard>)
    reads shards
    ensures |vs| == |shards| && forall i | 0 <= i < |shards| :: vs[i] == shards[i].Value()
  {
    if shards == [] then [] else [shards[0].Value()] + Values(shards[1..])
  }

  ghost predicate Distinct(shards: seq<KvShard>) {
    forall i, j | 0 <= i < j < |shards| :: shards[i] != shards[j]
  }

  // ---------- eviction only forgets ----------

  lemma {:induction false} EvictForgets(sh: Shard, cap: nat)
    ensures forall c <- Evict(sh, cap).m :: c in sh.m && Evict(sh, cap).m[c] == sh.m[c]
    decreases |sh.order|
  {
    if |sh.m| >= cap && sh.order != [] {
      EvictForgets(Shard(sh.m - {sh.order[0]}, sh.order[1..]), cap);
    }
  }

  /** Whatever `Put` leaves under another key was there before. */
  lemma PutOthers(sh: Shard, cap: nat, code: string, e: CacheEntry)
    ensures var p := Put(sh, cap, code, e);
            && code in p.m && p.m[code] == e
            && forall c <- p.m :: c != code ==> c in sh.m && p.m[c] == sh.m[c]
  {
    EvictForgets(sh, cap);
  }

  // ---------- the bound ----------

  datatype Step = CGet(code: string, now: int) | CPut(code: string, e: CacheEntry) | CDel(code: string)

  function Next(sh: Shard, cap: nat, ttl: int, s: Step): Shard {
    match s
    case CGet(code, now) => AfterGet(sh, code, now, ttl)
    case CPut(code, e) => Put(sh, cap, code, e)
    case CDel(code) => Del(sh, code)
  }

  function Run(cap: nat, ttl: int, steps: seq<Step>): Shard {
    if steps == [] then EmptyShard else Next(Run(cap, ttl, steps[..|steps| - 1]), cap, ttl, steps[|steps| - 1])
  }

  ghost predicate Bounded(sh: Shard, cap: nat) {
    |sh.m| <= cap && forall c <- sh.m :: c in sh.order
  }

  lemma {:induction false} EvictMakesRoom(sh: Shard, cap: nat)
    requires cap > 0 && forall c <- sh.m :: c in sh.order
    ensures var v := Evict(sh, cap); |v.m| < cap && forall c <- v.m :: c in v.order
    decreases |sh.order|
  {
    if sh.order == [] {
      assert sh.m.Keys == {};
      assert |sh.m| == |sh.m.Keys| == 0;
    } else if |sh.m| >= cap {
      var rest := Shard(sh.m - {sh.order[0]}, sh.order[1..]);
      forall c <- rest.m
        ensures c in rest.order
      {
        assert c in sh.order && c != sh.order[0];
      }
      EvictMakesRoom(rest, cap);
    }
  }

  lemma PutBounded(sh: Shard, cap: nat, code: string, e: CacheEntry)
    requires cap > 0 && Bounded(sh, cap)
    ensures Bounded(Put(sh, cap, code, e), cap)
  {
    hide Evict;
    if code in sh.m {
      assert sh.m[code := e].Keys == sh.m.Keys;
      assert |sh.m[code := e]| == |sh.m.Keys| == |sh.m|;
    } else {
      EvictMakesRoom(sh, cap);
      var v := Evict(sh, cap);
      assert v.m[code := e].Keys == v.m.Keys + {code};
      assert |v.m[code := e]| == |v.m.Keys + {code}| <= |v.m| + 1;
    }
  }

  lemma StepBounded(sh: Shard, cap: nat, ttl: int, s: Step)
    requires cap > 0 && Bounded(sh, cap)
    ensures Bounded(Next(sh, cap, ttl, s), cap)
    ensures s.CPut? ==> s.code in Next(sh, cap, ttl, s).m && Next(sh, cap, ttl, s).m[s.code] == s.e
  {
    hide Evict, Put;
    match s {
      case CGet(code, now) => ShrinkSize(sh.m, code);
      case CDel(code) => ShrinkSize(sh.m, code);
      case CPut(code, e) =>
        PutBounded(sh, cap, code, e);
        PutOthers(sh, cap, code, e);
    }
  }

  lemma ShrinkSize(m: map<string, CacheEntry>, code: string)
    ensures |m - {code}| <= |m|
  {
    assert (m - {code}).Keys == m.Keys - {code};
  }

  /**
   The cache never holds more than its capacity and every cached key is in the queue, over
   every sequence of gets, puts and deletes; a key just put is cached.
   */
  lemma {:induction false} CacheBounded(cap: nat, ttl: int, steps: seq<Step>)
    requires cap > 0
    ensures Bounded(Run(cap, ttl, steps), cap)
    ensures steps != [] && steps[|steps| - 1].CPut? ==> steps[|steps| - 1].code in Run(cap, ttl, steps).m
  {
    if steps != [] {
      hide Bounded, Next;
      CacheBounded(cap, ttl, steps[..|steps| - 1]);
      StepBounded(Run(cap, ttl, steps[..|steps| - 1]), cap, ttl, steps[|steps| - 1]);
    } else {
      assert Bounded(EmptyShard, cap);
    }
  }

  /** A key just put is served as long as neither its expiry nor the cache TTL has passed, and no longer. */
  lemma PutThenGet(sh: Shard, cap: nat, code: string, e: CacheEntry, now: int, ttl: int)
    ensures Get(Put(sh, cap, code, e), code, now, ttl)
         == if (e.expiry == 0 || now < e.expiry) && (ttl <= 0 || now - e.at <= ttl) then Some(e.url) else None
  {
    hide Put;
    PutOthers(sh, cap, code, e);
  }

  // ---------- first in, first out ----------

  /** No delete, and no get that drops an entry past the cache TTL. */
  predicate Quiet(sh: Shard, ttl: int, s: Step) {
    !s.CDel? && (s.CGet? ==> AfterGet(sh, s.code, s.now, ttl) == sh)
  }

  predicate QuietRun(cap: nat, ttl: int, steps: seq<Step>) {
    steps == [] ||
    (QuietRun(cap, ttl, steps[..|steps| - 1]) && Quiet(Run(cap, ttl, steps[..|steps| - 1]), ttl, steps[|steps| - 1]))
  }

  /** The codes inserted by a run, oldest first. */
  function Insertions(cap: nat, ttl: int, steps: seq<Step>): seq<string> {
    if steps == [] then [] else
    var s, before := steps[|steps| - 1], Insertions(cap, ttl, steps[..|steps| - 1]);
    if s.CPut? && s.code !in Run(cap, ttl, steps[..|steps| - 1]).m then before + [s.code] else before
  }

  function Newest(codes: seq<string>, cap: nat): seq<string> {
    if |codes| <= cap then codes else codes[|codes| - cap..]
  }

  ghost predicate Exact(sh: Shard) {
    && (forall c :: c in sh.order <==> c in sh.m)
    && (forall i, j | 0 <= i < j < |sh.order| :: sh.order[i] != sh.order[j])
  }

  lemma ExactSize(order: seq<string>, keys: set<string>)
    requires forall c :: c in order <==> c in keys
    requires forall i, j | 0 <= i < j < |order| :: order[i] != order[j]
    ensures |order| == |keys|
  {
    if order == [] {
      assert keys == {};
    } else {
      var k := |order| - 1;
      assert order[k] in order;
      forall c
        ensures c in order[..k] <==> c in keys - {order[k]}
      {
        assert c in order <==> c in order[..k] || c == order[k];
      }
      ExactSize(order[..k], keys - {order[k]});
    }
  }

  function WithoutOldest(sh: Shard): Shard
    requires sh.order != []
  {
    Shard(sh.m - {sh.order[0]}, sh.order[1..])
  }

  lemma DropExact(sh: Shard)
    requires Exact(sh) && sh.order != []
    ensures Exact(WithoutOldest(sh))
  {
    forall c
      ensures c in sh.order[1..] <==> c in sh.m && c != sh.order[0]
    {
      assert c in sh.order <==> c == sh.order[0] || c in sh.order[1..];
    }
  }

  lemma EvictOldest(sh: Shard, cap: nat)
    requires cap > 0 && Exact(sh) && |sh.order| <= cap
    ensures Evict(sh, cap) == if |sh.order| == cap then WithoutOldest(sh) else sh
  {
    RestSize(sh);
    assert |sh.m| == |sh.m.Keys|;
    if |sh.order| == cap {
      hide Exact;
      var rest := WithoutOldest(sh);
      assert rest.m.Keys == sh.m.Keys - {sh.order[0]};
      assert |rest.m| == |rest.m.Keys| < cap by { DropExact(sh); RestSize(rest); }
      assert Evict(rest, cap) == rest;
    }
  }

  lemma RestSize(sh: Shard)
    requires Exact(sh)
    ensures |sh.m.Keys| == |sh.order|
  {
    ExactSize(sh.order, sh.m.Keys);
  }

  lemma AppendExact(sh: Shard, code: string, e: CacheEntry)
    requires Exact(sh) && code !in sh.m
    ensures Exact(Shard(sh.m[code := e], sh.order + [code]))
  {}

  /** On an exact shard, `Put` of a new key into a full cache drops exactly the oldest key. */
  lemma PutOldest(sh: Shard, cap: nat, code: string, e: CacheEntry)
    requires cap > 0 && Exact(sh) && |sh.order| <= cap && code !in sh.m
    ensures var p := Put(sh, cap, code, e);
            Exact(p) && p.order == (if |sh.order| == cap then sh.order[1..] else sh.order) + [code]
  {
    hide Evict;
    EvictOldest(sh, cap);
    if |sh.order| == cap { DropExact(sh); }
    var v := Evict(sh, cap);
    AppendExact(v, code, e);
  }

  lemma NewestPush(codes: seq<string>, code: string, cap: nat)
    requires cap > 0
    ensures var n := Newest(codes, cap);
            |n| <= cap && Newest(codes + [code], cap) == (if |n| == cap then n[1..] else n) + [code]
  {}

  lemma QuietStep(sh: Shard, cap: nat, ttl: int, s: Step)
    requires Exact(sh) && Quiet(sh, ttl, s) && (s.CPut? ==> s.code in sh.m)
    ensures Exact(Next(sh, cap, ttl, s)) && Next(sh, cap, ttl, s).order == sh.order
  {}

  /** Without deletes and TTL drops, the cache holds exactly the last `cap` insertions, in order. */
  lemma {:induction false} FirstInFirstOut(cap: nat, ttl: int, steps: seq<Step>)
    requires cap > 0 && QuietRun(cap, ttl, steps)
    ensures Exact(Run(cap, ttl, steps))
    ensures Run(cap, ttl, steps).order == Newest(Insertions(cap, ttl, steps), cap)
  {
    if steps != [] {
      hide Exact, Put, Newest, Quiet;
      var s, head := steps[|steps| - 1], steps[..|steps| - 1];
      FirstInFirstOut(cap, ttl, head);
      var sh := Run(cap, ttl, head);
      if s.CPut? && s.code !in sh.m {
        NewestPush(Insertions(cap, ttl, head), s.code, cap);
        PutOldest(sh, cap, s.code, s.e);
      } else {
        QuietStep(sh, cap, ttl, s);
      }
    }
  }
}
