/**
 The RocksDB-backed store of src/store_rocks.cpp: the database is a map from
 code to encoded value, read through the sharded cache.  The shard function is
 an arbitrary fixed function.
 */
module Rocks {
  import opened Common
  import opened Text
  import opened ValueCodec
  import opened FifoCache

  datatype State = State(db: map<string, string>, cache: seq<Shard>)

  ghost predicate Shaped(g: Config, s: State) { ValidConfig(g) && |s.cache| == g.shards }

  // ---------- specification of each operation ----------

  /** What a direct read of the database gives. */
  function Direct(db: map<string, string>, code: string, now: int): Option<string> {
    if code !in db then None else
    match Dec(db[code])
    case None => None
    case Some(v) => if Expired(v.expiry, now) then None else Some(v.url)
  }

  function InShard(g: Config, s: State, code: string): Shard
    requires Shaped(g, s)
  {
    s.cache[g.shard(code)]
  }

  function WithShard(g: Config, s: State, code: string, sh: Shard): (s': State)
    requires Shaped(g, s)
    ensures Shaped(g, s') && s'.db == s.db
  {
    s.(cache := s.cache[g.shard(code) := sh])
  }

  function Cached(g: Config, s: State, code: string, u: string, e: int, now: int): (s': State)
    requires Shaped(g, s)
    ensures Shaped(g, s') && s'.db == s.db
  {
    WithShard(g, s, code, Put(InShard(g, s, code), g.cap, code, CacheEntry(u, e, now)))
  }

  function Uncached(g: Config, s: State, code: string): (s': State)
    requires Shaped(g, s)
    ensures Shaped(g, s') && s'.db == s.db
  {
    WithShard(g, s, code, Del(InShard(g, s, code), code))
  }

  function Resolved(g: Config, s: State, code: string, now: int): (r: (State, Option<string>))
    requires Shaped(g, s)
    ensures Shaped(g, r.0) && r.0.db == s.db
  {
    var u := Get(InShard(g, s, code), code, now, g.ttl);
    var s1 := WithShard(g, s, code, AfterGet(InShard(g, s, code), code, now, g.ttl));
    if u.Some? then (s1, u) else
    var d := Direct(s.db, code, now);
    if d.None? then (s1, None)
    else (Cached(g, s1, code, d.value, Dec(s.db[code]).value.expiry, now), d)
  }

  function Created(g: Config, s: State, code: string, url: string, now: int, exp: int): (s': State)
    requires Shaped(g, s)
    ensures Shaped(g, s')
  {
    Cached(g, s.(db := s.db[code := Enc(exp, now, url)]), code, url, exp, now)
  }

  /** The write batch of `shorten_many`: a pick already in the database `db0` is left for a retry. */
  function Batch(db: map<string, string>, db0: map<string, string>, picks: seq<string>, urls: seq<string>,
                 now: int, exp: int): map<string, string>
    requires |picks| == |urls|
    decreases |picks|
  {
    if picks == [] then db else
    Batch(if picks[0] in db0 then db else db[picks[0] := Enc(exp, now, urls[0])], db0, picks[1..], urls[1..], now, exp)
  }

  /** After the batch each url is cached, or shortened again under its retry code. */
  function CachePass(g: Config, s: State, db0: map<string, string>, picks: seq<string>, retries: seq<string>,
                     urls: seq<string>, now: int, exp: int): (s': State)
    requires Shaped(g, s) && |picks| == |urls| == |retries|
    ensures Shaped(g, s')
    decreases |picks|
  {
    if picks == [] then s else
    CachePass(g, if picks[0] in db0 then Created(g, s, retries[0], urls[0], now, exp)
                 else Cached(g, s, picks[0], urls[0], exp, now),
              db0, picks[1..], retries[1..], urls[1..], now, exp)
  }

  function CreatedMany(g: Config, s: State, picks: seq<string>, retries: seq<string>, urls: seq<string>,
                       now: int, exp: int): (s': State)
    requires Shaped(g, s) && |picks| == |urls| == |retries|
    ensures Shaped(g, s')
  {
    CachePass(g, s.(db := Batch(s.db, s.db, picks, urls, now, exp)), s.db, picks, retries, urls, now, exp)
  }

  function Access(s: State, code: string): MutResult {
    if code in s.db && Dec(s.db[code]).Some? then Ok else Missing
  }

  function Updated(g: Config, s: State, code: string, url: string, ttl: Option<int>, now: int): (s': State)
    requires Shaped(g, s) && Access(s, code) == Ok
    ensures Shaped(g, s')
  {
    var v := Dec(s.db[code]).value;
    var exp := if ttl.None? then v.expiry else ExpiryFor(now, ttl.value);
    Uncached(g, s.(db := s.db[code := Enc(exp, v.created, url)]), code)
  }

  function Removed(g: Config, s: State, code: string): (s': State)
    requires Shaped(g, s)
    ensures Shaped(g, s')
  {
    Uncached(g, s.(db := s.db - {code}), code)
  }

  /** The decision of the compaction filter. */
  predicate FilterDrops(v: string, now: int) {
    Dec(v).Some? && Expired(Dec(v).value.expiry, now)
  }

  /** The first loop of `shorten_many`: colliding picks get an empty code. */
  method FillBatch(db: map<string, string>, picks: seq<string>, urls: seq<string>, now: int, exp: int)
    returns (batch: map<string, string>, codes: seq<string>)
    requires |picks| == |urls|
    ensures batch == Batch(db, db, picks, urls, now, exp)
    ensures |codes| == |urls| && forall k | 0 <= k < |urls| :: codes[k] == if picks[k] in db then "" else picks[k]
  {
    hide Enc;
    batch, codes := db, [];
    assert picks[0..] == picks && urls[0..] == urls;
    for k := 0 to |urls|
      invariant |codes| == k && forall j | 0 <= j < k :: codes[j] == if picks[j] in db then "" else picks[j]
      invariant Batch(batch, db, picks[k..], urls[k..], now, exp) == Batch(db, db, picks, urls, now, exp)
    {
      assert picks[k..][1..] == picks[k + 1..] && urls[k..][1..] == urls[k + 1..];
      if picks[k] in db {
        codes := codes + [""];
      } else {
        codes := codes + [picks[k]];
        batch := batch[picks[k] := Enc(exp, now, urls[k])];
      }
    }
  }

  // ---------- the store ----------

  class RocksInner {
    const g: Config
    const cache: seq<KvShard>
    var db: map<string, string>

    ghost predicate Valid()
    {
      ValidConfig(g) && |cache| == g.shards && Distinct(cache)
    }

    function Value(): State
      reads this, cache
    {
      State(db, Values(cache))
    }

    constructor (g: Config)
      requires ValidConfig(g)
      ensures this.g == g && Valid() && fresh(cache)
      ensures db == map[] && forall i | 0 <= i < |cache| :: cache[i].Value() == EmptyShard
    {
      var shards: seq<KvShard> := [];
      for k := 0 to g.shards
        invariant |shards| == k && Distinct(shards) && fresh(shards)
        invariant forall i | 0 <= i < k :: shards[i].Value() == EmptyShard
      {
        var sh := new KvShard();
        shards := shards + [sh];
      }
      this.g, cache, db := g, shards, map[];
    }

    method CacheGet(code: string, now: int) returns (u: Option<string>)
      requires Valid()
      modifies cache
      ensures var sh := InShard(g, old(Value()), code);
              u == Get(sh, code, now, g.ttl) && Value() == WithShard(g, old(Value()), code, AfterGet(sh, code, now, g.ttl))
    {
      u := cache[g.shard(code)].CacheGet(code, now, g.ttl);
    }

    method CachePut(code: string, u: string, e: int, now: int)
      requires Valid()
      modifies cache
      ensures Value() == Cached(g, old(Value()), code, u, e, now)
    {
      cache[g.shard(code)].CachePut(g.cap, code, u, e, now);
    }

    method CacheDel(code: string)
      requires Valid()
      modifies cache
      ensures Value() == Uncached(g, old(Value()), code)
    {
      cache[g.shard(code)].CacheDel(code);
    }

    method Resolve(code: string, now: int) returns (u: Option<string>)
      requires Valid()
      modifies cache
      ensures (Value(), u) == Resolved(g, old(Value()), code, now)
    {
      u := CacheGet(code, now);
      if u.Some? { return; }
      if code !in db { return; }
      var v := Dec(db[code]);
      if v.None? || Expired(v.value.expiry, now) { return; }
      CachePut(code, v.value.url, v.value.expiry, now);
      u := Some(v.value.url);
    }

    /** Writes a new link and caches it. */
    method Insert(code: string, url: string, exp: int, now: int)
      requires Valid()
      modifies this`db, cache
      ensures Value() == Created(g, old(Value()), code, url, now, exp)
    {
      hide Put, Enc;
      db := db[code := Enc(exp, now, url)];
      CachePut(code, url, exp, now);
    }

    /** `pick` is the generated code the retry loop ends with. */
    method Shorten(url: string, alias: Option<string>, pick: string, ttl: int, now: int) returns (r: Option<string>)
      requires Valid() && pick !in db
      modifies this`db, cache
      ensures var code := if alias.Some? then alias.value else pick;
              if code in old(db) then r == None && Value() == old(Value())
              else r == Some(code) && Value() == Created(g, old(Value()), code, url, now, if ttl > 0 then now + ttl else 0)
    {
      var exp := ExpiryFor(now, ttl);
      var code := pick;
      if alias.Some? {
        code := alias.value;
        if code in db { return None; }
      }
      Insert(code, url, exp, now);
      r := Some(code);
    }

    /** `picks` are the codes first generated; `retries` those the retries of colliding ones end with. */
    method ShortenMany(urls: seq<string>, picks: seq<string>, retries: seq<string>, ttl: int, now: int)
      returns (codes: seq<string>)
      requires Valid() && |picks| == |urls| == |retries|
      requires forall c <- picks :: c != ""
      modifies this`db, cache
      ensures Value() == CreatedMany(g, old(Value()), picks, retries, urls, now, if ttl > 0 then now + ttl else 0)
      ensures |codes| == |urls| && forall k | 0 <= k < |urls| :: codes[k] == if picks[k] in old(db) then retries[k] else picks[k]
    {
      hide Put, Enc, Cached, Created, Batch, Values;
      var exp := ExpiryFor(now, ttl);
      var batch;
      batch, codes := FillBatch(db, picks, urls, now, exp);
      db := batch;
      assert picks[0..] == picks && urls[0..] == urls && retries[0..] == retries;
      for k := 0 to |urls|
        invariant |codes| == |urls|
        invariant forall j | 0 <= j < k :: codes[j] == if picks[j] in old(db) then retries[j] else picks[j]
        invariant forall j | k <= j < |urls| :: codes[j] == if picks[j] in old(db) then "" else picks[j]
        invariant CachePass(g, Value(), old(db), picks[k..], retries[k..], urls[k..], now, exp)
               == CreatedMany(g, old(Value()), picks, retries, urls, now, exp)
      {
        assert picks[k..][1..] == picks[k + 1..] && urls[k..][1..] == urls[k + 1..] && retries[k..][1..] == retries[k + 1..];
        assert picks[k] in picks;
        if codes[k] == "" {
          Insert(retries[k], urls[k], exp, now);
          codes := codes[k := retries[k]];
        } else {
          CachePut(codes[k], urls[k], exp, now);
        }
      }
    }

    method Update(code: string, url: string, ttl: Option<int>, now: int) returns (r: MutResult)
      requires Valid()
      modifies this`db, cache
      ensures r == Access(old(Value()), code)
      ensures r == if code in old(db) && Dec(old(db[code])).Some? then Ok else Missing
      ensures Value() == if r == Ok then Updated(g, old(Value()), code, url, ttl, now) else old(Value())
    {
      if code !in db { return Missing; }
      var v := Dec(db[code]);
      if v.None? { return Missing; }
      var exp := if ttl.None? then v.value.expiry else ExpiryFor(now, ttl.value);
      db := db[code := Enc(exp, v.value.created, url)];
      CacheDel(code);
      r := Ok;
    }

    method Remove(code: string) returns (r: MutResult)
      requires Valid()
      modifies this`db, cache
      ensures r == (if code in old(db) then Ok else Missing)
      ensures Value() == if r == Ok then Removed(g, old(Value()), code) else old(Value())
    {
      if code !in db { return Missing; }
      db := db - {code};
      CacheDel(code);
      r := Ok;
    }
  }

  // ---------- the cache agrees with the database ----------

  /** A cached entry carries what the database holds, or has expired. */
  ghost predicate Backed(db: map<string, string>, now: int, c: string, e: CacheEntry) {
    || Expired(e.expiry, now)
    || (c in db && Dec(db[c]).Some? && Dec(db[c]).value.expiry == e.expiry && Dec(db[c]).value.url == e.url)
  }

  /** Every entry a read could meet is backed, except those of codes in `stale`. */
  ghost predicate Coherent(g: Config, s: State, now: int, stale: set<string>)
    requires Shaped(g, s)
  {
    forall c :: c in InShard(g, s, c).m && c !in stale ==> Backed(s.db, now, c, InShard(g, s, c).m[c])
  }

  /** Cache transparency of one read, and it keeps the cache coherent. */
  lemma ResolveTransparent(g: Config, s: State, code: string, now: int)
    requires Shaped(g, s) && Coherent(g, s, now, {})
    ensures Resolved(g, s, code, now).1 == Direct(s.db, code, now)
    ensures Coherent(g, Resolved(g, s, code, now).0, now, {})
  {
    hide Put, Dec;
    var sh := InShard(g, s, code);
    var s1 := WithShard(g, s, code, AfterGet(sh, code, now, g.ttl));
    forall c
      ensures c in InShard(g, s1, c).m ==> c in InShard(g, s, c).m && InShard(g, s1, c).m[c] == InShard(g, s, c).m[c]
    {}
    var d := Direct(s.db, code, now);
    if d.Some? {
      CacheCoherent(g, s1, code, d.value, Dec(s.db[code]).value.expiry, now, {}, {});
    }
  }

  /** Caching a backed entry keeps coherence; the code itself need no longer be stale. */
  lemma CacheCoherent(g: Config, s: State, code: string, u: string, e: int, now: int, stale: set<string>, stale': set<string>)
    requires Shaped(g, s) && Coherent(g, s, now, stale)
    requires stale - {code} <= stale' && (code !in stale' ==> Backed(s.db, now, code, CacheEntry(u, e, now)))
    ensures Coherent(g, Cached(g, s, code, u, e, now), now, stale')
  {
    hide Put;
    var s', en := Cached(g, s, code, u, e, now), CacheEntry(u, e, now);
    PutOthers(InShard(g, s, code), g.cap, code, en);
    forall c | c in InShard(g, s', c).m && c !in stale'
      ensures Backed(s'.db, now, c, InShard(g, s', c).m[c])
    {
      if c != code {
        assert c in InShard(g, s, c).m && InShard(g, s', c).m[c] == InShard(g, s, c).m[c];
      }
    }
  }

  /** A new code: any entry still cached for it has expired. */
  lemma PutDb(g: Config, s: State, code: string, v: string, now: int, stale: set<string>)
    requires Shaped(g, s) && Coherent(g, s, now, stale) && code !in s.db
    ensures Coherent(g, s.(db := s.db[code := v]), now, stale)
  {
    var s' := s.(db := s.db[code := v]);
    forall c | c in InShard(g, s', c).m && c !in stale
      ensures Backed(s'.db, now, c, InShard(g, s', c).m[c])
    {
      assert Backed(s.db, now, c, InShard(g, s, c).m[c]);
    }
  }

  lemma CreateCoherent(g: Config, s: State, code: string, url: string, now: int, exp: int, stale: set<string>)
    requires Shaped(g, s) && Coherent(g, s, now, stale) && code !in s.db && code !in stale && Int64(now) && Int64(exp)
    ensures Coherent(g, Created(g, s, code, url, now, exp), now, stale)
  {
    hide Put, Enc, Dec, Cached, Coherent;
    DecEnc(exp, now, url);
    PutDb(g, s, code, Enc(exp, now, url), now, stale);
    CacheCoherent(g, s.(db := s.db[code := Enc(exp, now, url)]), code, url, exp, now, stale, stale);
  }

  // ---------- the bulk operation ----------

  /** The url of the last occurrence of `c` in the batch. */
  function LastUrl(picks: seq<string>, urls: seq<string>, c: string): string
    requires |picks| == |urls| && c in picks
  {
    if c in picks[1..] then LastUrl(picks[1..], urls[1..], c) else urls[0]
  }

  lemma {:induction false} BatchWrites(db: map<string, string>, db0: map<string, string>, picks: seq<string>, urls: seq<string>,
                                       now: int, exp: int, c: string)
    requires |picks| == |urls|
    ensures var db1 := Batch(db, db0, picks, urls, now, exp);
            if c in picks && c !in db0 then c in db1 && db1[c] == Enc(exp, now, LastUrl(picks, urls, c))
            else (c in db1 <==> c in db) && (c in db ==> db1[c] == db[c])
    decreases |picks|
  {
    hide Enc;
    if picks != [] {
      BatchWrites(if picks[0] in db0 then db else db[picks[0] := Enc(exp, now, urls[0])], db0, picks[1..], urls[1..], now, exp, c);
      assert picks == [picks[0]] + picks[1..];
    }
  }

  /** Retry codes are in neither the database after the batch nor among later retries. */
  ghost predicate FreshRetries(db: map<string, string>, db0: map<string, string>, picks: seq<string>, retries: seq<string>) {
    && |picks| == |retries|
    && (forall k | 0 <= k < |picks| && picks[k] in db0 :: retries[k] !in db)
    && (forall j, k | 0 <= j < k < |picks| && picks[j] in db0 && picks[k] in db0 :: retries[j] != retries[k])
  }

  ghost function Unsettled(db0: map<string, string>, picks: seq<string>): set<string> { set c | c in picks && c !in db0 }

  /** Every code of the batch holds its last url. */
  ghost predicate Settled(db: map<string, string>, db0: map<string, string>, picks: seq<string>, urls: seq<string>, now: int, exp: int)
    requires |picks| == |urls|
  {
    forall c :: c in picks && c !in db0 ==> c in db && db[c] == Enc(exp, now, LastUrl(picks, urls, c))
  }

  lemma BatchCoherent(g: Config, s: State, picks: seq<string>, urls: seq<string>, now: int, exp: int)
    requires Shaped(g, s) && Coherent(g, s, now, {}) && |picks| == |urls|
    ensures var db1 := Batch(s.db, s.db, picks, urls, now, exp);
            && Coherent(g, s.(db := db1), now, Unsettled(s.db, picks))
            && Settled(db1, s.db, picks, urls, now, exp)
  {
    hide Batch, Enc, Dec;
    var s' := s.(db := Batch(s.db, s.db, picks, urls, now, exp));
    forall c
      ensures c in picks && c !in s.db ==> c in s'.db && s'.db[c] == Enc(exp, now, LastUrl(picks, urls, c))
      ensures c in InShard(g, s', c).m && c !in Unsettled(s.db, picks) ==> Backed(s'.db, now, c, InShard(g, s', c).m[c])
    {
      BatchWrites(s.db, s.db, picks, urls, now, exp, c);
      if c in InShard(g, s, c).m { assert Backed(s.db, now, c, InShard(g, s, c).m[c]); }
    }
  }

  /**
   A code generated twice in one batch is cached with its first url while the database
   already holds its second; it is settled when its last occurrence is cached.
   */
  lemma {:induction false} PassCoherent(g: Config, s: State, db0: map<string, string>, picks: seq<string>, retries: seq<string>,
                                        urls: seq<string>, now: int, exp: int)
    requires Shaped(g, s) && |picks| == |urls| == |retries| && Int64(now) && Int64(exp)
    requires Coherent(g, s, now, Unsettled(db0, picks)) && Settled(s.db, db0, picks, urls, now, exp)
    requires FreshRetries(s.db, db0, picks, retries)
    ensures Coherent(g, CachePass(g, s, db0, picks, retries, urls, now, exp), now, {})
    decreases |picks|
  {
    if picks == [] {
      assert Unsettled(db0, picks) == {};
    } else {
      hide Shaped, Coherent, Settled, FreshRetries, Unsettled, Cached, Created;
      if picks[0] in db0 {
        RetryStep(g, s, db0, picks, retries, urls, now, exp);
        PassCoherent(g, Created(g, s, retries[0], urls[0], now, exp), db0, picks[1..], retries[1..], urls[1..], now, exp);
      } else {
        CacheStep(g, s, db0, picks, retries, urls, now, exp);
        PassCoherent(g, Cached(g, s, picks[0], urls[0], exp, now), db0, picks[1..], retries[1..], urls[1..], now, exp);
      }
    }
  }

  lemma RetryStep(g: Config, s: State, db0: map<string, string>, picks: seq<string>, retries: seq<string>,
                  urls: seq<string>, now: int, exp: int)
    requires Shaped(g, s) && |picks| == |urls| == |retries| && picks != [] && picks[0] in db0 && Int64(now) && Int64(exp)
    requires Coherent(g, s, now, Unsettled(db0, picks)) && Settled(s.db, db0, picks, urls, now, exp)
    requires FreshRetries(s.db, db0, picks, retries)
    ensures var s' := Created(g, s, retries[0], urls[0], now, exp);
            && Coherent(g, s', now, Unsettled(db0, picks[1..]))
            && Settled(s'.db, db0, picks[1..], urls[1..], now, exp)
            && FreshRetries(s'.db, db0, picks[1..], retries[1..])
  {
    hide Enc, Put, Coherent;
    assert picks == [picks[0]] + picks[1..];
    assert Unsettled(db0, picks[1..]) == Unsettled(db0, picks);
    CreateCoherent(g, s, retries[0], urls[0], now, exp, Unsettled(db0, picks));
  }

  lemma CacheStep(g: Config, s: State, db0: map<string, string>, picks: seq<string>, retries: seq<string>,
                  urls: seq<string>, now: int, exp: int)
    requires Shaped(g, s) && |picks| == |urls| == |retries| && picks != [] && picks[0] !in db0 && Int64(now) && Int64(exp)
    requires Coherent(g, s, now, Unsettled(db0, picks)) && Settled(s.db, db0, picks, urls, now, exp)
    requires FreshRetries(s.db, db0, picks, retries)
    ensures var s' := Cached(g, s, picks[0], urls[0], exp, now);
            && Coherent(g, s', now, Unsettled(db0, picks[1..]))
            && Settled(s'.db, db0, picks[1..], urls[1..], now, exp)
            && FreshRetries(s'.db, db0, picks[1..], retries[1..])
  {
    hide Enc, Dec, Put, Coherent, WithShard;
    assert picks == [picks[0]] + picks[1..];
    assert Unsettled(db0, picks) - {picks[0]} <= Unsettled(db0, picks[1..]);
    if picks[0] !in picks[1..] { DecEnc(exp, now, urls[0]); }
    CacheCoherent(g, s, picks[0], urls[0], exp, now, Unsettled(db0, picks), Unsettled(db0, picks[1..]));
  }

  lemma CreatedManyCoherent(g: Config, s: State, picks: seq<string>, retries: seq<string>, urls: seq<string>, now: int, exp: int)
    requires Shaped(g, s) && |picks| == |urls| == |retries| && Int64(now) && Int64(exp)
    requires Coherent(g, s, now, {}) && FreshRetries(Batch(s.db, s.db, picks, urls, now, exp), s.db, picks, retries)
    ensures Coherent(g, CreatedMany(g, s, picks, retries, urls, now, exp), now, {})
  {
    hide Batch, CachePass, Coherent, Settled, FreshRetries, Unsettled;
    BatchCoherent(g, s, picks, urls, now, exp);
    PassCoherent(g, s.(db := Batch(s.db, s.db, picks, urls, now, exp)), s.db, picks, retries, urls, now, exp);
  }

  // ---------- the remaining steps ----------

  lemma UncacheCoherent(g: Config, s: State, s': State, code: string, now: int)
    requires Shaped(g, s) && Coherent(g, s, now, {}) && Shaped(g, s')
    requires s'.cache == Uncached(g, s, code).cache
    requires forall c | c != code :: (c in s'.db <==> c in s.db) && (c in s.db ==> s'.db[c] == s.db[c])
    ensures Coherent(g, s', now, {})
  {
    hide Dec;
    forall c | c in InShard(g, s', c).m
      ensures Backed(s'.db, now, c, InShard(g, s', c).m[c])
    {
      assert c != code && c in InShard(g, s, c).m && InShard(g, s', c).m[c] == InShard(g, s, c).m[c];
      assert Backed(s.db, now, c, InShard(g, s, c).m[c]);
    }
  }

  /** The filter condemns exactly the values past their expiry. */
  lemma FilterIff(expiry: int, created: int, url: string, now: int)
    requires Int64(expiry) && Int64(created)
    ensures FilterDrops(Enc(expiry, created, url), now) <==> expiry != 0 && expiry <= now
  {
    hide Enc, Dec;
    DecEnc(expiry, created, url);
  }

  /** RocksDB compaction may drop any keys the filter condemns: no read changes, now or later, and the cache stays coherent. */
  lemma FilterCoherent(g: Config, s: State, dropped: set<string>, now: int)
    requires Shaped(g, s) && Coherent(g, s, now, {}) && forall c <- dropped :: c in s.db && FilterDrops(s.db[c], now)
    ensures forall c, later | now <= later :: Direct(s.db - dropped, c, later) == Direct(s.db, c, later)
    ensures Coherent(g, s.(db := s.db - dropped), now, {})
  {
    hide Dec;
    var s' := s.(db := s.db - dropped);
    forall c | c in InShard(g, s', c).m
      ensures Backed(s'.db, now, c, InShard(g, s', c).m[c])
    {
      assert Backed(s.db, now, c, InShard(g, s, c).m[c]);
    }
  }

  lemma ClockCoherent(g: Config, s: State, now: int, later: int)
    requires Shaped(g, s) && Coherent(g, s, now, {}) && now <= later
    ensures Coherent(g, s, later, {})
  {
    hide Dec;
    forall c | c in InShard(g, s, c).m
      ensures Backed(s.db, later, c, InShard(g, s, c).m[c])
    {
      assert Backed(s.db, now, c, InShard(g, s, c).m[c]);
    }
  }

  // ---------- what the operations mean to a reader ----------

  /** A created, updated or removed code reads back as such, and no other code changes. */
  lemma ReadBack(g: Config, s: State, code: string, url: string, now: int, exp: int, later: int, other: string)
    requires Shaped(g, s) && Int64(now) && Int64(exp) && other != code
    ensures var db := Created(g, s, code, url, now, exp).db;
            && Direct(db, code, later) == (if exp == 0 || later < exp then Some(url) else None)
            && Direct(db, other, later) == Direct(s.db, other, later)
    ensures var db := Removed(g, s, code).db;
            Direct(db, code, later) == None && Direct(db, other, later) == Direct(s.db, other, later)
  {
    hide Enc, Dec, Put;
    DecEnc(exp, now, url);
  }

  /** An update changes the url, keeps the creation time, and keeps the expiry unless one is given. */
  lemma UpdateReadBack(g: Config, s: State, code: string, url: string, ttl: Option<int>, now: int, later: int, other: string)
    requires Shaped(g, s) && Access(s, code) == Ok && other != code
    requires ttl.Some? && ttl.value > 0 ==> Int64(now + ttl.value)
    ensures var s' := Updated(g, s, code, url, ttl, now);
            var v := Dec(s.db[code]).value;
            var exp := if ttl.None? then v.expiry else if ttl.value > 0 then now + ttl.value else 0;
            && Dec(s'.db[code]) == Some(Value(exp, v.created, url))
            && Direct(s'.db, code, later) == (if exp == 0 || later < exp then Some(url) else None)
            && Direct(s'.db, other, later) == Direct(s.db, other, later)
  {
    hide Enc, Put, DecFields;
    var v := Dec(s.db[code]).value;
    DecInt64(s.db[code]);
    DecEnc(if ttl.None? then v.expiry else if ttl.value > 0 then now + ttl.value else 0, v.created, url);
  }

  // ---------- whole runs ----------

  datatype World = World(s: State, now: int)

  datatype Step =
    | Resolve(code: string)
    | Shorten(code: string, url: string, exp: int)
    | ShortenMany(picks: seq<string>, retries: seq<string>, urls: seq<string>, exp: int)
    | Update(code: string, url: string, ttl: Option<int>)
    | Remove(code: string)
    | Compaction(dropped: set<string>)
    | Clock(later: int)

  ghost predicate Enabled(w: World, step: Step) {
    match step
    case Resolve(_) => true
    case Shorten(code, _, exp) => code !in w.s.db && Int64(w.now) && Int64(exp)
    case ShortenMany(picks, retries, urls, exp) =>
      && |picks| == |urls| == |retries| && Int64(w.now) && Int64(exp)
      && FreshRetries(Batch(w.s.db, w.s.db, picks, urls, w.now, exp), w.s.db, picks, retries)
    case Update(code, _, _) => Access(w.s, code) == Ok
    case Remove(code) => code in w.s.db
    case Compaction(dropped) => forall c <- dropped :: c in w.s.db && FilterDrops(w.s.db[c], w.now)
    case Clock(later) => w.now <= later
  }

  ghost function Next(g: Config, w: World, step: Step): (w': World)
    requires Shaped(g, w.s)
    ensures Shaped(g, w'.s)
  {
    if !Enabled(w, step) then w else
    match step
    case Resolve(code) => w.(s := Resolved(g, w.s, code, w.now).0)
    case Shorten(code, url, exp) => w.(s := Created(g, w.s, code, url, w.now, exp))
    case ShortenMany(picks, retries, urls, exp) => w.(s := CreatedMany(g, w.s, picks, retries, urls, w.now, exp))
    case Update(code, url, ttl) => w.(s := Updated(g, w.s, code, url, ttl, w.now))
    case Remove(code) => w.(s := Removed(g, w.s, code))
    case Compaction(dropped) => w.(s := w.s.(db := w.s.db - dropped))
    case Clock(later) => w.(now := later)
  }

  ghost function Run(g: Config, w: World, steps: seq<Step>): (w': World)
    requires Shaped(g, w.s)
    ensures Shaped(g, w'.s)
  {
    if steps == [] then w else Next(g, Run(g, w, steps[..|steps| - 1]), steps[|steps| - 1])
  }

  lemma StepCoherent(g: Config, w: World, step: Step)
    requires Shaped(g, w.s) && Coherent(g, w.s, w.now, {})
    ensures Coherent(g, Next(g, w, step).s, Next(g, w, step).now, {})
  {
    hide Shaped, Coherent, Resolved, Created, CreatedMany, Batch, FreshRetries, Dec, Enc;
    if Enabled(w, step) {
      match step {
        case Resolve(code) => ResolveTransparent(g, w.s, code, w.now);
        case Shorten(code, url, exp) => CreateCoherent(g, w.s, code, url, w.now, exp, {});
        case ShortenMany(picks, retries, urls, exp) => CreatedManyCoherent(g, w.s, picks, retries, urls, w.now, exp);
        case Update(code, url, ttl) => UpdateCoherent(g, w.s, code, url, ttl, w.now);
        case Remove(code) => RemoveCoherent(g, w.s, code, w.now);
        case Compaction(dropped) => FilterCoherent(g, w.s, dropped, w.now);
        case Clock(later) => ClockCoherent(g, w.s, w.now, later);
      }
    }
  }

  lemma UpdateCoherent(g: Config, s: State, code: string, url: string, ttl: Option<int>, now: int)
    requires Shaped(g, s) && Coherent(g, s, now, {}) && Access(s, code) == Ok
    ensures Coherent(g, Updated(g, s, code, url, ttl, now), now, {})
  {
    hide Dec, Enc, Coherent;
    UncacheCoherent(g, s, Updated(g, s, code, url, ttl, now), code, now);
  }

  lemma RemoveCoherent(g: Config, s: State, code: string, now: int)
    requires Shaped(g, s) && Coherent(g, s, now, {})
    ensures Coherent(g, Removed(g, s, code), now, {})
  {
    hide Coherent;
    UncacheCoherent(g, s, Removed(g, s, code), code, now);
  }

  lemma {:induction false} RunCoherent(g: Config, w: World, steps: seq<Step>)
    requires Shaped(g, w.s) && Coherent(g, w.s, w.now, {})
    ensures Coherent(g, Run(g, w, steps).s, Run(g, w, steps).now, {})
  {
    if steps != [] {
      hide Coherent, Next, Shaped;
      RunCoherent(g, w, steps[..|steps| - 1]);
      StepCoherent(g, Run(g, w, steps[..|steps| - 1]), steps[|steps| - 1]);
    }
  }

  /**
   Cache transparency: from an empty cache over any database, after every run of
   operations, compactions and clock advances, a read through the cache returns what a
   direct read of the database would.
   */
  lemma CacheTransparent(g: Config, w: World, steps: seq<Step>, code: string)
    requires Shaped(g, w.s) && forall i | 0 <= i < |w.s.cache| :: w.s.cache[i] == EmptyShard
    ensures var w' := Run(g, w, steps);
            Resolved(g, w'.s, code, w'.now).1 == Direct(w'.s.db, code, w'.now)
  {
    hide Resolved, Run, Direct;
    assert Coherent(g, w.s, w.now, {});
    RunCoherent(g, w, steps);
    ResolveTransparent(g, Run(g, w, steps).s, code, Run(g, w, steps).now);
  }
}
