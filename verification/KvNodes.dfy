/**
 Many nodes over one RESP store (src/store_kv.cpp): each node reads through its
 own cache, nothing invalidates the caches of other nodes, and a read that
 misses is in flight between the moment the store answers and the moment the
 answer is cached.
 */
module KvNodes {
  import opened Text
  import opened ValueCodec
  import opened FifoCache

  /** The store at one instant of the run. */
  datatype Instant = Instant(time: int, kv: map<string, string>)

  /** A read in flight: the store answered it at instant `asOf` of the history. */
  datatype Read = Read(code: string, asOf: nat)

  /** `asOf` records, for each cached code, the instant its entry was read at. */
  datatype Node = Node(cache: seq<Shard>, pending: map<nat, Read>, asOf: map<string, nat>)

  /** `history` lists every instant so far; the last one is the present. */
  datatype World = World(nodes: seq<Node>, history: seq<Instant>)

  datatype Step =
    | CacheGet(n: nat, code: string)
    | Sample(n: nat, id: nat, code: string)  // the store answers a GET of node n
    | Finish(n: nat, id: nat)                // node n decodes and caches the answer
    | CacheDel(n: nat, code: string)         // last step of an update or remove on node n
    | KvPut(code: string, value: string)     // a write of any node
    | KvDrop(code: string)                   // a removal, or the store's own expiry
    | Clock(later: int)

  ghost predicate Shaped(g: Config, w: World) {
    && ValidConfig(g) && w.history != []
    && (forall n | 0 <= n < |w.nodes| :: |w.nodes[n].cache| == g.shards)
    && forall k | 0 <= k < |w.history| :: w.history[k].time <= Present(w).time
  }

  function Present(w: World): Instant
    requires w.history != []
  {
    w.history[|w.history| - 1]
  }

  function ShardOf(g: Config, w: World, n: nat, code: string): Shard
    requires Shaped(g, w) && n < |w.nodes|
  {
    assert |w.nodes[n].cache| == g.shards;
    w.nodes[n].cache[g.shard(code)]
  }

  function SetShard(g: Config, w: World, n: nat, code: string, sh: Shard): (w': World)
    requires Shaped(g, w) && n < |w.nodes|
    ensures Shaped(g, w')
  {
    var nd := w.nodes[n];
    assert |nd.cache| == g.shards;
    w.(nodes := w.nodes[n := nd.(cache := nd.cache[g.shard(code) := sh])])
  }

  /** What `resolve` makes of the store's answer at time `now`. */
  function Accept(kv: map<string, string>, code: string, now: int): Option<Value> {
    if code in kv && Dec(kv[code]).Some? && !Expired(Dec(kv[code]).value.expiry, now) then Dec(kv[code]) else None
  }

  predicate Reading(w: World, n: nat, id: nat) {
    n < |w.nodes| && id in w.nodes[n].pending && w.nodes[n].pending[id].asOf < |w.history|
  }

  /** What the read of node `n` returns when it finishes now. */
  function Answer(w: World, n: nat, id: nat): Option<Value>
    requires w.history != [] && Reading(w, n, id)
  {
    var rd := w.nodes[n].pending[id];
    Accept(w.history[rd.asOf].kv, rd.code, Present(w).time)
  }

  /** A read that missed the cache answers the url the store gave, exactly while it has not expired. */
  lemma AnswerIff(w: World, n: nat, id: nat, expiry: int, created: int, url: string)
    requires w.history != [] && Reading(w, n, id) && Int64(expiry) && Int64(created)
    requires var rd := w.nodes[n].pending[id]; rd.code in w.history[rd.asOf].kv && w.history[rd.asOf].kv[rd.code] == Enc(expiry, created, url)
    ensures Answer(w, n, id)
         == if expiry == 0 || Present(w).time < expiry then Some(Value(expiry, created, url)) else None
  {
    hide Enc, Dec;
    DecEnc(expiry, created, url);
  }

  function Finished(g: Config, w: World, n: nat, id: nat): (w': World)
    requires Shaped(g, w) && Reading(w, n, id)
    ensures Shaped(g, w')
  {
    var nd := w.nodes[n];
    assert |nd.cache| == g.shards;
    var rd, v := nd.pending[id], Answer(w, n, id);
    var done := nd.(pending := nd.pending - {id});
    if v.None? then w.(nodes := w.nodes[n := done]) else
    var sh := Put(ShardOf(g, w, n, rd.code), g.cap, rd.code, CacheEntry(v.value.url, v.value.expiry, Present(w).time));
    w.(nodes := w.nodes[n := done.(cache := nd.cache[g.shard(rd.code) := sh], asOf := nd.asOf[rd.code := rd.asOf])])
  }

  /** One step; a read finishes any time after the store answered it.  Impossible steps do nothing. */
  function Next(g: Config, w: World, s: Step): (w': World)
    requires Shaped(g, w)
    ensures Shaped(g, w')
  {
    match s
    case CacheGet(n, code) =>
      if n < |w.nodes| then SetShard(g, w, n, code, AfterGet(ShardOf(g, w, n, code), code, Present(w).time, g.ttl)) else w
    case Sample(n, id, code) =>
      if n < |w.nodes| && id !in w.nodes[n].pending then
        var nd := w.nodes[n];
        assert |nd.cache| == g.shards;
        w.(nodes := w.nodes[n := nd.(pending := nd.pending[id := Read(code, |w.history| - 1)])])
      else w
    case Finish(n, id) =>
      if Reading(w, n, id) then Finished(g, w, n, id) else w
    case CacheDel(n, code) =>
      if n < |w.nodes| then SetShard(g, w, n, code, Del(ShardOf(g, w, n, code), code)) else w
    case KvPut(code, value) => w.(history := w.history + [Instant(Present(w).time, Present(w).kv[code := value])])
    case KvDrop(code) => w.(history := w.history + [Instant(Present(w).time, Present(w).kv - {code})])
    case Clock(later) => if Present(w).time <= later then w.(history := w.history + [Instant(later, Present(w).kv)]) else w
  }

  function Run(g: Config, w: World, steps: seq<Step>): (w': World)
    requires Shaped(g, w)
    ensures Shaped(g, w')
  {
    if steps == [] then w else Next(g, Run(g, w, steps[..|steps| - 1]), steps[|steps| - 1])
  }

  // ---------- where a cached entry comes from ----------

  /** The read that cached `e` was answered at instant `k`, which held `code` with the url and expiry of `e`. */
  ghost predicate Witnessed(w: World, code: string, e: CacheEntry, k: nat) {
    && k < |w.history| && code in w.history[k].kv
    && Dec(w.history[k].kv[code]).Some?
    && Dec(w.history[k].kv[code]).value.url == e.url && Dec(w.history[k].kv[code]).value.expiry == e.expiry
    && w.history[k].time <= e.at <= Present(w).time
  }

  /** Entry of `code` on node `n`: read at a known instant not before `since`; so are the reads in flight. */
  ghost predicate From(g: Config, w: World, n: nat, code: string, since: nat)
    requires Shaped(g, w) && n < |w.nodes|
  {
    var nd, sh := w.nodes[n], ShardOf(g, w, n, code);
    && (code in sh.m ==> code in nd.asOf && since <= nd.asOf[code] && Witnessed(w, code, sh.m[code], nd.asOf[code]))
    && (forall id <- nd.pending :: nd.pending[id].code == code ==> since <= nd.pending[id].asOf < |w.history|)
    && since < |w.history|
  }

  lemma StepFrom(g: Config, w: World, s: Step, n: nat, code: string, since: nat)
    requires Shaped(g, w) && n < |w.nodes| && From(g, w, n, code, since)
    ensures |Next(g, w, s).nodes| == |w.nodes| && From(g, Next(g, w, s), n, code, since)
  {
    hide Put, Dec;
    if s.Finish? && Reading(w, s.n, s.id) {
      FinishFrom(g, w, s.n, s.id, n, code, since);
    }
  }

  lemma FinishFrom(g: Config, w: World, m: nat, id: nat, n: nat, code: string, since: nat)
    requires Shaped(g, w) && n < |w.nodes| && From(g, w, n, code, since)
    requires Reading(w, m, id)
    ensures From(g, Finished(g, w, m, id), n, code, since)
  {
    hide Put, Dec;
    var rd, v := w.nodes[m].pending[id], Answer(w, m, id);
    if v.Some? {
      var e := CacheEntry(v.value.url, v.value.expiry, Present(w).time);
      PutOthers(ShardOf(g, w, m, rd.code), g.cap, rd.code, e);
    }
  }

  lemma {:induction false} RunFrom(g: Config, w: World, steps: seq<Step>, n: nat, code: string, since: nat)
    requires Shaped(g, w) && n < |w.nodes| && From(g, w, n, code, since)
    ensures |Run(g, w, steps).nodes| == |w.nodes| && From(g, Run(g, w, steps), n, code, since)
  {
    if steps != [] {
      hide From, Next;
      RunFrom(g, w, steps[..|steps| - 1], n, code, since);
      StepFrom(g, Run(g, w, steps[..|steps| - 1]), steps[|steps| - 1], n, code, since);
    }
  }

  /** Nodes that have just started: empty caches, nothing in flight. */
  ghost predicate Started(w: World) {
    forall n | 0 <= n < |w.nodes| :: w.nodes[n].pending == map[] && forall i | 0 <= i < |w.nodes[n].cache| :: w.nodes[n].cache[i] == EmptyShard
  }

  /**
   Bounded staleness: with a positive cache TTL, a url served from the cache of any node was
   the store's value at instant `k`, when the store answered the read that cached it; this
   is no older than the TTL plus that read's own duration, and is not past its expiry.
   */
  lemma BoundedStaleness(g: Config, w0: World, steps: seq<Step>, n: nat, code: string) returns (k: nat, cached: int)
    requires Shaped(g, w0) && Started(w0) && n < |w0.nodes| && g.ttl > 0
    requires var w := Run(g, w0, steps);
             |w.nodes| == |w0.nodes| && Get(ShardOf(g, w, n, code), code, Present(w).time, g.ttl).Some?
    ensures var w := Run(g, w0, steps);
            var url, now := Get(ShardOf(g, w, n, code), code, Present(w).time, g.ttl).value, Present(w).time;
            && cached == ShardOf(g, w, n, code).m[code].at
            && k < |w.history| && w.history[k].time <= cached <= now
            && now - w.history[k].time <= g.ttl + (cached - w.history[k].time)
            && code in w.history[k].kv && Dec(w.history[k].kv[code]).Some?
            && var v := Dec(w.history[k].kv[code]).value; v.url == url && (v.expiry == 0 || now < v.expiry)
  {
    hide Run, Dec;
    assert From(g, w0, n, code, 0);
    RunFrom(g, w0, steps, n, code, 0);
    k, cached := Run(g, w0, steps).nodes[n].asOf[code], ShardOf(g, Run(g, w0, steps), n, code).m[code].at;
  }

  /**
   A node sees its own mutation at once: when the cache delete that ends an update or remove
   runs while no read of the code is in flight on that node, then in every continuation all
   the node caches, serves or still reads of that code comes from instants not before it.
   */
  lemma OwnMutationVisible(g: Config, w: World, n: nat, code: string, steps: seq<Step>)
    requires Shaped(g, w) && n < |w.nodes|
    requires forall id <- w.nodes[n].pending :: w.nodes[n].pending[id].code != code
    ensures var w1 := Next(g, w, CacheDel(n, code));
            var w' := Run(g, w1, steps);
            && Get(ShardOf(g, w1, n, code), code, Present(w1).time, g.ttl) == None
            && |w'.nodes| == |w.nodes| && From(g, w', n, code, |w.history| - 1)
  {
    hide Run, Dec;
    var w1 := Next(g, w, CacheDel(n, code));
    assert From(g, w1, n, code, |w.history| - 1);
    RunFrom(g, w1, steps, n, code, |w.history| - 1);
  }

  /** Read `id` of node `n` would put its answer into the cache if it finished now. */
  predicate Cacheable(w: World, n: nat, id: nat)
    requires w.history != []
  {
    Reading(w, n, id) && Answer(w, n, id).Some?
  }

  /** Node `n` has nothing of `code` cached from before instant `m`. */
  ghost predicate Current(g: Config, w: World, n: nat, code: string, m: nat)
    requires Shaped(g, w)
  {
    n < |w.nodes| && (code in ShardOf(g, w, n, code).m ==> code in w.nodes[n].asOf && m <= w.nodes[n].asOf[code])
  }

  /** No read of `code` answered before instant `m` can still be cached by node `n`. */
  ghost predicate NoLateRead(w: World, n: nat, code: string, m: nat)
    requires w.history != [] && n < |w.nodes|
  {
    forall id <- w.nodes[n].pending ::
      w.nodes[n].pending[id].code == code && w.nodes[n].pending[id].asOf < m ==> !Cacheable(w, n, id)
  }

  /** A read whose answer has expired stays so. */
  lemma LaterNotCacheable(w: World, next: Instant, n: nat, id: nat)
    requires w.history != [] && Present(w).time <= next.time
    requires Reading(w, n, id) && !Cacheable(w, n, id)
    ensures !Cacheable(w.(history := w.history + [next]), n, id)
  {
    hide Dec;
  }

  lemma StepCurrent(g: Config, w: World, s: Step, n: nat, code: string, m: nat)
    requires Shaped(g, w) && Current(g, w, n, code, m) && NoLateRead(w, n, code, m) && m < |w.history|
    ensures var w' := Next(g, w, s);
            |w'.nodes| == |w.nodes| && Current(g, w', n, code, m) && NoLateRead(w', n, code, m) && m < |w'.history|
  {
    hide Put, Dec, Accept;
    var w' := Next(g, w, s);
    if s.Finish? && Reading(w, s.n, s.id) {
      var rd, v := w.nodes[s.n].pending[s.id], Answer(w, s.n, s.id);
      if v.Some? {
        assert Cacheable(w, s.n, s.id);
        PutOthers(ShardOf(g, w, s.n, rd.code), g.cap, rd.code, CacheEntry(v.value.url, v.value.expiry, Present(w).time));
      }
    } else if w'.history != w.history {
      forall id <- w'.nodes[n].pending | w'.nodes[n].pending[id].code == code && w'.nodes[n].pending[id].asOf < m
        ensures !Cacheable(w', n, id)
      {
        LaterNotCacheable(w, Present(w'), n, id);
      }
    }
  }

  lemma {:induction false} RunCurrent(g: Config, w: World, steps: seq<Step>, n: nat, code: string, m: nat)
    requires Shaped(g, w) && Current(g, w, n, code, m) && NoLateRead(w, n, code, m) && m < |w.history|
    ensures var w' := Run(g, w, steps);
            |w'.nodes| == |w.nodes| && Current(g, w', n, code, m) && NoLateRead(w', n, code, m) && m < |w'.history|
  {
    if steps != [] {
      hide Current, NoLateRead, Next;
      RunCurrent(g, w, steps[..|steps| - 1], n, code, m);
      StepCurrent(g, Run(g, w, steps[..|steps| - 1]), steps[|steps| - 1], n, code, m);
    }
  }

  /**
   The exact condition: after the cache delete, the node never caches anything older than
   the mutation at instant `m`, in any continuation, if and only if no read answered before
   `m` is in flight that could still be cached.
   */
  lemma OwnMutationVisibleIff(g: Config, w: World, n: nat, code: string, m: nat)
    requires Shaped(g, w) && n < |w.nodes| && m < |w.history|
    ensures (forall steps :: Current(g, Run(g, Next(g, w, CacheDel(n, code)), steps), n, code, m))
            <==> NoLateRead(w, n, code, m)
  {
    hide Run, Put, Dec, Accept;
    var w1 := Next(g, w, CacheDel(n, code));
    assert w1.history == w.history && w1.nodes[n].pending == w.nodes[n].pending;
    assert NoLateRead(w1, n, code, m) <==> NoLateRead(w, n, code, m);
    if NoLateRead(w, n, code, m) {
      forall steps
        ensures Current(g, Run(g, w1, steps), n, code, m)
      {
        RunCurrent(g, w1, steps, n, code, m);
      }
    } else {
      var id :| id in w1.nodes[n].pending && w1.nodes[n].pending[id].code == code &&
                w1.nodes[n].pending[id].asOf < m && Cacheable(w1, n, id);
      FinishPutsBack(g, w1, n, id);
      assert !Current(g, Run(g, w1, [Finish(n, id)]), n, code, m);
    }
  }

  lemma FinishPutsBack(g: Config, w: World, n: nat, id: nat)
    requires Shaped(g, w) && Cacheable(w, n, id)
    ensures var rd, w' := w.nodes[n].pending[id], Run(g, w, [Finish(n, id)]);
            && |w'.nodes| == |w.nodes| && rd.code in ShardOf(g, w', n, rd.code).m
            && rd.code in w'.nodes[n].asOf && w'.nodes[n].asOf[rd.code] == rd.asOf
  {
    hide Put, Dec, Accept;
    var steps := [Finish(n, id)];
    assert steps[..0] == [] && Run(g, w, steps) == Next(g, w, Finish(n, id));
    var rd, v := w.nodes[n].pending[id], Answer(w, n, id);
    PutOthers(ShardOf(g, w, n, rd.code), g.cap, rd.code, CacheEntry(v.value.url, v.value.expiry, Present(w).time));
  }

  /**
   The condition is needed: in every state that holds a live link, a read answered before
   the write and finished after the cache delete puts the old value back.
   */
  lemma InFlightReadResurrects(g: Config, w: World, n: nat, id: nat, code: string, value: string)
    requires Shaped(g, w) && n < |w.nodes| && id !in w.nodes[n].pending
    requires Accept(Present(w).kv, code, Present(w).time).Some?
    ensures var steps := [Sample(n, id, code), KvPut(code, value), CacheDel(n, code), Finish(n, id)];
            var w' := Run(g, w, steps);
            && |w'.nodes| == |w.nodes| && code in ShardOf(g, w', n, code).m
            && ShardOf(g, w', n, code).m[code].url == Accept(Present(w).kv, code, Present(w).time).value.url
            && code in Present(w').kv && Present(w').kv[code] == value
  {
    hide Put, Dec;
    var w1 := Next(g, w, Sample(n, id, code));
    var w2 := Next(g, w1, KvPut(code, value));
    var w3 := Next(g, w2, CacheDel(n, code));
    var w4 := Next(g, w3, Finish(n, id));
    var steps := [Sample(n, id, code), KvPut(code, value), CacheDel(n, code), Finish(n, id)];
    assert steps[..3] == [Sample(n, id, code), KvPut(code, value), CacheDel(n, code)];
    assert steps[..3][..2] == [Sample(n, id, code), KvPut(code, value)];
    assert steps[..3][..2][..1] == [Sample(n, id, code)];
    assert steps[..3][..2][..1][..0] == [];
    assert Run(g, w, steps[..3][..2][..1]) == w1;
    assert Run(g, w, steps[..3][..2]) == w2;
    assert Run(g, w, steps[..3]) == w3;
    assert Run(g, w, steps) == w4;
    var v := Accept(Present(w).kv, code, Present(w).time).value;
    PutOthers(ShardOf(g, w3, n, code), g.cap, code, CacheEntry(v.url, v.expiry, Present(w3).time));
  }
}
