/**
 What a client of the RocksDB store is promised, written over the sequence of
 operations alone, and that every read through the cache answers it.
 */
module RocksLedger {
  import opened Common
  import opened Text
  import opened ValueCodec
  import FifoCache
  import opened Rocks

  // ---------- the reference ----------

  /** The last place of `c` in `codes`. */
  function LastPlace(codes: seq<string>, c: string): (k: nat)
    requires c in codes
    ensures k < |codes| && codes[k] == c && c !in codes[k + 1..]
  {
    var n := |codes| - 1;
    if codes[n] == c then n else
    var k := LastPlace(codes[..n], c);
    assert forall j | k < j < |codes| :: j == n || codes[j] == codes[..n][k + 1..][j - k - 1];
    k
  }

  /** The codes a bulk creation ends with. */
  function FinalCodes(db: map<string, string>, picks: seq<string>, retries: seq<string>): (codes: seq<string>)
    requires |picks| == |retries|
    ensures |codes| == |picks| && forall k | 0 <= k < |picks| :: codes[k] == if picks[k] in db then retries[k] else picks[k]
  {
    seq(|picks|, k requires 0 <= k < |picks| => if picks[k] in db then retries[k] else picks[k])
  }

  /** The value of `c` that the accepted operations leave. */
  ghost function Held(g: FifoCache.Config, w0: World, steps: seq<Step>, c: string): Option<Value>
    requires Shaped(g, w0.s)
  {
    if steps == [] then None else
    HeldStep(Run(g, w0, steps[..|steps| - 1]), steps[|steps| - 1], Held(g, w0, steps[..|steps| - 1], c), c)
  }

  ghost function HeldStep(w: World, step: Step, was: Option<Value>, c: string): Option<Value> {
    if !Enabled(w, step) then was else
    match step
    case Shorten(code, url, exp) => if code == c then Some(Value(exp, w.now, url)) else was
    case ShortenMany(picks, retries, urls, exp) =>
      var codes := FinalCodes(w.s.db, picks, retries);
      if c in codes then Some(Value(exp, w.now, urls[LastPlace(codes, c)])) else was
    case Update(code, url, ttl) =>
      if code == c && was.Some? then
        Some(Value(if ttl.None? then was.value.expiry else if ttl.value > 0 then w.now + ttl.value else 0, was.value.created, url))
      else was
    case Remove(code) => if code == c then None else was
    case _ => was
  }

  /** The new expiry of every update fits 64 bits. */
  ghost predicate Timely(g: FifoCache.Config, w0: World, steps: seq<Step>)
    requires Shaped(g, w0.s)
  {
    forall k | 0 <= k < |steps| && steps[k].Update? && steps[k].ttl.Some? && steps[k].ttl.value > 0 ::
      Int64(Run(g, w0, steps[..k]).now + steps[k].ttl.value)
  }

  // ---------- the database follows it ----------

  /** The database holds `v` for `c`, or has dropped it after its expiry. */
  ghost predicate HeldAt(db: map<string, string>, now: int, v: Option<Value>, c: string) {
    match v
    case None => c !in db
    case Some(x) => if c in db then Dec(db[c]) == Some(x) else x.expiry != 0 && x.expiry <= now
  }

  /** A retry writes its code; no other code changes while the batch is cached. */
  lemma {:induction false} PassDb(g: FifoCache.Config, s: State, db0: map<string, string>, picks: seq<string>, retries: seq<string>,
                                  urls: seq<string>, now: int, exp: int, c: string)
    requires Shaped(g, s) && |picks| == |urls| == |retries| && FreshRetries(s.db, db0, picks, retries)
    ensures var db := CachePass(g, s, db0, picks, retries, urls, now, exp).db;
            && (forall k | 0 <= k < |picks| && picks[k] in db0 && retries[k] == c :: c in db && db[c] == Enc(exp, now, urls[k]))
            && ((forall k | 0 <= k < |picks| && picks[k] in db0 :: retries[k] != c) ==>
                  (c in db <==> c in s.db) && (c in db ==> db[c] == s.db[c]))
    decreases |picks|
  {
    if picks != [] {
      hide Enc, FifoCache.Put;
      var s1 := if picks[0] in db0 then Created(g, s, retries[0], urls[0], now, exp) else Cached(g, s, picks[0], urls[0], exp, now);
      var db := CachePass(g, s, db0, picks, retries, urls, now, exp).db;
      PassDb(g, s1, db0, picks[1..], retries[1..], urls[1..], now, exp, c);
      forall k | 0 <= k < |picks| && picks[k] in db0 && retries[k] == c
        ensures c in db && db[c] == Enc(exp, now, urls[k])
      {
        if k == 0 {
          assert forall j | 0 <= j < |picks[1..]| && picks[1..][j] in db0 :: retries[1..][j] == retries[j + 1] != c;
        } else {
          assert picks[1..][k - 1] in db0 && retries[1..][k - 1] == c && urls[1..][k - 1] == urls[k];
        }
      }
      if forall k | 0 <= k < |picks| && picks[k] in db0 :: retries[k] != c {
        assert forall j | 0 <= j < |picks[1..]| && picks[1..][j] in db0 :: retries[1..][j] == retries[j + 1] != c;
      }
    }
  }

  lemma {:induction false} LastUrlPlace(picks: seq<string>, urls: seq<string>, c: string)
    requires |picks| == |urls| && c in picks
    ensures LastUrl(picks, urls, c) == urls[LastPlace(picks, c)]
  {
    var k := LastPlace(picks, c);
    if c in picks[1..] {
      LastUrlPlace(picks[1..], urls[1..], c);
      var j := LastPlace(picks[1..], c);
      OnePlace(picks, c, j + 1);
    } else {
      OnePlace(picks, c, 0);
    }
  }

  lemma OnePlace(codes: seq<string>, c: string, k: nat)
    requires k < |codes| && codes[k] == c && c !in codes[k + 1..]
    ensures c in codes && LastPlace(codes, c) == k
  {
    var j := LastPlace(codes, c);
    assert forall i | k < i < |codes| :: codes[i] == codes[k + 1..][i - k - 1];
    assert forall i | j < i < |codes| :: codes[i] == codes[j + 1..][i - j - 1];
  }

  /** The database after a bulk creation: each final code has the url at its last place, every other code is as before. */
  lemma CreatedManyDb(g: FifoCache.Config, s: State, picks: seq<string>, retries: seq<string>, urls: seq<string>, now: int, exp: int, c: string)
    requires Shaped(g, s) && |picks| == |urls| == |retries|
    requires FreshRetries(Batch(s.db, s.db, picks, urls, now, exp), s.db, picks, retries)
    ensures var db, codes := CreatedMany(g, s, picks, retries, urls, now, exp).db, FinalCodes(s.db, picks, retries);
            if c in codes then c in db && db[c] == Enc(exp, now, urls[LastPlace(codes, c)])
            else (c in db <==> c in s.db) && (c in db ==> db[c] == s.db[c])
  {
    hide Batch, CachePass, Enc;
    var db1, codes := Batch(s.db, s.db, picks, urls, now, exp), FinalCodes(s.db, picks, retries);
    BatchWrites(s.db, s.db, picks, urls, now, exp, c);
    PassDb(g, s.(db := db1), s.db, picks, retries, urls, now, exp, c);
    if k :| 0 <= k < |picks| && picks[k] in s.db && retries[k] == c {
      forall j | k < j < |codes|
        ensures codes[j] != c
      {
        if picks[j] !in s.db { BatchWrites(s.db, s.db, picks, urls, now, exp, picks[j]); }
      }
      OnePlace(codes, c, k);
    } else if c in codes {
      var k := LastPlace(codes, c);
      assert picks[k] == c && c !in s.db;
      forall j | k < j < |picks|
        ensures picks[j] != c
      {
        assert codes[j] == codes[k + 1..][j - k - 1];
      }
      OnePlace(picks, c, k);
      LastUrlPlace(picks, urls, c);
    } else {
      assert forall k | 0 <= k < |picks| && picks[k] !in s.db :: codes[k] == picks[k];
    }
  }

  lemma StepHeld(g: FifoCache.Config, w: World, step: Step, v: Option<Value>, c: string)
    requires Shaped(g, w.s) && HeldAt(w.s.db, w.now, v, c)
    requires step.Update? && step.ttl.Some? && step.ttl.value > 0 ==> Int64(w.now + step.ttl.value)
    ensures var w' := Next(g, w, step); HeldAt(w'.s.db, w'.now, HeldStep(w, step, v, c), c)
  {
    hide Enc, Dec, FifoCache.Put, CreatedMany, Batch, FreshRetries;
    if Enabled(w, step) {
      match step {
        case Shorten(code, url, exp) => DecEnc(exp, w.now, url);
        case ShortenMany(picks, retries, urls, exp) =>
          CreatedManyDb(g, w.s, picks, retries, urls, w.now, exp, c);
          if c in FinalCodes(w.s.db, picks, retries) { DecEnc(exp, w.now, urls[LastPlace(FinalCodes(w.s.db, picks, retries), c)]); }
        case Update(code, url, ttl) =>
          var x := Dec(w.s.db[code]).value;
          DecInt64(w.s.db[code]);
          DecEnc(if ttl.None? then x.expiry else if ttl.value > 0 then w.now + ttl.value else 0, x.created, url);
        case _ =>
      }
    }
  }

  lemma {:induction false} RunHeld(g: FifoCache.Config, w0: World, steps: seq<Step>, c: string)
    requires Shaped(g, w0.s) && w0.s.db == map[] && Timely(g, w0, steps)
    ensures var w := Run(g, w0, steps); HeldAt(w.s.db, w.now, Held(g, w0, steps, c), c)
  {
    if steps != [] {
      hide HeldAt, HeldStep, Next;
      var k := |steps| - 1;
      assert Timely(g, w0, steps[..k]) by {
        assert forall j | 0 <= j < k :: steps[..k][..j] == steps[..j];
      }
      RunHeld(g, w0, steps[..k], c);
      StepHeld(g, Run(g, w0, steps[..k]), steps[k], Held(g, w0, steps[..k], c), c);
    }
  }

  /**
   Reads over every run, through the cache: a code answers with the url that the accepted
   operations left, exactly while its expiry is 0 or in the future.
   */
  lemma RocksOverRuns(g: FifoCache.Config, w0: World, steps: seq<Step>, c: string)
    requires Shaped(g, w0.s) && w0.s.db == map[] && (forall i | 0 <= i < |w0.s.cache| :: w0.s.cache[i] == FifoCache.EmptyShard)
    requires Timely(g, w0, steps)
    ensures var w, v := Run(g, w0, steps), Held(g, w0, steps, c);
            Resolved(g, w.s, c, w.now).1 ==
              if v.Some? && (v.value.expiry == 0 || w.now < v.value.expiry) then Some(v.value.url) else None
  {
    hide Run, Held, Resolved, Dec, Timely;
    CacheTransparent(g, w0, steps, c);
    RunHeld(g, w0, steps, c);
  }
}
