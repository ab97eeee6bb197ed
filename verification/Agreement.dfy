/**
 Agreement between the index and the log over every run of one instance:
 replaying snapshot then log rebuilds the instance's own links and own hits.
 */
module Agreement {
  import opened Common
  import opened Text
  import opened Codec
  import opened Log
  import opened Replay
  import opened Store

  /**
   An instance with the history the theorem speaks of: codes created here, codes with
   rows or tombstones in siblings' logs, codes updated or removed since the last
   compaction, whether no sibling record was folded yet, and the number of steps.
   */
  datatype Hist = Hist(s: State, owned: set<string>, foreign: set<string>, touched: set<string>, alone: bool, k: nat)

  const Initial := Hist(State(map[], map[], map[], "", "", ""), {}, {}, {}, true, 0)

  datatype Step =
    | Shorten(code: string, url: string, now: int, exp: int)
    | ShortenMany(codes: seq<string>, urls: seq<string>, now: int, exp: int)
    | Update(code: string, url: string, exp: int)
    | Remove(code: string)
    | Resolve(code: string, now: int)
    | Flush(order: seq<string>)
    | Compact(order: seq<string>, keys: seq<string>)
    | Tail(rec: Record, victim: string)
    | Reopen(victims: Victim)

  /** A code no row or tombstone of which can be in a sibling's log. */
  ghost predicate Fresh(h: Hist, code: string) {
    PlainCode(code) && code !in h.s.index && code !in h.foreign
  }

  ghost predicate FreshBatch(h: Hist, codes: seq<string>) {
    && (forall c <- codes :: Fresh(h, c))
    && (forall i, j | 0 <= i < j < |codes| :: codes[i] != codes[j])
  }

  /**
   Each code's rows and tombstones live in one log; times fit 64 bits.  `shorten` of a
   taken alias, and update or remove of a missing or foreign code, change nothing.
   */
  ghost predicate Enabled(me: int, h: Hist, step: Step) {
    match step
    case Shorten(code, url, now, exp) => Fresh(h, code) && Int64(now) && Int64(exp)
    case ShortenMany(codes, urls, now, exp) =>
      |codes| == |urls| && Int64(now) && Int64(exp) && FreshBatch(h, codes)
    case Update(code, url, exp) => Access(me, h.s, code) == Ok && Int64(exp)
    case Remove(code) => Access(me, h.s, code) == Ok
    case Resolve(code, now) => Resolvable(h.s.index, code, now)
    case Flush(order) => Enumerates(order, h.s.dirty.Keys)
    case Compact(order, keys) => Enumerates(order, h.s.dirty.Keys) && Enumerates(keys, OwnCodes(me, h.s.index))
    case Tail(r, _) => Printable(r) && (!r.Hit? ==> r.code !in h.owned) && (!r.Del? ==> r.owner != me)
    case Reopen(_) => true
  }

  ghost function Act(me: int, h: Hist, step: Step): Hist
    requires Enabled(me, h, step)
  {
    match step
    case Shorten(code, url, now, exp) => h.(s := Created(me, h.s, code, url, now, exp), owned := h.owned + {code})
    case ShortenMany(codes, urls, now, exp) =>
      h.(s := CreatedMany(me, h.s, codes, urls, now, exp), owned := h.owned + set c | c in codes)
    case Update(code, url, exp) => h.(s := Updated(me, h.s, code, url, exp), touched := h.touched + {code})
    case Remove(code) => h.(s := Removed(me, h.s, code), touched := h.touched + {code})
    case Resolve(code, now) => h.(s := Resolved(h.s, code))
    case Flush(order) => h.(s := HitsFlushed(me, h.s, order))
    case Compact(order, keys) => h.(s := Compacted(me, h.s, order, keys), touched := {})
    case Tail(r, v) =>
      h.(s := Tailed(me, h.s, r, v), foreign := if r.Hit? then h.foreign else h.foreign + {r.code}, alone := false)
    case Reopen(v) => h.(s := Reopened(me, h.s, v))
  }

  ghost function Next(me: int, h: Hist, step: Step): Hist {
    if Enabled(me, h, step) then Act(me, h, step).(k := h.k + 1) else h.(k := h.k + 1)
  }

  ghost function Run(me: int, steps: seq<Step>): Hist {
    if steps == [] then Initial else Next(me, Run(me, steps[..|steps| - 1]), steps[|steps| - 1])
  }

  // ---------- the invariant, code by code ----------

  function OwnLink(me: int, index: Index, c: string): Option<Link> {
    if c in index && index[c].owner == me then LinkOf(index, c) else None
  }

  function OwnHits(index: Index, c: string): int { if c in index then index[c].oh else 0 }

  /** What the index alone promises about `c`. */
  ghost predicate IndexAt(me: int, h: Hist, c: string) {
    && !(c in h.owned && c in h.foreign)
    && (c in h.s.index || c in h.s.dirty ==> PlainCode(c))
    && (c in h.s.index ==>
          var e := h.s.index[c];
          if e.owner == me
          then c in h.owned && 0 <= e.oh <= h.k && Int64(e.created) && Int64(e.expiry) && (h.alone ==> e.h == e.oh)
          else c in h.foreign)
  }

  /** How the replayed files `R` relate to the instance at `c`. */
  ghost predicate ReplayAt(me: int, h: Hist, R: Folded, c: string) {
    && LinkOf(R.index, c) == OwnLink(me, h.s.index, c)
    && (c in R.index ==> R.index[c].h == R.index[c].oh && c !in R.stray)
    && StrayOf(R.stray, c).t == StrayOf(R.stray, c).o
    && (c !in h.touched && c in R.index ==> R.index[c].oh + DirtyOf(h.s.dirty, c) == h.s.index[c].oh)
    && (c !in h.touched && c !in h.foreign && c !in R.index ==> c !in R.stray && c !in h.s.dirty)
    && 0 <= OwnHits(R.index, c) && 0 <= StrayOf(R.stray, c).o && 0 <= DirtyOf(h.s.dirty, c)
    && OwnHits(R.index, c) + StrayOf(R.stray, c).o + DirtyOf(h.s.dirty, c) <= h.k
  }

  ghost predicate At(me: int, h: Hist, R: Folded, c: string) { IndexAt(me, h, c) && ReplayAt(me, h, R, c) }

  /**
   What one log says about the hits of a code: whether it holds a row or tombstone of it,
   whether a tombstone, whether a hit before any of these, and the hits since the last.
   */
  datatype Since = Since(decided: bool, dropped: bool, early: bool, hits: int)

  function SinceStep(y: Since, r: Record, c: string): Since {
    if r.code != c then y
    else match r
      case Del(_) => Since(true, true, y.early, 0)
      case Hit(_, d, _) => y.(hits := y.hits + d, early := y.early || !y.decided)
      case Row(_, _, _, _, _, n) => y.(decided := true, hits := n)
  }

  function SinceAfter(recs: seq<Record>, c: string): Since {
    if recs == [] then Since(false, false, false, 0)
    else SinceStep(SinceAfter(recs[..|recs| - 1], c), recs[|recs| - 1], c)
  }

  lemma SincePush(recs: seq<Record>, r: Record, c: string)
    ensures SinceAfter(recs + [r], c) == SinceStep(SinceAfter(recs, c), r, c)
  {
    assert (recs + [r])[..|recs|] == recs;
  }

  lemma {:induction false} SinceMeaning(recs: seq<Record>, c: string)
    ensures SinceAfter(recs, c).decided <==> Mentions(recs, c)
    ensures !Mentions(recs, c) ==> SinceAfter(recs, c).hits == HitSum(recs, c)
  {
    if recs != [] {
      var k := |recs| - 1;
      SinceMeaning(recs[..k], c);
      assert Mentions(recs, c) <==> Mentions(recs[..k], c) || Decides(recs[k], c) by {
        assert recs == recs[..k] + [recs[k]];
        assert forall r :: r in recs <==> r in recs[..k] || r == recs[k];
      }
    }
  }

  /** The snapshot has a row of `c`. */
  ghost predicate InSnap(snap: string, c: string) { Mentions(Records(snap), c) }

  /**
   A log with the row of a code also has all its hits, unless the code was updated or removed;
   hits that come before the row are of codes in the snapshot, or of siblings' codes.
   */
  ghost predicate LogAt(me: int, h: Hist, y: Since, c: string) {
    && (c !in h.touched ==>
          && !y.dropped
          && (y.decided && OwnLink(me, h.s.index, c).Some? ==> y.hits + DirtyOf(h.s.dirty, c) == h.s.index[c].oh))
    && (c !in h.foreign && (y.early || (c in h.s.dirty && !y.decided)) ==> InSnap(h.s.snap, c))
  }

  function SinceIn(log: string, c: string): Since { SinceAfter(Records(log), c) }

  /** Both files end in a newline. */
  ghost predicate Whole(s: State) { Log.Tail(s.snap) == "" && Log.Tail(LogOf(s)) == "" }

  /** A snapshot holds rows only. */
  ghost predicate SnapRows(snap: string) { forall r <- Records(snap) :: r.Row? }

  function FilesOf(me: int, s: State, victim: Victim): Folded { Recovered(me, s.snap, LogOf(s), victim) }

  ghost predicate Inv(me: int, h: Hist, victim: Victim) {
    && Whole(h.s) && SnapRows(h.s.snap)
    && (forall c :: At(me, h, FilesOf(me, h.s, victim), c))
    && (forall c :: LogAt(me, h, SinceIn(LogOf(h.s), c), c))
  }

  // ---------- the effect of one record on the replayed files ----------

  lemma CreateAt(me: int, h: Hist, R: Folded, v: string, code: string, url: string, now: int, exp: int, c: string)
    requires At(me, h, R, c) && Fresh(h, code) && Int64(now) && Int64(exp)
    ensures var index := h.s.index[code := Entry(url, now, exp, me, 0, 0)];
            At(me, h.(s := h.s.(index := index), owned := h.owned + {code}),
               Apply(me, R, Row(code, url, now, exp, me, 0), v), c)
  {}

  lemma CreateLogAt(me: int, h: Hist, R: Folded, y: Since, code: string, url: string, now: int, exp: int, c: string)
    requires At(me, h, R, c) && LogAt(me, h, y, c) && Fresh(h, code)
    ensures LogAt(me, Insert(me, h, code, url, now, exp), SinceStep(y, Row(code, url, now, exp, me, 0), c), c)
  {
    hide Print;
  }

  lemma UpdateAt(me: int, h: Hist, R: Folded, v: string, code: string, url: string, exp: int, c: string)
    requires At(me, h, R, c) && Access(me, h.s, code) == Ok && Int64(exp)
    ensures var e := h.s.index[code];
            At(me, h.(s := h.s.(index := h.s.index[code := e.(url := url, expiry := exp)]), touched := h.touched + {code}),
               Apply(me, R, Row(code, url, e.created, exp, me, 0), v), c)
  {}

  lemma RemoveAt(me: int, h: Hist, R: Folded, v: string, code: string, c: string)
    requires At(me, h, R, c) && Access(me, h.s, code) == Ok
    ensures At(me, h.(s := h.s.(index := h.s.index - {code}), touched := h.touched + {code}),
               Apply(me, R, Del(code), v), c)
  {}

  lemma ResolveAt(me: int, h: Hist, R: Folded, code: string, c: string)
    requires At(me, h, R, c) && code in h.s.index
    ensures At(me, h.(s := Resolved(h.s, code), k := h.k + 1), R, c)
  {}

  /** The own code of a counted hit has its row in the files. */
  lemma ResolveLogAt(me: int, h: Hist, R: Folded, y: Since, code: string, c: string)
    requires At(me, h, R, c) && LogAt(me, h, y, c) && code in h.s.index
    requires c in R.index ==> y.decided || InSnap(h.s.snap, c)
    ensures LogAt(me, h.(s := Resolved(h.s, code), k := h.k + 1), y, c)
  {
    hide InSnap;
  }

  lemma HeldInFiles(me: int, h: Hist, victim: Victim, c: string)
    ensures c in FilesOf(me, h.s, victim).index ==> SinceIn(LogOf(h.s), c).decided || InSnap(h.s.snap, c)
  {
    hide Fold, LinkAfter, Records, SinceAfter, Mentions;
    var snap, log := Records(h.s.snap), Records(LogOf(h.s));
    FoldLink(me, EmptyFold, snap + log, victim, c);
    LinkAfterAppend(None, snap, log, c);
    LinkAfterMentioned(None, snap, c);
    LinkAfterMentioned(LinkAfter(None, snap, c), log, c);
    SinceMeaning(log, c);
  }

  /** Flushing one dirty counter moves it from `dirty` to the files. */
  lemma FlushAt(me: int, h: Hist, R: Folded, v: string, code: string, c: string)
    requires At(me, h, R, c) && code in h.s.dirty
    ensures At(me, h.(s := h.s.(dirty := h.s.dirty - {code})), Apply(me, R, Hit(code, h.s.dirty[code], me), v), c)
  {}

  lemma TailAt(me: int, h: Hist, R: Folded, r: Record, v: string, c: string)
    requires At(me, h, R, c) && Enabled(me, h, Tail(r, v))
    ensures At(me, Act(me, h, Tail(r, v)), R, c)
  {}

  lemma TailLogAt(me: int, h: Hist, R: Folded, y: Since, r: Record, v: string, c: string)
    requires At(me, h, R, c) && LogAt(me, h, y, c) && Enabled(me, h, Tail(r, v))
    ensures LogAt(me, Act(me, h, Tail(r, v)), y, c)
  {}

  lemma TickAt(me: int, h: Hist, R: Folded, c: string)
    requires At(me, h, R, c)
    ensures At(me, h.(k := h.k + 1), R, c)
  {}

  // ---------- the effect of a record on the files ----------

  /** Pushing a printed record applies it to the replayed files. */
  lemma FilesPush(me: int, s: State, r: Record, victim: Victim) returns (v: string)
    requires Whole(s) && Printable(r)
    ensures var s' := Pushed(s, Print(r) + [NL]);
            && Whole(s') && FilesOf(me, s', victim) == Apply(me, FilesOf(me, s, victim), r, v)
            && forall c :: SinceIn(LogOf(s'), c) == SinceStep(SinceIn(LogOf(s), c), r, c)
  {
    hide Print, Records, Log.Tail, Fold, Apply, SinceAfter, SinceStep;
    var log, recs := LogOf(s), Records(s.snap) + Records(LogOf(s));
    RecordsPush(log, r);
    assert LogOf(Pushed(s, Print(r) + [NL])) == log + Print(r) + [NL];
    assert Records(s.snap) + (Records(log) + [r]) == recs + [r];
    FoldPush(me, EmptyFold, recs, r, victim);
    v := victim(|recs|);
    forall c
      ensures SinceAfter(Records(log) + [r], c) == SinceStep(SinceAfter(Records(log), c), r, c)
    {
      SincePush(Records(log), r, c);
    }
  }

  lemma FlushSame(s: State)
    ensures LogOf(FlushedIfFull(s)) == LogOf(s) && LogOf(Flushed(s)) == LogOf(s)
  {}

  /** A state that differs only in how much of the log is queued. */
  lemma Requeue(me: int, h: Hist, s: State, victim: Victim)
    requires Inv(me, h, victim)
    requires LogOf(s) == LogOf(h.s) && s == h.s.(disk := s.disk, buf := s.buf)
    ensures Inv(me, h.(s := s), victim)
  {
    hide Recovered, SinceAfter;
    forall c
      ensures At(me, h.(s := s), FilesOf(me, s, victim), c) && LogAt(me, h.(s := s), SinceIn(LogOf(s), c), c)
    {
      assert At(me, h, FilesOf(me, h.s, victim), c) && LogAt(me, h, SinceIn(LogOf(h.s), c), c);
    }
  }

  // ---------- every step keeps the invariant ----------

  /** Creating without the queue check. */
  ghost function Insert(me: int, h: Hist, code: string, url: string, now: int, exp: int): Hist {
    h.(s := Pushed(h.s.(index := h.s.index[code := Entry(url, now, exp, me, 0, 0)]),
                   Print(Row(code, url, now, exp, me, 0)) + [NL]),
       owned := h.owned + {code})
  }

  lemma InsertInv(me: int, h: Hist, code: string, url: string, now: int, exp: int, victim: Victim)
    requires Inv(me, h, victim) && Fresh(h, code) && Int64(now) && Int64(exp) && Int32(me)
    ensures Inv(me, Insert(me, h, code, url, now, exp), victim)
  {
    hide Print, Recovered, Apply, PlainCode, IndexAt, ReplayAt, SinceIn, SinceStep, LogAt;
    var r := Row(code, url, now, exp, me, 0);
    assert Printable(r);
    var v := FilesPush(me, h.s, r, victim);
    var R, h' := FilesOf(me, h.s, victim), Insert(me, h, code, url, now, exp);
    forall c
      ensures At(me, h', FilesOf(me, h'.s, victim), c) && LogAt(me, h', SinceIn(LogOf(h'.s), c), c)
    {
      assert At(me, h, R, c) && LogAt(me, h, SinceIn(LogOf(h.s), c), c);
      CreateAt(me, h, R, v, code, url, now, exp, c);
      CreateLogAt(me, h, R, SinceIn(LogOf(h.s), c), code, url, now, exp, c);
      QueueAt(me, h'.(s := h'.s.(buf := h.s.buf)), Apply(me, R, r, v), h'.s.buf, c);
    }
  }

  lemma QueueAt(me: int, h: Hist, R: Folded, buf: string, c: string)
    requires At(me, h, R, c)
    ensures At(me, h.(s := h.s.(buf := buf)), R, c)
  {}

  lemma ShortenInv(me: int, h: Hist, code: string, url: string, now: int, exp: int, victim: Victim)
    requires Inv(me, h, victim) && Enabled(me, h, Shorten(code, url, now, exp)) && Int32(me)
    ensures Inv(me, Act(me, h, Shorten(code, url, now, exp)), victim)
  {
    hide Inv, Print;
    InsertInv(me, h, code, url, now, exp, victim);
    var h1 := Insert(me, h, code, url, now, exp);
    FlushSame(h1.s);
    Requeue(me, h1, FlushedIfFull(h1.s), victim);
  }

  ghost function InsertAll(me: int, h: Hist, codes: seq<string>, urls: seq<string>, now: int, exp: int): Hist
    requires |codes| == |urls|
  {
    if codes == [] then h else
    var k := |codes| - 1;
    Insert(me, InsertAll(me, h, codes[..k], urls[..k], now, exp), codes[k], urls[k], now, exp)
  }

  lemma {:induction false} InsertedKeys(me: int, index: Index, codes: seq<string>, urls: seq<string>, now: int, exp: int)
    requires |codes| == |urls|
    ensures Inserted(me, index, codes, urls, now, exp).Keys == index.Keys + set c | c in codes
  {
    if codes != [] {
      var k := |codes| - 1;
      InsertedKeys(me, index, codes[..k], urls[..k], now, exp);
      assert codes == codes[..k] + [codes[k]];
    }
  }

  lemma {:induction false} InsertAllShape(me: int, h: Hist, codes: seq<string>, urls: seq<string>, now: int, exp: int)
    requires |codes| == |urls|
    ensures var index := Inserted(me, h.s.index, codes, urls, now, exp);
            var buf := h.s.buf + Render(NewRows(me, codes, urls, now, exp));
            InsertAll(me, h, codes, urls, now, exp)
              == h.(s := h.s.(index := index, buf := buf), owned := h.owned + set c | c in codes)
  {
    hide Print, Render;
    if codes == [] {
      assert NewRows(me, codes, urls, now, exp) == [];
      RenderNil();
      assert h.s.buf + "" == h.s.buf;
      assert h.owned + (set c | c in codes) == h.owned;
    } else {
      var k := |codes| - 1;
      InsertAllShape(me, h, codes[..k], urls[..k], now, exp);
      var recs, r := NewRows(me, codes[..k], urls[..k], now, exp), Row(codes[k], urls[k], now, exp, me, 0);
      assert NewRows(me, codes, urls, now, exp) == recs + [r];
      RenderPush(recs, r);
      assert h.s.buf + Render(recs) + (Print(r) + [NL]) == h.s.buf + (Render(recs) + Print(r) + [NL]);
      assert codes == codes[..k] + [codes[k]];
      assert h.owned + (set c | c in codes[..k]) + {codes[k]} == h.owned + set c | c in codes;
    }
  }

  lemma FreshStep(me: int, h: Hist, codes: seq<string>, urls: seq<string>, now: int, exp: int)
    requires FreshBatch(h, codes) && codes != [] && |codes| == |urls|
    ensures var k := |codes| - 1;
            FreshBatch(h, codes[..k]) && Fresh(InsertAll(me, h, codes[..k], urls[..k], now, exp), codes[k])
  {
    hide PlainCode, Inserted, InsertAll, NewRows, Render;
    var k := |codes| - 1;
    assert codes[k] in codes;
    assert forall c <- codes[..k] :: c in codes;
    InsertAllShape(me, h, codes[..k], urls[..k], now, exp);
    InsertedKeys(me, h.s.index, codes[..k], urls[..k], now, exp);
  }

  lemma {:induction false} InsertAllInv(me: int, h: Hist, codes: seq<string>, urls: seq<string>, now: int, exp: int, victim: Victim)
    requires Inv(me, h, victim) && Int32(me)
    requires |codes| == |urls| && Int64(now) && Int64(exp) && FreshBatch(h, codes)
    ensures Inv(me, InsertAll(me, h, codes, urls, now, exp), victim)
  {
    if codes != [] {
      hide Inv, FreshBatch, Fresh, Insert;
      var k := |codes| - 1;
      FreshStep(me, h, codes, urls, now, exp);
      InsertAllInv(me, h, codes[..k], urls[..k], now, exp, victim);
      InsertInv(me, InsertAll(me, h, codes[..k], urls[..k], now, exp), codes[k], urls[k], now, exp, victim);
    }
  }

  lemma ShortenManyInv(me: int, h: Hist, codes: seq<string>, urls: seq<string>, now: int, exp: int, victim: Victim)
    requires Inv(me, h, victim) && Enabled(me, h, ShortenMany(codes, urls, now, exp)) && Int32(me)
    ensures Inv(me, Act(me, h, ShortenMany(codes, urls, now, exp)), victim)
  {
    hide Inv, Render;
    InsertAllInv(me, h, codes, urls, now, exp, victim);
    InsertAllShape(me, h, codes, urls, now, exp);
    var h1 := InsertAll(me, h, codes, urls, now, exp);
    FlushSame(h1.s);
    Requeue(me, h1, FlushedIfFull(h1.s), victim);
  }

  lemma UpdateInv(me: int, h: Hist, code: string, url: string, exp: int, victim: Victim)
    requires Inv(me, h, victim) && Enabled(me, h, Update(code, url, exp)) && Int32(me)
    ensures Inv(me, Act(me, h, Update(code, url, exp)), victim)
  {
    hide Print, Recovered, Apply, PlainCode, ReplayAt, SinceIn;
    var R, h' := FilesOf(me, h.s, victim), Act(me, h, Update(code, url, exp));
    assert At(me, h, R, code);
    var r := Row(code, url, h.s.index[code].created, exp, me, 0);
    assert Printable(r);
    var v := FilesPush(me, h.s, r, victim);
    forall c
      ensures At(me, h', FilesOf(me, h'.s, victim), c) && LogAt(me, h', SinceIn(LogOf(h'.s), c), c)
    {
      hide IndexAt;
      assert At(me, h, R, c) && LogAt(me, h, SinceIn(LogOf(h.s), c), c);
      UpdateAt(me, h, R, v, code, url, exp, c);
      QueueAt(me, h'.(s := h'.s.(buf := h.s.buf)), Apply(me, R, r, v), h'.s.buf, c);
    }
  }

  lemma RemoveInv(me: int, h: Hist, code: string, victim: Victim)
    requires Inv(me, h, victim) && Enabled(me, h, Remove(code)) && Int32(me)
    ensures Inv(me, Act(me, h, Remove(code)), victim)
  {
    hide Print, Recovered, Apply, PlainCode, ReplayAt, SinceIn;
    var R, h' := FilesOf(me, h.s, victim), Act(me, h, Remove(code));
    assert At(me, h, R, code);
    assert Printable(Del(code));
    var v := FilesPush(me, h.s, Del(code), victim);
    forall c
      ensures At(me, h', FilesOf(me, h'.s, victim), c) && LogAt(me, h', SinceIn(LogOf(h'.s), c), c)
    {
      hide IndexAt;
      assert At(me, h, R, c) && LogAt(me, h, SinceIn(LogOf(h.s), c), c);
      RemoveAt(me, h, R, v, code, c);
      QueueAt(me, h'.(s := h'.s.(buf := h.s.buf)), Apply(me, R, Del(code), v), h'.s.buf, c);
    }
  }

  // ---------- flushing ----------

  /** The dirty counters of `order` moved to the queue. */
  ghost function Collected(me: int, h: Hist, order: seq<string>): Hist
    requires forall c <- order :: c in h.s.dirty
  {
    h.(s := Pushed(h.s.(dirty := h.s.dirty - set c | c in order), Render(HitRecords(me, h.s.dirty, order))))
  }

  lemma CollectStep(me: int, h: Hist, order: seq<string>, code: string)
    requires forall c <- order + [code] :: c in h.s.dirty
    requires code !in order
    ensures forall c <- order :: c in (order + [code])
    ensures code in Collected(me, h, order).s.dirty
    ensures var h1 := Collected(me, h, order);
            var rest := h1.s.(dirty := h1.s.dirty - {code});
            Collected(me, h, order + [code]) == h1.(s := Pushed(rest, Print(Hit(code, h.s.dirty[code], me)) + [NL]))
  {
    hide Print;
    var recs, r := HitRecords(me, h.s.dirty, order), Hit(code, h.s.dirty[code], me);
    assert HitRecords(me, h.s.dirty, order + [code]) == recs + [r];
    RenderPush(recs, r);
    assert h.s.buf + Render(recs) + (Print(r) + [NL]) == h.s.buf + (Render(recs) + Print(r) + [NL]);
    assert h.s.dirty - (set c | c in order) - {code} == h.s.dirty - set c | c in order + [code];
  }

  lemma FlushOneInv(me: int, h: Hist, code: string, victim: Victim)
    requires Inv(me, h, victim) && code in h.s.dirty && Int32(me) && h.k <= INT64_MAX
    ensures Inv(me, h.(s := Pushed(h.s.(dirty := h.s.dirty - {code}), Print(Hit(code, h.s.dirty[code], me)) + [NL])), victim)
  {
    hide Print, Recovered, Apply, PlainCode, SinceIn;
    var R := FilesOf(me, h.s, victim);
    var r := Hit(code, h.s.dirty[code], me);
    var h' := h.(s := Pushed(h.s.(dirty := h.s.dirty - {code}), Print(r) + [NL]));
    assert At(me, h, R, code);
    assert Printable(r);
    var v := FilesPush(me, h.s, r, victim);
    forall c
      ensures At(me, h', FilesOf(me, h'.s, victim), c) && LogAt(me, h', SinceIn(LogOf(h'.s), c), c)
    {
      hide IndexAt, ReplayAt;
      assert At(me, h, R, c) && LogAt(me, h, SinceIn(LogOf(h.s), c), c);
      FlushAt(me, h, R, v, code, c);
      QueueAt(me, h'.(s := h'.s.(buf := h.s.buf)), Apply(me, R, r, v), h'.s.buf, c);
    }
  }

  lemma {:induction false} CollectInv(me: int, h: Hist, order: seq<string>, victim: Victim)
    requires Inv(me, h, victim) && Int32(me) && h.k <= INT64_MAX
    requires forall c <- order :: c in h.s.dirty
    requires forall i, j | 0 <= i < j < |order| :: order[i] != order[j]
    ensures Inv(me, Collected(me, h, order), victim)
  {
    hide Inv, Print, Render;
    if order == [] {
      assert HitRecords(me, h.s.dirty, order) == [];
      RenderNil();
      assert h.s.dirty - (set c | c in order) == h.s.dirty;
      assert h.s.buf + "" == h.s.buf;
    } else {
      var o, code := order[..|order| - 1], order[|order| - 1];
      assert order == o + [code];
      assert code !in o;
      CollectInv(me, h, o, victim);
      CollectStep(me, h, o, code);
      FlushOneInv(me, Collected(me, h, o), code, victim);
    }
  }

  lemma FlushInv(me: int, h: Hist, order: seq<string>, victim: Victim)
    requires Inv(me, h, victim) && Enabled(me, h, Flush(order)) && Int32(me) && h.k <= INT64_MAX
    ensures Inv(me, Act(me, h, Flush(order)), victim)
  {
    hide Inv, Render;
    CollectInv(me, h, order, victim);
    var h1 := Collected(me, h, order);
    assert h1.s.dirty == map[];
    FlushSame(h1.s);
    Requeue(me, h1, Flushed(h1.s), victim);
  }

  // ---------- compaction ----------

  lemma {:induction false} SnapSums(me: int, index: Index, keys: seq<string>, c: string)
    requires forall k <- keys :: k in index
    requires forall i, j | 0 <= i < j < |keys| :: keys[i] != keys[j]
    ensures var recs := SnapRecords(me, index, keys);
            && RowCount(recs, c) == (if c in keys then 1 else 0)
            && RowHits(recs, c) == (if c in keys then index[c].oh else 0)
            && HitSum(recs, c) == 0 && OwnSum(me, recs, c) == 0
            && LinkAfter(None, recs, c) == if c in keys then Some(Link(index[c].url, index[c].created, index[c].expiry, me)) else None
  {
    if keys == [] {
      assert SnapRecords(me, index, keys) == [];
    } else {
      hide RowCount, RowHits, HitSum, OwnSum, LinkAfter;
      var o, code := keys[..|keys| - 1], keys[|keys| - 1];
      assert keys == o + [code];
      assert forall k <- o :: k in keys;
      assert code in keys;
      SnapSums(me, index, o, c);
      var e := index[code];
      var r := Row(code, e.url, e.created, e.expiry, me, e.oh);
      assert SnapRecords(me, index, keys) == SnapRecords(me, index, o) + [r];
      PushRecord(me, SnapRecords(me, index, o), r, c);
    }
  }

  /** The snapshot alone replays to the own links with their own hits, and no strays. */
  lemma SnapReplay(me: int, index: Index, keys: seq<string>, victim: Victim, c: string)
    requires Enumerates(keys, OwnCodes(me, index))
    ensures var R := Replayed(me, SnapRecords(me, index, keys), victim);
            && LinkOf(R.index, c) == OwnLink(me, index, c)
            && c !in R.stray
            && (c in R.index ==> R.index[c].h == index[c].oh && R.index[c].oh == index[c].oh)
  {
    hide RowCount, RowHits, HitSum, OwnSum, LinkAfter, Fold;
    var recs := SnapRecords(me, index, keys);
    assert forall k <- keys :: k in index && index[k].owner == me;
    SnapSums(me, index, keys, c);
    assert HitCodes(recs) == {};
    FoldCounts(me, recs, victim, c);
    FoldLink(me, EmptyFold, recs, victim, c);
    StrayBound(me, recs, victim);
  }

  lemma SnapFile(me: int, h: Hist, keys: seq<string>, victim: Victim)
    requires Inv(me, h, victim) && Int32(me) && h.k <= INT64_MAX && Enumerates(keys, OwnCodes(me, h.s.index))
    ensures var snap := Render(SnapRecords(me, h.s.index, keys));
            Records(snap) == SnapRecords(me, h.s.index, keys) && Log.Tail(snap) == ""
  {
    hide Records, Log.Tail, Recovered, PlainCode, ReplayAt, Render;
    var recs := SnapRecords(me, h.s.index, keys);
    forall r <- recs
      ensures Printable(r)
    {
      var k :| 0 <= k < |recs| && recs[k] == r;
      assert keys[k] in keys;
      assert At(me, h, FilesOf(me, h.s, victim), keys[k]);
    }
    UnbrokenLine("");
    EmptyFile();
    RecordsRender("", recs);
    assert "" + Render(recs) == Render(recs);
  }

  lemma AllRows(me: int, index: Index, keys: seq<string>)
    requires forall k <- keys :: k in index
    ensures forall r <- SnapRecords(me, index, keys) :: r.Row?
  {}

  lemma CompactInv(me: int, h: Hist, order: seq<string>, keys: seq<string>, victim: Victim)
    requires Inv(me, h, victim) && Enabled(me, h, Compact(order, keys)) && Int32(me) && h.k <= INT64_MAX
    ensures Inv(me, Act(me, h, Compact(order, keys)), victim)
  {
    hide Records, Log.Tail, Replayed, SnapRecords, PlainCode, Render;
    var h', recs := Act(me, h, Compact(order, keys)), SnapRecords(me, h.s.index, keys);
    SnapFile(me, h, keys, victim);
    assert SnapRows(h'.s.snap) by { AllRows(me, h.s.index, keys); }
    UnbrokenLine("");
    EmptyFile();
    assert LogOf(h'.s) == "";
    assert recs + [] == recs;
    assert FilesOf(me, h'.s, victim) == Replayed(me, recs, victim);
    forall c
      ensures At(me, h', FilesOf(me, h'.s, victim), c) && LogAt(me, h', SinceIn(LogOf(h'.s), c), c)
    {
      assert At(me, h, FilesOf(me, h.s, victim), c);
      SnapReplay(me, h.s.index, keys, victim, c);
    }
  }

  // ---------- reopening ----------

  lemma ReopenAt(me: int, h: Hist, R: Folded, R': Folded, c: string)
    requires At(me, h, R, c) && At(me, h, R', c)
    ensures At(me, h.(s := h.s.(index := R'.index, stray := R'.stray, dirty := map[])), R, c)
  {}

  lemma ReopenLogAt(me: int, h: Hist, R: Folded, y: Since, c: string)
    requires At(me, h, R, c) && LogAt(me, h, y, c)
    ensures LogAt(me, h.(s := h.s.(index := R.index, stray := R.stray, dirty := map[])), y, c)
  {}

  lemma ReopenInv(me: int, h: Hist, v: Victim, victim: Victim)
    requires Inv(me, h, victim) && Inv(me, h, v)
    ensures Inv(me, Act(me, h, Reopen(v)), victim)
  {
    hide Recovered, IndexAt, ReplayAt, SinceAfter;
    var R, R' := FilesOf(me, h.s, victim), FilesOf(me, h.s, v);
    var h' := Act(me, h, Reopen(v));
    FlushSame(h.s);
    assert LogOf(h'.s) == LogOf(h.s);
    forall c
      ensures At(me, h', FilesOf(me, h'.s, victim), c) && LogAt(me, h', SinceIn(LogOf(h'.s), c), c)
    {
      assert At(me, h, R, c) && At(me, h, R', c) && LogAt(me, h, SinceIn(LogOf(h.s), c), c);
      ReopenLogAt(me, h, R', SinceIn(LogOf(h.s), c), c);
      ReopenAt(me, h, R, R', c);
      FileAt(me, h.(s := h.s.(index := R'.index, stray := R'.stray, dirty := map[])), R, h'.s.disk, h'.s.buf, c);
    }
  }

  lemma FileAt(me: int, h: Hist, R: Folded, disk: string, buf: string, c: string)
    requires At(me, h, R, c)
    ensures At(me, h.(s := h.s.(disk := disk, buf := buf)), R, c)
  {}

  // ---------- whole runs ----------

  lemma PointwiseInv(me: int, h: Hist, h': Hist, victim: Victim)
    requires Inv(me, h, victim) && h'.s.snap == h.s.snap && h'.s.disk == h.s.disk && h'.s.buf == h.s.buf
    requires forall c :: At(me, h, FilesOf(me, h.s, victim), c) ==> At(me, h', FilesOf(me, h.s, victim), c)
    requires forall c | At(me, h, FilesOf(me, h.s, victim), c) && LogAt(me, h, SinceIn(LogOf(h.s), c), c) ::
               LogAt(me, h', SinceIn(LogOf(h.s), c), c)
    ensures Inv(me, h', victim)
  {
    hide At, Recovered, LogAt, SinceAfter, Records;
    assert LogOf(h'.s) == LogOf(h.s);
    forall c
      ensures At(me, h', FilesOf(me, h'.s, victim), c) && LogAt(me, h', SinceIn(LogOf(h'.s), c), c)
    {
      assert At(me, h, FilesOf(me, h.s, victim), c) && LogAt(me, h, SinceIn(LogOf(h.s), c), c);
    }
  }

  lemma TickInv(me: int, h: Hist, victim: Victim)
    requires Inv(me, h, victim)
    ensures Inv(me, h.(k := h.k + 1), victim)
  {
    hide Inv, IndexAt, ReplayAt, Recovered;
    forall c | At(me, h, FilesOf(me, h.s, victim), c)
      ensures At(me, h.(k := h.k + 1), FilesOf(me, h.s, victim), c)
    {
      TickAt(me, h, FilesOf(me, h.s, victim), c);
    }
    PointwiseInv(me, h, h.(k := h.k + 1), victim);
  }

  lemma ResolveInv(me: int, h: Hist, code: string, victim: Victim)
    requires Inv(me, h, victim) && code in h.s.index
    ensures Inv(me, h.(s := Resolved(h.s, code), k := h.k + 1), victim)
  {
    hide Inv, IndexAt, ReplayAt, LogAt, Recovered, SinceAfter, InSnap;
    var h' := h.(s := Resolved(h.s, code), k := h.k + 1);
    forall c | At(me, h, FilesOf(me, h.s, victim), c)
      ensures At(me, h', FilesOf(me, h.s, victim), c)
    {
      ResolveAt(me, h, FilesOf(me, h.s, victim), code, c);
    }
    forall c | At(me, h, FilesOf(me, h.s, victim), c) && LogAt(me, h, SinceIn(LogOf(h.s), c), c)
      ensures LogAt(me, h', SinceIn(LogOf(h.s), c), c)
    {
      HeldInFiles(me, h, victim, c);
      ResolveLogAt(me, h, FilesOf(me, h.s, victim), SinceIn(LogOf(h.s), c), code, c);
    }
    PointwiseInv(me, h, h', victim);
  }

  lemma TailInv(me: int, h: Hist, r: Record, v: string, victim: Victim)
    requires Inv(me, h, victim) && Enabled(me, h, Tail(r, v))
    ensures Inv(me, Act(me, h, Tail(r, v)), victim)
  {
    hide Inv, IndexAt, ReplayAt, LogAt, Recovered, Apply;
    var h' := Act(me, h, Tail(r, v));
    forall c | At(me, h, FilesOf(me, h.s, victim), c)
      ensures At(me, h', FilesOf(me, h.s, victim), c)
    {
      TailAt(me, h, FilesOf(me, h.s, victim), r, v, c);
    }
    forall c | At(me, h, FilesOf(me, h.s, victim), c) && LogAt(me, h, SinceIn(LogOf(h.s), c), c)
      ensures LogAt(me, h', SinceIn(LogOf(h.s), c), c)
    {
      TailLogAt(me, h, FilesOf(me, h.s, victim), SinceIn(LogOf(h.s), c), r, v, c);
    }
    PointwiseInv(me, h, h', victim);
  }

  lemma StepInv(me: int, h: Hist, step: Step, victim: Victim)
    requires Int32(me) && h.k <= INT64_MAX && forall v :: Inv(me, h, v)
    ensures Inv(me, Next(me, h, step), victim)
  {
    hide Inv, Created, CreatedMany, Updated, Removed, HitsFlushed, Compacted, Tailed, Reopened;
    assert Inv(me, h, victim);
    if Enabled(me, h, step) {
      match step {
        case Shorten(code, url, now, exp) => ShortenInv(me, h, code, url, now, exp, victim);
        case ShortenMany(codes, urls, now, exp) => ShortenManyInv(me, h, codes, urls, now, exp, victim);
        case Update(code, url, exp) => UpdateInv(me, h, code, url, exp, victim);
        case Remove(code) => RemoveInv(me, h, code, victim);
        case Resolve(code, now) => ResolveInv(me, h, code, victim); return;
        case Flush(order) => FlushInv(me, h, order, victim);
        case Compact(order, keys) => CompactInv(me, h, order, keys, victim);
        case Tail(r, v) => TailInv(me, h, r, v, victim);
        case Reopen(v) => assert Inv(me, h, v); ReopenInv(me, h, v, victim);
      }
      TickInv(me, Act(me, h, step), victim);
    } else {
      TickInv(me, h, victim);
    }
  }

  lemma InitialInv(me: int, victim: Victim)
    ensures Inv(me, Initial, victim)
  {
    UnbrokenLine("");
    EmptyFile();
    assert FilesOf(me, Initial.s, victim) == EmptyFold;
  }

  lemma {:induction false} RunInv(me: int, steps: seq<Step>, victim: Victim)
    requires Int32(me) && |steps| <= INT64_MAX
    ensures Inv(me, Run(me, steps), victim) && Run(me, steps).k == |steps|
  {
    hide Inv, Enabled, Act;
    if steps == [] {
      InitialInv(me, victim);
    } else {
      var h := Run(me, steps[..|steps| - 1]);
      forall v
        ensures Inv(me, h, v) && h.k == |steps| - 1
      {
        RunInv(me, steps[..|steps| - 1], v);
      }
      RunInv(me, steps[..|steps| - 1], victim);
      StepInv(me, h, steps[|steps| - 1], victim);
    }
  }

  /**
   Index/log agreement: after every run, replaying snapshot then log (file and queue)
   rebuilds exactly the instance's own links, and for codes not updated or removed since
   the last compaction the replayed hits plus the dirty counter are the own hits; without
   siblings these are all hits.
   */
  lemma AgreementOverRuns(me: int, steps: seq<Step>, victim: Victim, c: string)
    requires Int32(me) && |steps| <= INT64_MAX
    ensures var h := Run(me, steps);
            var R := Recovered(me, h.s.snap, LogOf(h.s), victim).index;
            && LinkOf(R, c) == OwnLink(me, h.s.index, c)
            && (c in R && c !in h.touched ==>
                  && R[c].h + DirtyOf(h.s.dirty, c) == h.s.index[c].oh
                  && (h.alone ==> h.s.index[c].h == h.s.index[c].oh))
  {
    hide Run, Recovered;
    RunInv(me, steps, victim);
    var h := Run(me, steps);
    assert At(me, h, FilesOf(me, h.s, victim), c);
  }
}
