/**
 How far the replayed hits of a code are from its own hits, over every run: an
 update logs a row with counter 0 and a removed code leaves its waiting hits
 behind, and nothing else but an eviction ever moves the two apart.
 */
module HitDrift {
  import opened Common
  import opened Text
  import opened Codec
  import opened Log
  import opened Replay
  import opened Store
  import opened Agreement

  /**
   What the own hits of `c` exceed the replayed hits and the dirty counter by.  It is set when
   the code is updated or created, cleared by a compaction, kept by everything else; a restart
   makes the replayed hits the own ones, so that only other evictions can be left.
   */
  ghost function Shortfall(me: int, steps: seq<Step>, victim: Victim, c: string): int {
    if steps == [] then 0 else
    var h, z := Run(me, steps[..|steps| - 1]), Shortfall(me, steps[..|steps| - 1], victim, c);
    ShortfallStep(me, h, steps[|steps| - 1], victim, z, c)
  }

  ghost function ShortfallStep(me: int, h: Hist, step: Step, victim: Victim, z: int, c: string): int {
    if !Enabled(me, h, step) then z else
    match step
    case Shorten(code, _, _, _) => if code == c then -Left(me, h, victim, c) else z
    case ShortenMany(codes, _, _, _) => if c in codes then -Left(me, h, victim, c) else z
    case Update(code, _, _) => if code == c then OwnHits(h.s.index, c) - DirtyOf(h.s.dirty, c) else z
    case Compact(_, _) => 0
    case Reopen(v) => OwnHits(FilesOf(me, h.s, v).index, c) - OwnHits(FilesOf(me, h.s, victim).index, c)
    case _ => z
  }

  /** Hits of a removed code still waiting: dirty, or stray in the files. */
  ghost function Left(me: int, h: Hist, victim: Victim, c: string): int {
    DirtyOf(h.s.dirty, c) + StrayOf(FilesOf(me, h.s, victim).stray, c).o
  }

  /** The replayed hits, the dirty counter and the shortfall make up the own hits. */
  ghost predicate Balanced(me: int, h: Hist, victim: Victim, z: int, c: string) {
    OwnLink(me, h.s.index, c).Some? ==>
      var R := FilesOf(me, h.s, victim).index;
      c in R && R[c].h + DirtyOf(h.s.dirty, c) + z == h.s.index[c].oh
  }

  // ---------- creating ----------

  /** A new row starts with the stray hits of its code. */
  ghost predicate Starts(R: Folded, R': Folded, c: string) {
    c in R'.index && R'.index[c].h == StrayOf(R.stray, c).o
  }

  ghost predicate Untouched(R: Folded, R': Folded, c: string) {
    && (c in R'.index <==> c in R.index) && (c in R.index ==> R'.index[c] == R.index[c])
    && StrayOf(R'.stray, c) == StrayOf(R.stray, c)
  }

  /** One inserted row: what it makes of the files, for its own code and for others. */
  lemma InsertFiles(me: int, h: Hist, code: string, url: string, now: int, exp: int, victim: Victim, c: string)
    requires Inv(me, h, victim) && Fresh(h, code) && Int64(now) && Int64(exp) && Int32(me)
    ensures var R, R' := FilesOf(me, h.s, victim), FilesOf(me, Insert(me, h, code, url, now, exp).s, victim);
            if c == code then Starts(R, R', c) else Untouched(R, R', c)
  {
    hide Print, Recovered, PlainCode, IndexAt;
    var r := Row(code, url, now, exp, me, 0);
    assert Printable(r);
    var v := FilesPush(me, h.s, r, victim);
    assert At(me, h, FilesOf(me, h.s, victim), code);
    assert FilesOf(me, Insert(me, h, code, url, now, exp).s, victim) == Apply(me, FilesOf(me, h.s, victim), r, v);
  }

  lemma {:induction false} InsertAllFiles(me: int, h: Hist, codes: seq<string>, urls: seq<string>, now: int, exp: int, victim: Victim, c: string)
    requires Inv(me, h, victim) && Int32(me)
    requires |codes| == |urls| && Int64(now) && Int64(exp) && FreshBatch(h, codes)
    ensures var R, R' := FilesOf(me, h.s, victim), FilesOf(me, InsertAll(me, h, codes, urls, now, exp).s, victim);
            if c in codes then Starts(R, R', c) else Untouched(R, R', c)
  {
    hide Inv, FreshBatch, Fresh, Insert, FilesOf, Starts, Untouched;
    var h2 := InsertAll(me, h, codes, urls, now, exp);
    if codes == [] {
      UntouchedSelf(FilesOf(me, h.s, victim), c);
    } else {
      var k := |codes| - 1;
      var h1 := InsertAll(me, h, codes[..k], urls[..k], now, exp);
      assert h2 == Insert(me, h1, codes[k], urls[k], now, exp);
      FreshStep(me, h, codes, urls, now, exp);
      InsertAllInv(me, h, codes[..k], urls[..k], now, exp, victim);
      InsertAllFiles(me, h, codes[..k], urls[..k], now, exp, victim, c);
      hide InsertAll;
      InsertFiles(me, h1, codes[k], urls[k], now, exp, victim, c);
      LastIsNew(h, codes);
      FilesTwice(FilesOf(me, h.s, victim), FilesOf(me, h1.s, victim), FilesOf(me, h2.s, victim), codes, c);
    }
  }

  lemma UntouchedSelf(R: Folded, c: string)
    ensures Untouched(R, R, c)
  {}

  lemma FilesTwice(R: Folded, R1: Folded, R2: Folded, codes: seq<string>, c: string)
    requires codes != [] && codes[|codes| - 1] !in codes[..|codes| - 1]
    requires if c in codes[..|codes| - 1] then Starts(R, R1, c) else Untouched(R, R1, c)
    requires if c == codes[|codes| - 1] then Starts(R1, R2, c) else Untouched(R1, R2, c)
    ensures if c in codes then Starts(R, R2, c) else Untouched(R, R2, c)
  {
    assert c in codes <==> c in codes[..|codes| - 1] || c == codes[|codes| - 1];
  }

  lemma LastIsNew(h: Hist, codes: seq<string>)
    requires FreshBatch(h, codes) && codes != []
    ensures codes[|codes| - 1] !in codes[..|codes| - 1]
  {}

  lemma ShortenBalanced(me: int, h: Hist, code: string, url: string, now: int, exp: int, victim: Victim, z: int, c: string)
    requires Inv(me, h, victim) && Balanced(me, h, victim, z, c) && Int32(me) && Enabled(me, h, Shorten(code, url, now, exp))
    ensures var step := Shorten(code, url, now, exp);
            Balanced(me, Act(me, h, step), victim, ShortfallStep(me, h, step, victim, z, c), c)
  {
    hide Print, Recovered, PlainCode, Inv;
    InsertFiles(me, h, code, url, now, exp, victim, c);
    FlushSame(Insert(me, h, code, url, now, exp).s);
  }

  lemma ShortenManyBalanced(me: int, h: Hist, codes: seq<string>, urls: seq<string>, now: int, exp: int, victim: Victim, z: int, c: string)
    requires Inv(me, h, victim) && Balanced(me, h, victim, z, c) && Int32(me) && Enabled(me, h, ShortenMany(codes, urls, now, exp))
    ensures var step := ShortenMany(codes, urls, now, exp);
            Balanced(me, Act(me, h, step), victim, ShortfallStep(me, h, step, victim, z, c), c)
  {
    hide Recovered, Render, Inv, FreshBatch, NewRows, Inserted, InsertAll;
    InsertAllFiles(me, h, codes, urls, now, exp, victim, c);
    InsertAllShape(me, h, codes, urls, now, exp);
    FlushSame(InsertAll(me, h, codes, urls, now, exp).s);
    InsertedEntry(me, h.s.index, codes, urls, now, exp, c);
  }

  lemma {:induction false} InsertedEntry(me: int, index: Index, codes: seq<string>, urls: seq<string>, now: int, exp: int, c: string)
    requires |codes| == |urls|
    ensures var index' := Inserted(me, index, codes, urls, now, exp);
            if c in codes then c in index' && index'[c].oh == 0
            else (c in index' <==> c in index) && (c in index ==> index'[c] == index[c])
  {
    if codes != [] {
      var k := |codes| - 1;
      InsertedEntry(me, index, codes[..k], urls[..k], now, exp, c);
      assert c in codes <==> c in codes[..k] || c == codes[k];
    }
  }

  // ---------- updating and removing ----------

  lemma UpdateBalanced(me: int, h: Hist, code: string, url: string, exp: int, victim: Victim, z: int, c: string)
    requires Inv(me, h, victim) && Balanced(me, h, victim, z, c) && Int32(me) && Enabled(me, h, Update(code, url, exp))
    ensures var step := Update(code, url, exp);
            Balanced(me, Act(me, h, step), victim, ShortfallStep(me, h, step, victim, z, c), c)
  {
    hide Print, Recovered, PlainCode;
    assert At(me, h, FilesOf(me, h.s, victim), code);
    var v := FilesPush(me, h.s, Row(code, url, h.s.index[code].created, exp, me, 0), victim);
  }

  lemma RemoveBalanced(me: int, h: Hist, code: string, victim: Victim, z: int, c: string)
    requires Inv(me, h, victim) && Balanced(me, h, victim, z, c) && Int32(me) && Enabled(me, h, Remove(code))
    ensures Balanced(me, Act(me, h, Remove(code)), victim, z, c)
  {
    hide Print, Recovered, PlainCode;
    assert At(me, h, FilesOf(me, h.s, victim), code);
    var v := FilesPush(me, h.s, Del(code), victim);
  }

  // ---------- flushing ----------

  lemma FlushOneFiles(me: int, h: Hist, code: string, victim: Victim, c: string)
    requires Inv(me, h, victim) && code in h.s.dirty && Int32(me) && h.k <= INT64_MAX
    ensures var s' := Pushed(h.s.(dirty := h.s.dirty - {code}), Print(Hit(code, h.s.dirty[code], me)) + [NL]);
            var R, R' := FilesOf(me, h.s, victim).index, FilesOf(me, s', victim).index;
            c in R ==> c in R' && R'[c].h + DirtyOf(s'.dirty, c) == R[c].h + DirtyOf(h.s.dirty, c)
  {
    hide Print, Recovered, PlainCode, IndexAt;
    var R, r := FilesOf(me, h.s, victim), Hit(code, h.s.dirty[code], me);
    assert At(me, h, R, code);
    assert Printable(r) by { DirtyPlain(me, h, victim, code); }
    var v := FilesPush(me, h.s, r, victim);
    assert FilesOf(me, Pushed(h.s.(dirty := h.s.dirty - {code}), Print(r) + [NL]), victim) == Apply(me, R, r, v);
  }

  lemma DirtyPlain(me: int, h: Hist, victim: Victim, code: string)
    requires Inv(me, h, victim) && code in h.s.dirty && Int32(me) && h.k <= INT64_MAX
    ensures Printable(Hit(code, h.s.dirty[code], me))
  {
    hide Recovered;
    assert At(me, h, FilesOf(me, h.s, victim), code);
  }

  lemma {:induction false} CollectFiles(me: int, h: Hist, order: seq<string>, victim: Victim, c: string)
    requires Inv(me, h, victim) && Int32(me) && h.k <= INT64_MAX
    requires forall c <- order :: c in h.s.dirty
    requires forall i, j | 0 <= i < j < |order| :: order[i] != order[j]
    ensures var h' := Collected(me, h, order);
            var R, R' := FilesOf(me, h.s, victim).index, FilesOf(me, h'.s, victim).index;
            c in R ==> c in R' && R'[c].h + DirtyOf(h'.s.dirty, c) == R[c].h + DirtyOf(h.s.dirty, c)
  {
    hide Inv, Print, Render, FilesOf;
    if order == [] {
      assert HitRecords(me, h.s.dirty, order) == [];
      RenderNil();
      assert h.s.dirty - (set c | c in order) == h.s.dirty;
      assert h.s.buf + "" == h.s.buf;
    } else {
      var o, code := order[..|order| - 1], order[|order| - 1];
      assert order == o + [code];
      assert code !in o;
      CollectFiles(me, h, o, victim, c);
      CollectInv(me, h, o, victim);
      CollectStep(me, h, o, code);
      FlushOneFiles(me, Collected(me, h, o), code, victim, c);
    }
  }

  lemma FlushBalanced(me: int, h: Hist, order: seq<string>, victim: Victim, z: int, c: string)
    requires Inv(me, h, victim) && Balanced(me, h, victim, z, c) && Int32(me) && h.k <= INT64_MAX && Enabled(me, h, Flush(order))
    ensures Balanced(me, Act(me, h, Flush(order)), victim, z, c)
  {
    hide Inv, Render, Recovered, HitRecords;
    CollectFiles(me, h, order, victim, c);
    var h1 := Collected(me, h, order);
    assert h1.s.dirty == map[];
    FlushSame(h1.s);
  }

  // ---------- the rest ----------

  lemma CompactBalanced(me: int, h: Hist, order: seq<string>, keys: seq<string>, victim: Victim, c: string)
    requires Inv(me, h, victim) && Int32(me) && h.k <= INT64_MAX && Enabled(me, h, Compact(order, keys))
    ensures Balanced(me, Act(me, h, Compact(order, keys)), victim, 0, c)
  {
    hide Records, Replayed, SnapRecords, PlainCode, Render;
    var h', recs := Act(me, h, Compact(order, keys)), SnapRecords(me, h.s.index, keys);
    SnapFile(me, h, keys, victim);
    EmptyFile();
    assert LogOf(h'.s) == "" && recs + [] == recs;
    assert FilesOf(me, h'.s, victim) == Replayed(me, recs, victim);
    SnapReplay(me, h.s.index, keys, victim, c);
  }

  lemma TailBalanced(me: int, h: Hist, r: Record, v: string, victim: Victim, z: int, c: string)
    requires Inv(me, h, victim) && Balanced(me, h, victim, z, c) && Enabled(me, h, Tail(r, v))
    ensures Balanced(me, Act(me, h, Tail(r, v)), victim, z, c)
  {
    hide Recovered;
    assert At(me, h, FilesOf(me, h.s, victim), c);
  }

  lemma ReopenBalanced(me: int, h: Hist, v: Victim, victim: Victim, z: int, c: string)
    requires Inv(me, h, victim) && Inv(me, h, v)
    ensures Balanced(me, Act(me, h, Reopen(v)), victim, ShortfallStep(me, h, Reopen(v), victim, z, c), c)
  {
    hide Recovered;
    FlushSame(h.s);
    assert At(me, h, FilesOf(me, h.s, victim), c) && At(me, h, FilesOf(me, h.s, v), c);
  }

  lemma StepBalanced(me: int, h: Hist, step: Step, victim: Victim, z: int, c: string)
    requires Int32(me) && h.k <= INT64_MAX && Balanced(me, h, victim, z, c) && forall v :: Inv(me, h, v)
    ensures Balanced(me, Next(me, h, step), victim, ShortfallStep(me, h, step, victim, z, c), c)
  {
    hide Inv, Recovered, Created, CreatedMany, Updated, Removed, HitsFlushed, Compacted, Tailed, Reopened;
    assert Inv(me, h, victim);
    if Enabled(me, h, step) {
      match step {
        case Shorten(code, url, now, exp) => ShortenBalanced(me, h, code, url, now, exp, victim, z, c);
        case ShortenMany(codes, urls, now, exp) => ShortenManyBalanced(me, h, codes, urls, now, exp, victim, z, c);
        case Update(code, url, exp) => UpdateBalanced(me, h, code, url, exp, victim, z, c);
        case Remove(code) => RemoveBalanced(me, h, code, victim, z, c);
        case Resolve(code, now) =>
        case Flush(order) => FlushBalanced(me, h, order, victim, z, c);
        case Compact(order, keys) => CompactBalanced(me, h, order, keys, victim, c);
        case Tail(r, v) => TailBalanced(me, h, r, v, victim, z, c);
        case Reopen(v) => assert Inv(me, h, v); ReopenBalanced(me, h, v, victim, z, c);
      }
    }
  }

  /**
   Hit accounting over every run: for each own code, updated and created anew any number of
   times, the replayed hits, the dirty counter and the shortfall make up the own hits.  So
   the files account for the own hits exactly when the shortfall is zero, as it is for codes
   not updated or removed since the last compaction.
   */
  lemma {:induction false} HitsOverRuns(me: int, steps: seq<Step>, victim: Victim, c: string)
    requires Int32(me) && |steps| <= INT64_MAX
    ensures Balanced(me, Run(me, steps), victim, Shortfall(me, steps, victim, c), c)
    ensures OwnLink(me, Run(me, steps).s.index, c).Some? && c !in Run(me, steps).touched ==> Shortfall(me, steps, victim, c) == 0
  {
    hide Inv, Next, ShortfallStep, Recovered;
    if steps != [] {
      var k := |steps| - 1;
      var h := Run(me, steps[..k]);
      forall v
        ensures Inv(me, h, v) && h.k == k
      {
        RunInv(me, steps[..k], v);
      }
      RunInv(me, steps[..k], victim);
      HitsOverRuns(me, steps[..k], victim, c);
      StepBalanced(me, h, steps[k], victim, Shortfall(me, steps[..k], victim, c), c);
    }
    AgreementOverRuns(me, steps, victim, c);
  }

  /**
   Right after an update the replayed hits plus the dirty counter are the own hits if and only
   if every own hit is still dirty, whatever was logged, updated or lost before.
   */
  lemma UpdateHits(me: int, steps: seq<Step>, h: Hist, code: string, url: string, exp: int, victim: Victim)
    requires Int32(me) && |steps| <= INT64_MAX && h == Run(me, steps) && Enabled(me, h, Update(code, url, exp))
    ensures var h' := Act(me, h, Update(code, url, exp));
            var R' := FilesOf(me, h'.s, victim).index;
            && code in R' && R'[code].h == 0
            && (R'[code].h + DirtyOf(h'.s.dirty, code) == h'.s.index[code].oh <==> h.s.index[code].oh == DirtyOf(h.s.dirty, code))
  {
    hide Run, Print, Recovered;
    RunInv(me, steps, victim);
    assert At(me, h, FilesOf(me, h.s, victim), code);
    var v := FilesPush(me, h.s, Row(code, url, h.s.index[code].created, exp, me, 0), victim);
  }

  /**
   `remove` leaves the dirty counter behind, and a code created anew starts with replayed hits
   plus dirty equal to its own hits (none) if and only if neither a dirty counter nor a stray
   hit of it is left.
   */
  lemma RecreateHits(me: int, steps: seq<Step>, h: Hist, code: string, url: string, now: int, exp: int, victim: Victim)
    requires Int32(me) && |steps| <= INT64_MAX && h == Run(me, steps)
    requires Enabled(me, h, Shorten(code, url, now, exp))
    ensures var h' := Act(me, h, Shorten(code, url, now, exp));
            var R, R' := FilesOf(me, h.s, victim), FilesOf(me, h'.s, victim).index;
            && code in R' && h'.s.index[code].oh == 0
            && (R'[code].h + DirtyOf(h'.s.dirty, code) == 0 <==>
                  DirtyOf(h.s.dirty, code) == 0 && StrayOf(R.stray, code).o == 0)
  {
    hide Run, Print, Recovered;
    RunInv(me, steps, victim);
    assert At(me, h, FilesOf(me, h.s, victim), code);
    var v := FilesPush(me, h.s, Row(code, url, now, exp, me, 0), victim);
    FlushSame(Insert(me, h, code, url, now, exp).s);
  }
}
