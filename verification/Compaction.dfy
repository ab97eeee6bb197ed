/**
 Crashes during a compaction (src/store.cpp:600-628): it flushes the queue and
 the dirty counters, writes the own rows to a temporary file, renames that over
 the snapshot, and truncates the log.
 */
module Compaction {
  import opened Text
  import opened Codec
  import opened Log
  import opened Replay
  import opened Store
  import opened Agreement
  import opened HitDrift

  /** Where the process dies: after `cut` bytes of the flush, before the rename, before the truncation, or after it. */
  datatype CrashPoint = InFlush(cut: nat) | FlushDone | Renamed | Truncated

  /** The iteration orders of the dirty counters and of the own rows. */
  ghost predicate Ready(me: int, h: Hist, order: seq<string>, keys: seq<string>) {
    Enumerates(order, h.s.dirty.Keys) && Enumerates(keys, OwnCodes(me, h.s.index))
  }

  /** The history after the flush. */
  ghost function AtFlush(me: int, h: Hist, order: seq<string>): Hist
    requires Enumerates(order, h.s.dirty.Keys)
  {
    h.(s := HitsFlushed(me, h.s, order))
  }

  /** The bytes the flush appends: the queue, then the hit lines. */
  ghost function FlushBytes(me: int, s: State, order: seq<string>): string
    requires Enumerates(order, s.dirty.Keys)
  {
    s.buf + Render(HitRecords(me, s.dirty, order))
  }

  /** The snapshot and the log left on disk; a temporary snapshot file is never read. */
  ghost function FilesAt(me: int, s: State, order: seq<string>, keys: seq<string>, p: CrashPoint): (string, string)
    requires Enumerates(order, s.dirty.Keys) && Enumerates(keys, OwnCodes(me, s.index))
    requires p.InFlush? ==> p.cut <= |FlushBytes(me, s, order)|
  {
    match p
    case InFlush(cut) => (s.snap, s.disk + FlushBytes(me, s, order)[..cut])
    case FlushDone => (s.snap, HitsFlushed(me, s, order).disk)
    case Renamed => (Compacted(me, s, order, keys).snap, HitsFlushed(me, s, order).disk)
    case Truncated => (Compacted(me, s, order, keys).snap, Compacted(me, s, order, keys).disk)
  }

  // ---------- inside the flush ----------

  /** A prefix of a file holds a prefix of its records. */
  lemma RecordsPrefix(file: string, cut: nat)
    requires cut <= |file|
    ensures var k := |Records(file[..cut])|; k <= |Records(file)| && Records(file[..cut]) == Records(file)[..k]
  {
    hide Records, ReadLines, Lines, Log.Tail;
    assert file[..cut] + file[cut..] == file;
    RecordsAppend(file[..cut], file[cut..]);
  }

  lemma HitsPrintable(me: int, h: Hist, order: seq<string>, victim: Victim)
    requires Inv(me, h, victim) && Int32(me) && h.k <= INT64_MAX && Enumerates(order, h.s.dirty.Keys)
    ensures AllPrintable(HitRecords(me, h.s.dirty, order))
  {
    hide Inv, Printable;
    var recs := HitRecords(me, h.s.dirty, order);
    forall r <- recs
      ensures Printable(r)
    {
      var k :| 0 <= k < |recs| && recs[k] == r;
      assert order[k] in order;
      DirtyPlain(me, h, victim, order[k]);
    }
  }

  /** A cut among the hit lines loses only hits. */
  lemma LateCut(me: int, h: Hist, order: seq<string>, cut: nat, victim: Victim, c: string)
    requires Inv(me, h, victim) && Int32(me) && h.k <= INT64_MAX && Enumerates(order, h.s.dirty.Keys)
    requires |h.s.buf| <= cut <= |FlushBytes(me, h.s, order)|
    ensures var all, kept := Records(h.s.disk + FlushBytes(me, h.s, order)), Records(h.s.disk + FlushBytes(me, h.s, order)[..cut]);
            |kept| <= |all| && !Mentions(all[|kept|..], c)
  {
    hide Records, Render, Lines, ReadLines, Log.Tail, Recovered, Newlines, At, LogAt, SinceIn, SnapRows;
    var hits, base := HitRecords(me, h.s.dirty, order), LogOf(h.s);
    var n := cut - |h.s.buf|;
    var text := Render(hits);
    HitsPrintable(me, h, order, victim);
    assert h.s.disk + FlushBytes(me, h.s, order) == base + text;
    assert h.s.disk + FlushBytes(me, h.s, order)[..cut] == base + text[..n];
    RecordsOnWhole(base, text);
    RecordsOnWhole(base, text[..n]);
    CrashPrefix(hits, n);
    CrashPrefix(hits, |text|);
    RenderNewlines(hits);
    assert text[..|text|] == text;
    var m := Newlines(text[..n]);
    assert (Records(base) + hits)[|Records(base)| + m..] == hits[m..];
    assert forall r <- hits[m..] :: r.Hit?;
  }

  lemma RecordsOnWhole(base: string, more: string)
    requires Log.Tail(base) == ""
    ensures Records(base + more) == Records(base) + Records(more)
  {
    hide ReadLines, Lines, Log.Tail;
    RecordsAppend(base, more);
    assert "" + more == more;
  }

  /** Records that are lost but do not decide `c` leave its link right. */
  lemma LostLink(me: int, snap: string, all: string, cut: nat, victim: Victim, c: string)
    requires cut <= |all|
    requires var k := |Records(all[..cut])|; k <= |Records(all)| && !Mentions(Records(all)[k..], c)
    ensures LinkOf(Recovered(me, snap, all[..cut], victim).index, c) == LinkOf(Recovered(me, snap, all, victim).index, c)
  {
    hide Records, Fold, LinkAfter, Mentions;
    RecordsPrefix(all, cut);
    var before, kept, lost := Records(snap), Records(all[..cut]), Records(all)[|Records(all[..cut])|..];
    assert Records(all) == kept + lost;
    assert before + Records(all) == before + kept + lost;
    FoldLink(me, EmptyFold, before + kept, victim, c);
    FoldLink(me, EmptyFold, before + Records(all), victim, c);
    LinkAfterAppend(None, before + kept, lost, c);
    LinkAfterMentioned(LinkAfter(None, before + kept, c), lost, c);
  }

  // ---------- every crash point ----------

  lemma AfterFlush(me: int, h: Hist, order: seq<string>, victim: Victim, c: string)
    requires Inv(me, h, victim) && Enumerates(order, h.s.dirty.Keys) && Int32(me) && h.k <= INT64_MAX
    ensures var h' := AtFlush(me, h, order);
            && LogOf(h'.s) == HitsFlushed(me, h.s, order).disk == h.s.disk + FlushBytes(me, h.s, order)
            && Inv(me, h', victim)
            && At(me, h', Recovered(me, h.s.snap, HitsFlushed(me, h.s, order).disk, victim), c)
            && LogAt(me, h', SinceIn(HitsFlushed(me, h.s, order).disk, c), c)
  {
    hide Recovered, Render, SinceAfter, HitRecords, IndexAt, ReplayAt, LogAt;
    FlushInv(me, h, order, victim);
    var h' := AtFlush(me, h, order);
    assert LogOf(h'.s) == h'.s.disk;
    assert At(me, h', FilesOf(me, h'.s, victim), c);
    assert LogAt(me, h', SinceIn(LogOf(h'.s), c), c);
  }

  /** After the rename, with the whole old log or none of it: rows and tombstones of the log repeat what the snapshot says. */
  lemma AfterRename(me: int, h: Hist, order: seq<string>, keys: seq<string>, victim: Victim, c: string)
    requires Inv(me, h, victim) && Ready(me, h, order, keys) && Int32(me) && h.k <= INT64_MAX
    ensures var snap := Compacted(me, h.s, order, keys).snap;
            && LinkOf(Recovered(me, snap, HitsFlushed(me, h.s, order).disk, victim).index, c) == OwnLink(me, h.s.index, c)
            && LinkOf(Recovered(me, snap, "", victim).index, c) == OwnLink(me, h.s.index, c)
  {
    hide Records, Render, LinkAfter, Fold, SnapRecords, At, LogAt, Inv;
    var recs, log, before := SnapRecords(me, h.s.index, keys), Records(HitsFlushed(me, h.s, order).disk), Records(h.s.snap);
    FlushedLink(me, h, order, victim, c);
    SnapFile(me, h, keys, victim);
    EmptyFile();
    assert recs + [] == recs;
    SnapReplay(me, h.s.index, keys, victim, c);
    FoldLink(me, EmptyFold, before + log, victim, c);
    FoldLink(me, EmptyFold, recs + log, victim, c);
    FoldLink(me, EmptyFold, recs, victim, c);
    LinkAfterAppend(None, before, log, c);
    LinkAfterAppend(None, recs, log, c);
    LinkAfterMentioned(LinkAfter(None, before, c), log, c);
    LinkAfterMentioned(LinkAfter(None, recs, c), log, c);
  }

  lemma FlushedLink(me: int, h: Hist, order: seq<string>, victim: Victim, c: string)
    requires Inv(me, h, victim) && Enumerates(order, h.s.dirty.Keys) && Int32(me) && h.k <= INT64_MAX
    ensures LinkOf(Recovered(me, h.s.snap, HitsFlushed(me, h.s, order).disk, victim).index, c) == OwnLink(me, h.s.index, c)
  {
    hide Recovered, Render, Inv;
    AfterFlush(me, h, order, victim, c);
  }

  /** The crash points past the queued rows. */
  predicate Late(s: State, p: CrashPoint) { p.InFlush? ==> |s.buf| <= p.cut }

  /**
   After a crash `cut` bytes into the flush: all that was on disk and the first of the queued
   records survive, recovery is their fold, and a link that no lost record decides is right.
   */
  ghost predicate CrashedInFlush(me: int, h: Hist, order: seq<string>, cut: nat, victim: Victim, c: string)
    requires Enumerates(order, h.s.dirty.Keys) && cut <= |FlushBytes(me, h.s, order)|
  {
    var log, all := h.s.disk + FlushBytes(me, h.s, order)[..cut], Records(HitsFlushed(me, h.s, order).disk);
    var k, R := |Records(log)|, Recovered(me, h.s.snap, log, victim);
    && |Records(h.s.disk)| <= k <= |all|
    && R == Replayed(me, Records(h.s.snap) + all[..k], victim)
    && (!Mentions(all[k..], c) ==> LinkOf(R.index, c) == OwnLink(me, h.s.index, c))
  }

  /**
   Crash-safe compaction, at every crash point.  Recovery gives the links held before the
   compaction from every byte of the flush past the queued rows on.  A crash earlier in the
   flush loses a suffix of the queued records and nothing that was on disk: recovery is the
   fold of the rest, and the links no lost row or tombstone decides are right.
   */
  lemma CompactionCrashSafe(me: int, steps: seq<Step>, h: Hist, order: seq<string>, keys: seq<string>, p: CrashPoint,
                            victim: Victim, c: string)
    requires Int32(me) && |steps| <= INT64_MAX && h == Run(me, steps) && Ready(me, h, order, keys)
    requires p.InFlush? ==> p.cut <= |FlushBytes(me, h.s, order)|
    ensures var (snap, log) := FilesAt(me, h.s, order, keys, p);
            && (Late(h.s, p) ==> LinkOf(Recovered(me, snap, log, victim).index, c) == OwnLink(me, h.s.index, c))
            && (p.InFlush? ==> CrashedInFlush(me, h, order, p.cut, victim, c))
  {
    hide Run, Inv, CrashedInFlush;
    RunInv(me, steps, victim);
    if p.InFlush? {
      FlushCrash(me, h, order, p.cut, victim, c);
    } else {
      hide Recovered, Render, HitRecords, SnapRecords;
      FlushedLink(me, h, order, victim, c);
      AfterRename(me, h, order, keys, victim, c);
    }
  }

  lemma FlushCrash(me: int, h: Hist, order: seq<string>, cut: nat, victim: Victim, c: string)
    requires Inv(me, h, victim) && Int32(me) && h.k <= INT64_MAX && Enumerates(order, h.s.dirty.Keys)
    requires cut <= |FlushBytes(me, h.s, order)|
    ensures CrashedInFlush(me, h, order, cut, victim, c)
    ensures |h.s.buf| <= cut ==>
              LinkOf(Recovered(me, h.s.snap, h.s.disk + FlushBytes(me, h.s, order)[..cut], victim).index, c) == OwnLink(me, h.s.index, c)
  {
    hide Records, Fold, Inv, Mentions, HitRecords, Render, At, LogAt;
    AfterFlush(me, h, order, victim, c);
    FlushedLink(me, h, order, victim, c);
    FlushCut(me, h, order, cut, victim, c);
  }

  lemma FlushCut(me: int, h: Hist, order: seq<string>, cut: nat, victim: Victim, c: string)
    requires Inv(me, h, victim) && Int32(me) && h.k <= INT64_MAX && Enumerates(order, h.s.dirty.Keys)
    requires cut <= |FlushBytes(me, h.s, order)|
    ensures var log, full := h.s.disk + FlushBytes(me, h.s, order)[..cut], h.s.disk + FlushBytes(me, h.s, order);
            var all, k := Records(full), |Records(log)|;
            && |Records(h.s.disk)| <= k <= |all| && Records(log) == all[..k]
            && (|h.s.buf| <= cut ==> !Mentions(all[k..], c))
            && (!Mentions(all[k..], c) ==>
                  LinkOf(Recovered(me, h.s.snap, log, victim).index, c) == LinkOf(Recovered(me, h.s.snap, full, victim).index, c))
  {
    hide Records, Recovered, Inv, Mentions, FlushBytes;
    var bytes := FlushBytes(me, h.s, order);
    var log, full := h.s.disk + bytes[..cut], h.s.disk + bytes;
    var n := |h.s.disk| + cut;
    assert full[..n] == log;
    RecordsPrefix(full, n);
    assert log[..|h.s.disk|] == h.s.disk;
    RecordsPrefix(log, |h.s.disk|);
    if |h.s.buf| <= cut { LateCut(me, h, order, cut, victim, c); }
    if !Mentions(Records(full)[|Records(log)|..], c) { LostLink(me, h.s.snap, full, n, victim, c); }
  }

  // ---------- hits ----------

  /** The hits of a code present from the start, with `b` hits, after a log summarised by `y`. */
  function Carried(b: int, y: Since): int { if y.decided then y.hits else b + y.hits }

  lemma PresentStep(me: int, R: Folded, r: Record, v: string, c: string, b: int, y: Since)
    requires c in R.index && c !in R.stray && R.index[c].h == Carried(b, y) && !SinceStep(y, r, c).dropped
    ensures !y.dropped ==> var R' := Apply(me, R, r, v); c in R'.index && c !in R'.stray && R'.index[c].h == Carried(b, SinceStep(y, r, c))
  {}

  lemma StaysDropped(y: Since, r: Record, c: string)
    requires y.dropped
    ensures SinceStep(y, r, c).dropped
  {}

  /** Folding a log onto an index that already holds `c`: a row of `c` in the log restarts its counter. */
  lemma {:induction false} PresentHits(me: int, recs: seq<Record>, log: seq<Record>, victim: Victim, c: string)
    requires var R := Replayed(me, recs, victim); c in R.index && c !in R.stray
    requires !SinceAfter(log, c).dropped
    ensures var R, R' := Replayed(me, recs, victim), Replayed(me, recs + log, victim);
            c in R'.index && c !in R'.stray && R'.index[c].h == Carried(R.index[c].h, SinceAfter(log, c))
  {
    hide Fold, Apply, SinceStep;
    if log == [] {
      assert recs + log == recs;
    } else {
      var k := |log| - 1;
      var l0, r := log[..k], log[k];
      if SinceAfter(l0, c).dropped { StaysDropped(SinceAfter(l0, c), r, c); }
      PresentHits(me, recs, l0, victim, c);
      FoldPush(me, EmptyFold, recs + l0, r, victim);
      assert recs + log == recs + l0 + [r];
      PresentStep(me, Replayed(me, recs + l0, victim), r, victim(|recs + l0|), c, Replayed(me, recs, victim).index[c].h, SinceAfter(l0, c));
    }
  }

  /** Two tallies that meet a log's first row alike end alike. */
  lemma {:induction false} SameTally(me: int, y: Tally, y': Tally, log: seq<Record>, c: string)
    requires y'.present && (y.present || (y.t == 0 && y.o == 0 && !SinceAfter(log, c).early))
    ensures var z, x, x' := SinceAfter(log, c), TallyFrom(me, y, log, c), TallyFrom(me, y', log, c);
            if z.decided then x == x'
            else x'.present && x'.t == y'.t + z.hits && (if y.present then x.present else x == y)
  {
    if log != [] { SameTally(me, y, y', log[..|log| - 1], c); }
  }

  lemma {:induction false} RowsTally(me: int, recs: seq<Record>, c: string)
    requires forall r <- recs :: r.Row?
    ensures var y := TallyAfter(me, recs, c);
            if Mentions(recs, c) then y.present else y == Tally(false, 0, 0)
  {
    if recs != [] {
      var k := |recs| - 1;
      assert recs[k] in recs && forall r <- recs[..k] :: r in recs;
      assert Mentions(recs, c) <==> Mentions(recs[..k], c) || Decides(recs[k], c) by {
        assert forall r :: r in recs <==> r in recs[..k] || r == recs[k];
      }
      RowsTally(me, recs[..k], c);
    }
  }

  lemma RowsHitCodes(recs: seq<Record>, log: seq<Record>)
    requires forall r <- recs :: r.Row?
    ensures HitCodes(recs + log) == HitCodes(log)
  {
    assert forall r :: r in recs + log <==> r in recs || r in log;
  }

  /**
   Below the stray cap, replaying a log on a newer snapshot that holds `c` gives the hits that
   replaying it on the older one gives, if the log has a row of `c`; otherwise the log's deltas
   are added to the newer count.
   */
  lemma NewerSnapshot(me: int, older: seq<Record>, newer: seq<Record>, log: seq<Record>, victim: Victim, c: string)
    requires (forall r <- older :: r.Row?) && (forall r <- newer :: r.Row?)
    requires |HitCodes(log)| < MAX_STRAY_HITS && Mentions(newer, c)
    requires SinceAfter(log, c).early ==> Mentions(older, c)
    requires c in Replayed(me, older + log, victim).index
    ensures var R, R', z := Replayed(me, older + log, victim).index, Replayed(me, newer + log, victim).index, SinceAfter(log, c);
            c in R' && R'[c].h == if z.decided then R[c].h else TallyAfter(me, newer, c).t + z.hits
  {
    hide Fold, TallyAfter, TallyFrom, SinceAfter, HitCodes, Mentions;
    RowsHitCodes(older, log);
    RowsHitCodes(newer, log);
    FoldTally(me, older + log, victim, c);
    FoldTally(me, newer + log, victim, c);
    TallyAppend(me, older, log, c);
    TallyAppend(me, newer, log, c);
    RowsTally(me, older, c);
    RowsTally(me, newer, c);
    SameTally(me, TallyAfter(me, older, c), TallyAfter(me, newer, c), log, c);
  }

  /**
   Hits are not crash-safe between rename and truncation: when the old log has no row of the
   code, recovery adds every delta of that log to a snapshot that already counts them.  When
   it has one, recovery gives the hits it would have given before the rename.  So the own
   hits are recovered exactly if and only if the log has a row and they were recoverable
   before (the shortfall is zero), or it has none and its deltas sum to zero.  This holds for
   every own code below the stray cap, and without the cap for codes not updated or removed.
   */
  lemma CompactionCrashHits(me: int, steps: seq<Step>, h: Hist, order: seq<string>, keys: seq<string>, victim: Victim, c: string)
    requires Int32(me) && |steps| <= INT64_MAX && h == Run(me, steps) && Ready(me, h, order, keys)
    requires c in OwnCodes(me, h.s.index)
    requires c !in h.touched || |HitCodes(Records(HitsFlushed(me, h.s, order).disk))| < MAX_STRAY_HITS
    ensures var log, oh := Records(HitsFlushed(me, h.s, order).disk), h.s.index[c].oh;
            var R := Recovered(me, Compacted(me, h.s, order, keys).snap, HitsFlushed(me, h.s, order).disk, victim).index;
            var z := Shortfall(me, steps, victim, c);
            && c in R
            && R[c].h == oh + (if Mentions(log, c) then -z else HitSum(log, c))
            && (R[c].h == oh <==> if Mentions(log, c) then z == 0 else HitSum(log, c) == 0)
  {
    hide Run, Records, Render, Fold, HitSum, SinceAfter, Mentions, Shortfall, SnapRecords, HitRecords, HitCodes, Inv, At, LogAt;
    RunInv(me, steps, victim);
    var recs, log := SnapRecords(me, h.s.index, keys), Records(HitsFlushed(me, h.s, order).disk);
    HitsOverRuns(me, steps, victim, c);
    FlushBalanced(me, h, order, victim, Shortfall(me, steps, victim, c), c);
    AfterFlush(me, h, order, victim, c);
    SnapFile(me, h, keys, victim);
    SnapReplay(me, h.s.index, keys, victim, c);
    SinceMeaning(log, c);
    if c !in h.touched {
      LogSince(me, h, order, c);
      PresentHits(me, recs, log, victim, c);
    } else {
      TouchedHits(me, h, order, keys, victim, c);
    }
  }

  lemma LogSince(me: int, h: Hist, order: seq<string>, c: string)
    requires Enumerates(order, h.s.dirty.Keys) && c in OwnCodes(me, h.s.index) && c !in h.touched
    requires LogAt(me, AtFlush(me, h, order), SinceIn(HitsFlushed(me, h.s, order).disk, c), c)
    ensures var y := SinceAfter(Records(HitsFlushed(me, h.s, order).disk), c);
            !y.dropped && (y.decided ==> y.hits == h.s.index[c].oh)
  {
    hide SinceAfter, Records, Render, HitRecords;
  }

  lemma TouchedHits(me: int, h: Hist, order: seq<string>, keys: seq<string>, victim: Victim, c: string)
    requires Inv(me, h, victim) && Int32(me) && h.k <= INT64_MAX && Ready(me, h, order, keys)
    requires c in OwnCodes(me, h.s.index)
    requires |HitCodes(Records(HitsFlushed(me, h.s, order).disk))| < MAX_STRAY_HITS
    ensures var log := HitsFlushed(me, h.s, order).disk;
            var R, R' := Recovered(me, h.s.snap, log, victim).index, Recovered(me, Compacted(me, h.s, order, keys).snap, log, victim).index;
            var z := SinceAfter(Records(log), c);
            c in R && c in R' && R'[c].h == if z.decided then R[c].h else h.s.index[c].oh + z.hits
  {
    hide Records, Render, Fold, SinceAfter, SnapRecords, HitRecords, HitCodes, TallyAfter, Mentions;
    var h', log := AtFlush(me, h, order), Records(HitsFlushed(me, h.s, order).disk);
    AfterFlush(me, h, order, victim, c);
    FlushedLink(me, h, order, victim, c);
    SnapFile(me, h, keys, victim);
    AllRows(me, h.s.index, keys);
    SnapTally(me, h.s.index, keys, victim, c);
    assert SinceAfter(log, c).early ==> Mentions(Records(h.s.snap), c);
    NewerSnapshot(me, Records(h.s.snap), SnapRecords(me, h.s.index, keys), log, victim, c);
  }

  lemma SnapTally(me: int, index: Index, keys: seq<string>, victim: Victim, c: string)
    requires Enumerates(keys, OwnCodes(me, index)) && c in OwnCodes(me, index)
    ensures var recs := SnapRecords(me, index, keys); Mentions(recs, c) && TallyAfter(me, recs, c).t == index[c].oh
  {
    hide Fold, TallyAfter, LinkAfter, Mentions, SnapRecords;
    var recs := SnapRecords(me, index, keys);
    SnapReplay(me, index, keys, victim, c);
    AllRows(me, index, keys);
    RowsHitCodes(recs, []);
    assert recs + [] == recs;
    FoldTally(me, recs, victim, c);
    FoldLink(me, EmptyFold, recs, victim, c);
    LinkAfterMentioned(None, recs, c);
  }
}
