/**
 One instance of the append-only-log store (src/store.cpp).  `State` is the
 value of the whole instance, files included; each method of `Inner` is proved
 to take the state to the one its specification function names.
 */
module Store {
  import opened Common
  import opened Text
  import opened Codec
  import opened Log
  import opened Replay

  const FLUSH_BYTES := 262_144

  /** `disk` is the log file, `buf` its queued bytes, `snap` the snapshot file. */
  datatype State = State(index: Index, stray: StrayMap, dirty: map<string, int>,
                         snap: string, disk: string, buf: string)

  function LogOf(s: State): string { s.disk + s.buf }

  function FoldedOf(s: State): Folded { Folded(s.index, s.stray) }

  function DirtyOf(dirty: map<string, int>, c: string): int { if c in dirty then dirty[c] else 0 }

  // ---------- specification of each operation ----------

  function Pushed(s: State, bytes: string): State { s.(buf := s.buf + bytes) }

  function Flushed(s: State): State { s.(disk := s.disk + s.buf, buf := "") }

  function FlushedIfFull(s: State): State { if |s.buf| > FLUSH_BYTES then Flushed(s) else s }

  function Created(me: int, s: State, code: string, url: string, now: int, exp: int): State {
    FlushedIfFull(Pushed(s.(index := s.index[code := Entry(url, now, exp, me, 0, 0)]),
                         Print(Row(code, url, now, exp, me, 0)) + [NL]))
  }

  function NewRows(me: int, codes: seq<string>, urls: seq<string>, now: int, exp: int): seq<Record>
    requires |codes| == |urls|
  {
    seq(|codes|, k requires 0 <= k < |codes| => Row(codes[k], urls[k], now, exp, me, 0))
  }

  function Inserted(me: int, index: Index, codes: seq<string>, urls: seq<string>, now: int, exp: int): Index
    requires |codes| == |urls|
  {
    if codes == [] then index else
    var k := |codes| - 1;
    Inserted(me, index, codes[..k], urls[..k], now, exp)[codes[k] := Entry(urls[k], now, exp, me, 0, 0)]
  }

  function CreatedMany(me: int, s: State, codes: seq<string>, urls: seq<string>, now: int, exp: int): State
    requires |codes| == |urls|
  {
    FlushedIfFull(Pushed(s.(index := Inserted(me, s.index, codes, urls, now, exp)),
                         Render(NewRows(me, codes, urls, now, exp))))
  }

  /** Outcome of an update or remove before it acts. */
  function Access(me: int, s: State, code: string): MutResult {
    if code !in s.index then Missing else if s.index[code].owner != me then Remote else Ok
  }

  function Updated(me: int, s: State, code: string, url: string, exp: int): State
    requires Access(me, s, code) == Ok
  {
    var e := s.index[code];
    Pushed(s.(index := s.index[code := e.(url := url, expiry := exp)]),
           Print(Row(code, url, e.created, exp, me, 0)) + [NL])
  }

  function Removed(me: int, s: State, code: string): State
    requires Access(me, s, code) == Ok
  {
    Pushed(s.(index := s.index - {code}), Print(Del(code)) + [NL])
  }

  predicate Live(e: Entry, now: int) { e.expiry == 0 || e.expiry > now }

  predicate Resolvable(index: Index, code: string, now: int) { code in index && Live(index[code], now) }

  function Resolved(s: State, code: string): State
    requires code in s.index
  {
    var e := s.index[code];
    s.(index := s.index[code := e.(h := e.h + 1, oh := e.oh + 1)],
       dirty := s.dirty[code := DirtyOf(s.dirty, code) + 1])
  }

  /** `order` lists the keys of `m`, each once: an iteration order of an unordered map. */
  ghost predicate Enumerates(order: seq<string>, keys: set<string>) {
    && (forall c :: c in order <==> c in keys)
    && (forall i, j | 0 <= i < j < |order| :: order[i] != order[j])
  }

  function HitRecords(me: int, dirty: map<string, int>, order: seq<string>): seq<Record>
    requires forall c <- order :: c in dirty
  {
    seq(|order|, k requires 0 <= k < |order| => assert order[k] in order; Hit(order[k], dirty[order[k]], me))
  }

  function HitsFlushed(me: int, s: State, order: seq<string>): State
    requires Enumerates(order, s.dirty.Keys)
  {
    Flushed(Pushed(s.(dirty := map[]), Render(HitRecords(me, s.dirty, order))))
  }

  function OwnCodes(me: int, index: Index): set<string> { set c | c in index && index[c].owner == me }

  /** Own rows with own hits, in iteration order. */
  function SnapRecords(me: int, index: Index, keys: seq<string>): seq<Record>
    requires forall c <- keys :: c in index
  {
    seq(|keys|, k requires 0 <= k < |keys| =>
      assert keys[k] in keys;
      var e := index[keys[k]];
      Row(keys[k], e.url, e.created, e.expiry, me, e.oh))
  }

  function Compacted(me: int, s: State, order: seq<string>, keys: seq<string>): State
    requires Enumerates(order, s.dirty.Keys) && Enumerates(keys, OwnCodes(me, s.index))
  {
    HitsFlushed(me, s, order).(snap := Render(SnapRecords(me, s.index, keys)), disk := "", buf := "")
  }

  /** Folding one record of a sibling's log. */
  function Tailed(me: int, s: State, r: Record, victim: string): State {
    var f := Apply(me, FoldedOf(s), r, victim);
    s.(index := f.index, stray := f.stray)
  }

  /** Closing and reopening: the queued bytes are flushed and the index is replayed. */
  function Reopened(me: int, s: State, victim: Victim): State {
    var f := Recovered(me, s.snap, LogOf(s), victim);
    Flushed(s).(index := f.index, stray := f.stray, dirty := map[])
  }

  // ---------- lemmas the methods need ----------

  function VictimOf(vs: seq<string>): Victim { (k: nat) => if k < |vs| then vs[k] else "" }

  lemma {:induction false} FoldVictims(me: int, st: Folded, recs: seq<Record>, v: Victim, w: Victim)
    requires forall k: nat | k < |recs| :: v(k) == w(k)
    ensures Fold(me, st, recs, v) == Fold(me, st, recs, w)
  {
    if recs != [] { FoldVictims(me, st, recs[..|recs| - 1], v, w); }
  }

  lemma RenderPush(recs: seq<Record>, r: Record)
    ensures Render(recs + [r]) == Render(recs) + Print(r) + [NL]
  {
    assert (recs + [r])[..|recs|] == recs;
  }

  /** `index'` holds a new entry for each code, with the url at its place, and is otherwise `index`. */
  ghost predicate HoldsNew(me: int, index: Index, index': Index, codes: seq<string>, urls: seq<string>, now: int, exp: int)
    requires |codes| == |urls|
  {
    && (forall k | 0 <= k < |codes| :: codes[k] in index' && index'[codes[k]] == Entry(urls[k], now, exp, me, 0, 0))
    && (forall c | c !in codes :: (c in index' <==> c in index) && (c in index ==> index'[c] == index[c]))
  }

  lemma {:induction false} InsertedNew(me: int, index: Index, codes: seq<string>, urls: seq<string>, now: int, exp: int)
    requires |codes| == |urls| && forall j, k | 0 <= j < k < |codes| :: codes[j] != codes[k]
    ensures HoldsNew(me, index, Inserted(me, index, codes, urls, now, exp), codes, urls, now, exp)
  {
    hide HoldsNew;
    if codes == [] {
      HoldsNone(me, index, now, exp);
    } else {
      var k := |codes| - 1;
      InsertedNew(me, index, codes[..k], urls[..k], now, exp);
      HoldsMore(me, index, Inserted(me, index, codes[..k], urls[..k], now, exp), codes, urls, now, exp);
    }
  }

  lemma HoldsNone(me: int, index: Index, now: int, exp: int)
    ensures HoldsNew(me, index, index, [], [], now, exp)
  {}

  lemma HoldsMore(me: int, index: Index, part: Index, codes: seq<string>, urls: seq<string>, now: int, exp: int)
    requires |codes| == |urls| > 0 && codes[|codes| - 1] !in codes[..|codes| - 1]
    requires HoldsNew(me, index, part, codes[..|codes| - 1], urls[..|codes| - 1], now, exp)
    ensures HoldsNew(me, index, part[codes[|codes| - 1] := Entry(urls[|codes| - 1], now, exp, me, 0, 0)], codes, urls, now, exp)
  {
    var k := |codes| - 1;
    forall j | 0 <= j < k
      ensures codes[j] in part && part[codes[j]] == Entry(urls[j], now, exp, me, 0, 0) && codes[j] != codes[k]
    {
      assert codes[j] == codes[..k][j] && urls[j] == urls[..k][j];
    }
    assert forall c | c !in codes :: c !in codes[..k] && c != codes[k];
  }

  // ---------- the printing loops ----------

  /** One hit line per dirty code, in some order. */
  method HitLines(me: int, dirty: map<string, int>) returns (lines: string, ghost order: seq<string>)
    requires Int64(me) && forall c <- dirty :: Int64(dirty[c])
    ensures Enumerates(order, dirty.Keys)
    ensures lines == Render(HitRecords(me, dirty, order))
  {
    hide HitLine, Render;
    lines, order := "", [];
    var left := dirty.Keys;
    assert HitRecords(me, dirty, []) == [];
    RenderNil();
    while left != {}
      invariant left <= dirty.Keys
      invariant forall c :: c in order <==> c in dirty && c !in left
      invariant forall i, j | 0 <= i < j < |order| :: order[i] != order[j]
      invariant lines == Render(HitRecords(me, dirty, order))
      decreases |left|
    {
      var code :| code in left;
      ghost var rec := Hit(code, dirty[code], me);
      assert HitRecords(me, dirty, order + [code]) == HitRecords(me, dirty, order) + [rec];
      RenderPush(HitRecords(me, dirty, order), rec);
      lines := HitLineInto(lines, code, dirty[code], me);
      lines := lines + [NL];
      order, left := order + [code], left - {code};
    }
  }

  /** One row line per own code, in some order. */
  method SnapLines(me: int, index: Index) returns (lines: string, ghost keys: seq<string>)
    requires Int64(me)
    requires forall c <- OwnCodes(me, index) :: Int64(index[c].created) && Int64(index[c].expiry) && Int64(index[c].oh)
    ensures Enumerates(keys, OwnCodes(me, index))
    ensures lines == Render(SnapRecords(me, index, keys))
  {
    hide RowLine, Render;
    lines, keys := "", [];
    var own := set c | c in index && index[c].owner == me;
    var left := own;
    assert SnapRecords(me, index, []) == [];
    RenderNil();
    while left != {}
      invariant left <= own
      invariant forall c :: c in keys <==> c in own && c !in left
      invariant forall i, j | 0 <= i < j < |keys| :: keys[i] != keys[j]
      invariant lines == Render(SnapRecords(me, index, keys))
      decreases |left|
    {
      var code :| code in left;
      var e := index[code];
      ghost var rec := Row(code, e.url, e.created, e.expiry, me, e.oh);
      assert SnapRecords(me, index, keys + [code]) == SnapRecords(me, index, keys) + [rec];
      RenderPush(SnapRecords(me, index, keys), rec);
      lines := RowLineInto(lines, code, e.url, e.created, e.expiry, e.owner, e.oh);
      lines := lines + [NL];
      keys, left := keys + [code], left - {code};
    }
  }

  lemma RenderNil()
    ensures Render([]) == ""
  {}

  // ---------- the instance ----------

  class Inner {
    const me: int
    const aof: Aof
    var index: Index
    var stray: StrayMap
    var dirty: map<string, int>
    var snap: string

    function Value(): State
      reads this, aof
    {
      State(index, stray, dirty, snap, aof.disk, aof.buf)
    }

    constructor (me: int, snap: string, log: Aof)
      ensures this.me == me && aof == log
      ensures Value() == State(map[], map[], map[], snap, log.disk, log.buf)
    {
      this.me, this.snap, aof := me, snap, log;
      index, stray, dirty := map[], map[], map[];
    }

    /** A hit of a code not in the index waits; a full map first drops its entry `victim`. */
    method AddStray(c: string, d: int, own: bool) returns (ghost victim: string)
      modifies this`stray
      ensures var room := if |old(stray)| >= MAX_STRAY_HITS then old(stray) - {victim} else old(stray);
              stray == room[c := StrayHit(StrayOf(room, c).t + d, StrayOf(room, c).o + (if own then d else 0))]
    {
      victim := "";
      if |stray| >= MAX_STRAY_HITS {
        assert stray != map[];
        var first :| first in stray;
        stray := stray - {first};
        victim := first;
      }
      var st := StrayOf(stray, c);
      stray := stray[c := StrayHit(st.t + d, if own then st.o + d else st.o)];
    }

    /** The hit branch of `apply`. */
    method ApplyHit(c: string, d: int, i: int) returns (ghost victim: string)
      modifies this`index, this`stray
      ensures Value() == old(Value()).(index := index, stray := stray)
      ensures FoldedOf(Value()) == AddHit(me, old(FoldedOf(Value())), c, d, i, victim)
      ensures c in old(index) ==> c in index && index[c].h == old(index[c].h) + d
      ensures c !in old(index) ==> index == old(index) && c in stray
    {
      victim := "";
      var own := me == i;
      if c in index {
        var e := index[c];
        index := index[c := e.(h := e.h + d, oh := if own then e.oh + d else e.oh)];
        return;
      }
      victim := AddStray(c, d, own);
    }

    method ApplyOp(o: Op) returns (ghost victim: string)
      modifies this`index, this`stray
      ensures match Meaning(o)
              case None => Value() == old(Value())
              case Some(r) => Value() == Tailed(me, old(Value()), r, victim)
      ensures o.x != "" ==> index == old(index) - {o.x} && stray == old(stray) - {o.x}
      ensures o.x == "" && o.h != "" ==> if o.h in old(index) then o.h in index && index[o.h].h == old(index[o.h].h) + o.d else o.h in stray
      ensures o.x == "" && o.h == "" && o.c != "" ==> o.c in index && index[o.c].url == o.u && o.c !in stray
    {
      hide AddHit, ToInt32;
      victim := "";
      if o.x != "" {
        index, stray := index - {o.x}, stray - {o.x};
        return;
      }
      if o.h != "" {
        victim := ApplyHit(o.h, o.d, ToInt32(o.i));
        return;
      }
      if o.c == "" { return; }
      var st := StrayOf(stray, o.c);
      stray := stray - {o.c};
      index := index[o.c := Entry(o.u, o.a, if o.hasE then o.e else 0, ToInt32(o.i), o.n + st.t, o.n + st.o)];
    }

    /** Folds lines in order, as the replay and tail callbacks do. */
    method ApplyLines(lines: seq<string>) returns (ghost victims: seq<string>)
      modifies this`index, this`stray
      ensures |victims| == |ReadLines(lines)|
      ensures var f := Fold(me, old(FoldedOf(Value())), ReadLines(lines), VictimOf(victims));
              Value() == old(Value()).(index := f.index, stray := f.stray)
    {
      hide Apply, Meaning, Parse;
      victims := [];
      ghost var st0 := FoldedOf(Value());
      assert lines[..0] == [];
      for k := 0 to |lines|
        invariant |victims| == |ReadLines(lines[..k])|
        invariant FoldedOf(Value()) == Fold(me, st0, ReadLines(lines[..k]), VictimOf(victims))
        invariant Value() == old(Value()).(index := index, stray := stray)
      {
        ghost var recs := ReadLines(lines[..k]);
        assert lines[..k + 1][..k] == lines[..k];
        var o := ParseOp(lines[k]);
        assert ReadLine(lines[k]).None? ==> ReadLines(lines[..k + 1]) == recs;
        if o.Some? {
          ghost var v := ApplyOp(o.value);
          ghost var m := Meaning(o.value);
          if m.Some? {
            assert ReadLines(lines[..k + 1]) == recs + [m.value];
            FoldVictims(me, st0, recs, VictimOf(victims), VictimOf(victims + [v]));
            FoldPush(me, st0, recs, m.value, VictimOf(victims + [v]));
            victims := victims + [v];
          }
        }
      }
      assert lines[..|lines|] == lines;
    }

    /** Boot: what can be read of the own snapshot, then of the own log (src/store.cpp:187-193). */
    method Boot(sizes: seq<nat>, sizes': seq<nat>) returns (ghost victims: seq<string>)
      requires index == map[] && stray == map[]
      modifies this`index, this`stray
      ensures var f := Recovered(me, snap[..Granted(|snap|, sizes)], aof.disk[..Granted(|aof.disk|, sizes')], VictimOf(victims));
              Value() == old(Value()).(index := f.index, stray := f.stray)
    {
      hide Granted, Lines;
      var l1 := ReplayFile(snap, sizes);
      var l2 := ReplayFile(aof.disk, sizes');
      ReadLinesAppend(l1, l2);
      victims := ApplyLines(l1 + l2);
    }

    method FlushIfFull(writes: seq<nat>)
      modifies aof
      ensures Value() == FlushedIfFull(old(Value()))
    {
      if |aof.buf| > FLUSH_BYTES { aof.Flush(writes); }
    }

    /** `pick` is the generated code the retry loop ends with. */
    method Shorten(url: string, alias: Option<string>, pick: string, ttl: int, now: int, writes: seq<nat>)
      returns (r: Option<string>)
      requires pick !in index && Int64(now) && Int64(ExpiryFor(now, ttl)) && Int64(me)
      modifies this`index, aof
      ensures var code := if alias.Some? then alias.value else pick;
              if code in old(index) then r == None && Value() == old(Value())
              else r == Some(code) && Value() == Created(me, old(Value()), code, url, now, ExpiryFor(now, ttl))
      ensures r.Some? ==>
                var exp := if ttl > 0 then now + ttl else 0;
                && index == old(index)[r.value := Entry(url, now, exp, me, 0, 0)]
                && aof.disk + aof.buf == old(aof.disk + aof.buf) + (Print(Row(r.value, url, now, exp, me, 0)) + [NL])
                && |aof.buf| <= 262_144 && (aof.disk == old(aof.disk) || aof.buf == "")
                && (|aof.disk + aof.buf| - |old(aof.disk)| <= 262_144 ==> aof.disk == old(aof.disk))
    {
      hide RowLine;
      var exp := if ttl > 0 then now + ttl else 0;
      var code := pick;
      if alias.Some? {
        code := alias.value;
        if code in index { return None; }
      }
      index := index[code := Entry(url, now, exp, me, 0, 0)];
      var line := RowLineInto("", code, url, now, exp, me, 0);
      assert line == Print(Row(code, url, now, exp, me, 0));
      aof.Push(line);
      assert old(aof.buf) + line + [NL] == old(aof.buf) + (line + [NL]);
      assert aof.disk + aof.buf == old(aof.disk + aof.buf) + (line + [NL]);
      FlushIfFull(writes);
      r := Some(code);
    }

    /** `picks` are the generated codes the retry loops end with. */
    method ShortenMany(urls: seq<string>, picks: seq<string>, ttl: int, now: int, writes: seq<nat>)
      returns (codes: seq<string>)
      requires |picks| == |urls| && Int64(now) && Int64(ExpiryFor(now, ttl)) && Int64(me)
      requires forall k | 0 <= k < |picks| :: picks[k] !in index
      requires forall j, k | 0 <= j < k < |picks| :: picks[j] != picks[k]
      modifies this`index, aof
      ensures codes == picks
      ensures Value() == CreatedMany(me, old(Value()), picks, urls, now, ExpiryFor(now, ttl))
      ensures HoldsNew(me, old(index), index, codes, urls, now, if ttl > 0 then now + ttl else 0)
      ensures |aof.buf| <= 262_144 && (aof.disk == old(aof.disk) || aof.buf == "")
      ensures |aof.disk + aof.buf| - |old(aof.disk)| <= 262_144 ==> aof.disk == old(aof.disk)
    {
      hide RowLine, Render;
      var exp := if ttl > 0 then now + ttl else 0;
      codes := [];
      var lines := "";
      assert NewRows(me, picks[..0], urls[..0], now, exp) == [];
      RenderNil();
      for k := 0 to |urls|
        invariant codes == picks[..k]
        invariant index == Inserted(me, old(index), picks[..k], urls[..k], now, exp)
        invariant lines == Render(NewRows(me, picks[..k], urls[..k], now, exp))
        invariant aof.disk == old(aof.disk) && aof.buf == old(aof.buf)
      {
        var cb := picks[k];
        ghost var recs := NewRows(me, picks[..k], urls[..k], now, exp);
        ghost var row := Row(cb, urls[k], now, exp, me, 0);
        assert picks[..k + 1][..k] == picks[..k] && urls[..k + 1][..k] == urls[..k];
        index := index[cb := Entry(urls[k], now, exp, me, 0, 0)];
        assert NewRows(me, picks[..k + 1], urls[..k + 1], now, exp) == recs + [row];
        RenderPush(recs, row);
        lines := RowLineInto(lines, cb, urls[k], now, exp, me, 0);
        lines := lines + [NL];
        codes := codes + [cb];
      }
      assert picks[..|urls|] == picks && urls[..|urls|] == urls;
      InsertedNew(me, old(index), picks, urls, now, exp);
      aof.PushRaw(lines);
      FlushIfFull(writes);
    }

    method Update(code: string, url: string, ttl: int, hasTtl: bool, now: int) returns (r: MutResult)
      requires Int64(ExpiryFor(now, ttl)) && Int64(me)
      requires code in index ==> Int64(index[code].created) && Int64(index[code].expiry)
      modifies this`index, aof
      ensures r == Access(me, old(Value()), code)
      ensures r == if code !in old(index) then Missing else if old(index[code].owner) != me then Remote else Ok
      ensures r == Ok ==>
                var exp := if !hasTtl then old(index[code].expiry) else if ttl > 0 then now + ttl else 0;
                && index == old(index)[code := old(index[code]).(url := url, expiry := exp)]
                && aof.disk == old(aof.disk)
                && aof.buf == old(aof.buf) + (Print(Row(code, url, old(index[code].created), exp, me, 0)) + [NL])
      ensures if r != Ok then Value() == old(Value())
              else Value() == Updated(me, old(Value()), code, url,
                                      if hasTtl then ExpiryFor(now, ttl) else old(index[code].expiry))
    {
      hide RowLine;
      if code !in index { return Missing; }
      var e := index[code];
      if e.owner != me { return Remote; }
      var exp := if hasTtl then (if ttl > 0 then now + ttl else 0) else e.expiry;
      index := index[code := e.(url := url, expiry := exp)];
      var line := RowLineInto("", code, url, e.created, exp, me, 0);
      assert line == Print(Row(code, url, e.created, exp, me, 0));
      aof.Push(line);
      assert old(aof.buf) + line + [NL] == old(aof.buf) + (line + [NL]);
      r := Ok;
    }

    method Remove(code: string) returns (r: MutResult)
      modifies this`index, aof
      ensures r == Access(me, old(Value()), code)
      ensures r == if code !in old(index) then Missing else if old(index[code].owner) != me then Remote else Ok
      ensures Value() == if r == Ok then Removed(me, old(Value()), code) else old(Value())
      ensures r == Ok ==> index == old(index) - {code} && aof.buf == old(aof.buf) + (Print(Del(code)) + [NL])
    {
      hide DelLine;
      if code !in index { return Missing; }
      if index[code].owner != me { return Remote; }
      index := index - {code};
      var line := DelLineInto("", code);
      assert line == Print(Del(code));
      aof.Push(line);
      assert old(aof.buf) + line + [NL] == old(aof.buf) + (line + [NL]);
      r := Ok;
    }

    /** The part of `resolve` that finds the code in the index. */
    method ResolveLocal(code: string, now: int) returns (url: Option<string>)
      modifies this`index, this`dirty
      ensures if Resolvable(old(index), code, now)
              then url == Some(old(index[code].url)) && Value() == Resolved(old(Value()), code)
              else url == None && Value() == old(Value())
      ensures url.Some? <==> code in old(index) && (old(index[code].expiry) == 0 || now < old(index[code].expiry))
      ensures url.Some? ==>
                var e := old(index[code]);
                && index == old(index)[code := e.(h := e.h + 1, oh := e.oh + 1)]
                && dirty == old(dirty)[code := (if code in old(dirty) then old(dirty[code]) else 0) + 1]
    {
      if code !in index { return None; }
      var e := index[code];
      if e.expiry == 0 || e.expiry > now {
        index := index[code := e.(h := e.h + 1, oh := e.oh + 1)];
        dirty := dirty[code := DirtyOf(dirty, code) + 1];
        return Some(e.url);
      }
      return None;
    }

    /** Collects the dirty counters in some order, pushes them and writes the log. */
    method FlushLocked(writes: seq<nat>) returns (ghost order: seq<string>)
      requires Int64(me) && forall c <- dirty :: Int64(dirty[c])
      modifies this`dirty, aof
      ensures Enumerates(order, old(dirty).Keys)
      ensures Value() == HitsFlushed(me, old(Value()), order)
      ensures dirty == map[] && aof.buf == "" && aof.disk == old(aof.disk + aof.buf) + Render(HitRecords(me, old(dirty), order))
    {
      hide Render;
      var lines;
      lines, order := HitLines(me, dirty);
      dirty := map[];
      aof.PushRaw(lines);
      assert aof.disk + aof.buf == old(aof.disk + aof.buf) + lines;
      aof.Flush(writes);
    }

    method Compact(writes: seq<nat>) returns (ghost order: seq<string>, ghost keys: seq<string>)
      requires Int64(me) && forall c <- dirty :: Int64(dirty[c])
      requires forall c <- OwnCodes(me, index) :: Int64(index[c].created) && Int64(index[c].expiry) && Int64(index[c].oh)
      modifies this`dirty, this`snap, aof
      ensures Enumerates(order, old(dirty).Keys) && Enumerates(keys, OwnCodes(me, index))
      ensures Value() == Compacted(me, old(Value()), order, keys)
    {
      hide Render;
      order := FlushLocked(writes);
      var tmp;
      tmp, keys := SnapLines(me, index);
      snap := tmp;
      aof.Truncate([]);
    }
  }
}
