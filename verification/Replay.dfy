/**
 Folding log records into the index, as `apply` in src/store.cpp does.  When
 the stray map is full an arbitrary entry is dropped; `victim(k)` names the one
 dropped while folding record k, and every theorem holds for all choices.
 */
module Replay {
  import opened Text
  import opened Codec
  import opened Log

  const MAX_STRAY_HITS := 10_000

  datatype Entry = Entry(url: string, created: int, expiry: int, owner: int, h: int, oh: int)

  datatype Link = Link(url: string, created: int, expiry: int, owner: int)

  datatype StrayHit = StrayHit(t: int, o: int)

  type StrayMap = map<string, StrayHit>

  type Index = map<string, Entry>

  type Victim = nat -> string

  datatype Folded = Folded(index: Index, stray: StrayMap)

  const EmptyFold := Folded(map[], map[])

  function StrayOf(stray: StrayMap, c: string): StrayHit {
    if c in stray then stray[c] else StrayHit(0, 0)
  }

  function AddHit(me: int, st: Folded, c: string, d: int, owner: int, victim: string): Folded {
    var own := if owner == me then d else 0;
    if c in st.index then
      var e := st.index[c];
      st.(index := st.index[c := e.(h := e.h + d, oh := e.oh + own)])
    else
      var room := if |st.stray| >= MAX_STRAY_HITS then st.stray - {victim} else st.stray;
      var was := StrayOf(room, c);
      st.(stray := room[c := StrayHit(was.t + d, was.o + own)])
  }

  /** Rows are last-write-wins and collect the stray hits of their code. */
  function PutRow(st: Folded, r: Record): Folded
    requires r.Row?
  {
    var w := StrayOf(st.stray, r.code);
    Folded(st.index[r.code := Entry(r.url, r.created, r.expiry, r.owner, r.hits + w.t, r.hits + w.o)],
           st.stray - {r.code})
  }

  function Apply(me: int, st: Folded, r: Record, victim: string): Folded {
    match r
    case Del(c) => Folded(st.index - {c}, st.stray - {c})
    case Hit(c, d, i) => AddHit(me, st, c, d, i, victim)
    case Row(_, _, _, _, _, _) => PutRow(st, r)
  }

  function Fold(me: int, st: Folded, recs: seq<Record>, victim: Victim): Folded {
    if recs == [] then st else
    var k := |recs| - 1;
    Apply(me, Fold(me, st, recs[..k], victim), recs[k], victim(k))
  }

  function Replayed(me: int, recs: seq<Record>, victim: Victim): Folded {
    Fold(me, EmptyFold, recs, victim)
  }

  /** What a restart reads back: the snapshot, then the log. */
  function Recovered(me: int, snap: string, log: string, victim: Victim): Folded {
    Replayed(me, Records(snap) + Records(log), victim)
  }

  /** A crash that cuts the log anywhere leaves the state of the first whole operations. */
  lemma CrashRecovery(me: int, snap: string, recs: seq<Record>, cut: nat, victim: Victim)
    requires AllPrintable(recs) && cut <= |Render(recs)|
    ensures var p := Render(recs)[..cut];
            && Newlines(p) <= |recs|
            && Recovered(me, snap, p, victim) == Replayed(me, Records(snap) + recs[..Newlines(p)], victim)
  {
    hide Records, Newlines;
    CrashPrefix(recs, cut);
  }

  // ---------- link fields ----------

  function LinkOf(index: Index, c: string): Option<Link> {
    if c in index then Some(Link(index[c].url, index[c].created, index[c].expiry, index[c].owner)) else None
  }

  predicate Decides(r: Record, c: string) { !r.Hit? && r.code == c }

  function Decision(r: Record): Option<Link>
    requires !r.Hit?
  {
    if r.Row? then Some(Link(r.url, r.created, r.expiry, r.owner)) else None
  }

  /** The reference semantics of a log: the last row or tombstone of a code decides its link. */
  function LinkAfter(b: Option<Link>, recs: seq<Record>, c: string): Option<Link> {
    if recs == [] then b else
    var r := recs[|recs| - 1];
    if Decides(r, c) then Decision(r) else LinkAfter(b, recs[..|recs| - 1], c)
  }

  /** Hits, stray handling and eviction never influence a link. */
  lemma {:induction false} FoldLink(me: int, st: Folded, recs: seq<Record>, victim: Victim, c: string)
    ensures LinkOf(Fold(me, st, recs, victim).index, c) == LinkAfter(LinkOf(st.index, c), recs, c)
  {
    if recs != [] {
      FoldLink(me, st, recs[..|recs| - 1], victim, c);
    }
  }

  predicate Mentions(recs: seq<Record>, c: string) { exists r <- recs :: Decides(r, c) }

  lemma {:induction false} LinkAfterAppend(b: Option<Link>, xs: seq<Record>, ys: seq<Record>, c: string)
    ensures LinkAfter(b, xs + ys, c) == LinkAfter(LinkAfter(b, xs, c), ys, c)
  {
    if ys == [] {
      assert xs + ys == xs;
    } else {
      assert (xs + ys)[..|xs + ys| - 1] == xs + ys[..|ys| - 1];
      LinkAfterAppend(b, xs, ys[..|ys| - 1], c);
    }
  }

  lemma {:induction false} LinkAfterMentioned(b: Option<Link>, recs: seq<Record>, c: string)
    ensures Mentions(recs, c) ==> LinkAfter(b, recs, c) == LinkAfter(None, recs, c)
    ensures !Mentions(recs, c) ==> LinkAfter(b, recs, c) == b
  {
    if recs != [] {
      var k := |recs| - 1;
      LinkAfterMentioned(b, recs[..k], c);
      assert recs[k] in recs;
      assert forall r <- recs[..k] :: r in recs;
      assert forall r <- recs :: r in recs[..k] || r == recs[k];
    }
  }

  // ---------- hit counts ----------

  function HitDelta(r: Record, c: string): int { if r.Hit? && r.code == c then r.delta else 0 }

  function OwnDelta(me: int, r: Record, c: string): int {
    if r.Hit? && r.code == c && r.owner == me then r.delta else 0
  }

  /** The deltas logged for `c`. */
  function HitSum(recs: seq<Record>, c: string): int {
    if recs == [] then 0 else HitSum(recs[..|recs| - 1], c) + HitDelta(recs[|recs| - 1], c)
  }

  function OwnSum(me: int, recs: seq<Record>, c: string): int {
    if recs == [] then 0 else OwnSum(me, recs[..|recs| - 1], c) + OwnDelta(me, recs[|recs| - 1], c)
  }

  function RowCount(recs: seq<Record>, c: string): nat {
    if recs == [] then 0 else
    RowCount(recs[..|recs| - 1], c) + if recs[|recs| - 1].Row? && recs[|recs| - 1].code == c then 1 else 0
  }

  /** The counters carried by the rows of `c`. */
  function RowHits(recs: seq<Record>, c: string): int {
    if recs == [] then 0 else
    var r := recs[|recs| - 1];
    RowHits(recs[..|recs| - 1], c) + if r.Row? && r.code == c then r.hits else 0
  }

  predicate Untombed(recs: seq<Record>, c: string) { forall r <- recs :: !(r.Del? && r.code == c) }

  function HitCodes(recs: seq<Record>): set<string> {
    set r | r in recs && r.Hit? :: r.code
  }

  /** How the summaries of a log change when a record is appended. */
  lemma PushRecord(me: int, recs: seq<Record>, r: Record, c: string)
    ensures HitSum(recs + [r], c) == HitSum(recs, c) + HitDelta(r, c)
    ensures OwnSum(me, recs + [r], c) == OwnSum(me, recs, c) + OwnDelta(me, r, c)
    ensures RowCount(recs + [r], c) == RowCount(recs, c) + if r.Row? && r.code == c then 1 else 0
    ensures RowHits(recs + [r], c) == RowHits(recs, c) + if r.Row? && r.code == c then r.hits else 0
    ensures forall b :: LinkAfter(b, recs + [r], c) == if Decides(r, c) then Decision(r) else LinkAfter(b, recs, c)
  {
    assert (recs + [r])[..|recs|] == recs;
  }

  lemma FoldPush(me: int, st: Folded, recs: seq<Record>, r: Record, victim: Victim)
    ensures Fold(me, st, recs + [r], victim) == Apply(me, Fold(me, st, recs, victim), r, victim(|recs|))
  {
    assert (recs + [r])[..|recs|] == recs;
  }

  lemma SubsetSize<T>(a: set<T>, b: set<T>)
    requires a <= b
    ensures |a| <= |b|
  {
    assert b == a + (b - a);
  }

  lemma {:induction false} StrayBound(me: int, recs: seq<Record>, victim: Victim)
    ensures Replayed(me, recs, victim).stray.Keys <= HitCodes(recs)
  {
    if recs != [] {
      var k := |recs| - 1;
      StrayBound(me, recs[..k], victim);
      assert recs[k] in recs;
      assert forall r <- recs[..k] :: r in recs;
    }
  }

  /** Below the cap nothing is evicted while folding the last record. */
  /** The stray map never holds more than ten thousand codes, and never more than have hits. */
  lemma {:induction false} StrayCap(me: int, recs: seq<Record>, victim: Victim)
    requires forall k: nat | k < |recs| :: var st := Replayed(me, recs[..k], victim).stray; |st| >= 10_000 ==> victim(k) in st
    ensures |Replayed(me, recs, victim).stray| <= 10_000
  {
    if recs != [] {
      var k := |recs| - 1;
      forall j: nat | j < k
        ensures recs[..k][..j] == recs[..j]
      {}
      StrayCap(me, recs[..k], victim);
      var st := Replayed(me, recs[..k], victim);
      CapStep(me, st, recs[k], victim(k));
    }
  }

  lemma CapStep(me: int, st: Folded, r: Record, v: string)
    requires |st.stray| <= 10_000 && (|st.stray| >= 10_000 ==> v in st.stray)
    ensures |Apply(me, st, r, v).stray| <= 10_000
  {
    var st' := Apply(me, st, r, v);
    if r.Hit? && r.code !in st.index {
      var room := if |st.stray| >= MAX_STRAY_HITS then st.stray - {v} else st.stray;
      assert room.Keys == if |st.stray| >= MAX_STRAY_HITS then st.stray.Keys - {v} else st.stray.Keys;
      assert st'.stray.Keys == room.Keys + {r.code};
      assert |st'.stray| == |room.Keys + {r.code}| <= |room.Keys| + 1;
      assert |st.stray.Keys| == |st.stray|;
    } else {
      assert st'.stray.Keys <= st.stray.Keys;
      SubsetSize(st'.stray.Keys, st.stray.Keys);
      assert |st'.stray| == |st'.stray.Keys|;
    }
  }

  lemma NoEviction(me: int, recs: seq<Record>, victim: Victim)
    requires recs != [] && |HitCodes(recs)| < MAX_STRAY_HITS
    ensures |HitCodes(recs[..|recs| - 1])| < MAX_STRAY_HITS
    ensures |Replayed(me, recs[..|recs| - 1], victim).stray| < MAX_STRAY_HITS
  {
    var head := recs[..|recs| - 1];
    StrayBound(me, head, victim);
    assert forall r <- head :: r in recs;
    SubsetSize(HitCodes(head), HitCodes(recs));
    var stray := Replayed(me, head, victim).stray;
    SubsetSize(stray.Keys, HitCodes(head));
    assert |stray| == |stray.Keys|;
  }

  ghost predicate CountsAs(st: Folded, c: string, rows: nat, total: int, own: int) {
    if rows == 0 then c !in st.index && StrayOf(st.stray, c) == StrayHit(total, own)
    else c in st.index && c !in st.stray && st.index[c].h == total && st.index[c].oh == own
  }

  lemma ApplyCounts(me: int, st: Folded, r: Record, victim: string, c: string, rows: nat, total: int, own: int)
    requires |st.stray| < MAX_STRAY_HITS && CountsAs(st, c, rows, total, own)
    requires !(r.Del? && r.code == c)
    requires r.Row? && r.code == c ==> rows == 0
    ensures var row := r.Row? && r.code == c;
            CountsAs(Apply(me, st, r, victim), c, rows + (if row then 1 else 0),
                     total + HitDelta(r, c) + (if row then r.hits else 0),
                     own + OwnDelta(me, r, c) + (if row then r.hits else 0))
  {}

  /**
   The closed form of a replayed counter: a code with one row and no tombstone has
   the row's counter plus every delta in the log, whether logged before or after the row.
   */
  lemma {:induction false} FoldCounts(me: int, recs: seq<Record>, victim: Victim, c: string)
    requires |HitCodes(recs)| < MAX_STRAY_HITS
    requires RowCount(recs, c) <= 1 && Untombed(recs, c)
    ensures CountsAs(Replayed(me, recs, victim), c, RowCount(recs, c),
                     RowHits(recs, c) + HitSum(recs, c), RowHits(recs, c) + OwnSum(me, recs, c))
  {
    if recs != [] {
      hide Apply, CountsAs, HitDelta, OwnDelta;
      var k := |recs| - 1;
      NoEviction(me, recs, victim);
      assert recs[k] in recs;
      assert forall r <- recs[..k] :: r in recs;
      FoldCounts(me, recs[..k], victim, c);
      ApplyCounts(me, Replayed(me, recs[..k], victim), recs[k], victim(k), c, RowCount(recs[..k], c),
                  RowHits(recs[..k], c) + HitSum(recs[..k], c), RowHits(recs[..k], c) + OwnSum(me, recs[..k], c));
    } else {
      assert CountsAs(EmptyFold, c, 0, 0, 0);
    }
  }

  // ---------- one code at a time ----------

  /** All the index ever knows about the counters of one code. */
  datatype Tally = Tally(present: bool, t: int, o: int)

  function TallyOf(st: Folded, c: string): Tally {
    if c in st.index then Tally(true, st.index[c].h, st.index[c].oh)
    else Tally(false, StrayOf(st.stray, c).t, StrayOf(st.stray, c).o)
  }

  /** The reference automaton: a tombstone forgets, a row restarts but keeps hits that waited for it. */
  function TallyStep(me: int, y: Tally, r: Record, c: string): Tally {
    if r.code != c then y
    else match r
      case Del(_) => Tally(false, 0, 0)
      case Hit(_, d, i) => Tally(y.present, y.t + d, if i == me then y.o + d else y.o)
      case Row(_, _, _, _, _, n) => if y.present then Tally(true, n, n) else Tally(true, y.t + n, y.o + n)
  }

  function TallyAfter(me: int, recs: seq<Record>, c: string): Tally {
    if recs == [] then Tally(false, 0, 0)
    else TallyStep(me, TallyAfter(me, recs[..|recs| - 1], c), recs[|recs| - 1], c)
  }

  /** The automaton run from any tally. */
  function TallyFrom(me: int, y: Tally, recs: seq<Record>, c: string): Tally {
    if recs == [] then y
    else TallyStep(me, TallyFrom(me, y, recs[..|recs| - 1], c), recs[|recs| - 1], c)
  }

  lemma {:induction false} TallyAppend(me: int, xs: seq<Record>, ys: seq<Record>, c: string)
    ensures TallyAfter(me, xs + ys, c) == TallyFrom(me, TallyAfter(me, xs, c), ys, c)
  {
    if ys == [] {
      assert xs + ys == xs;
    } else {
      assert (xs + ys)[..|xs + ys| - 1] == xs + ys[..|ys| - 1];
      TallyAppend(me, xs, ys[..|ys| - 1], c);
    }
  }

  ghost predicate Apart(st: Folded, c: string) { !(c in st.index && c in st.stray) }

  lemma HitTally(me: int, st: Folded, r: Record, victim: string, c: string)
    requires r.Hit? && |st.stray| < MAX_STRAY_HITS && Apart(st, c)
    ensures var st' := AddHit(me, st, r.code, r.delta, r.owner, victim);
            Apart(st', c) && TallyOf(st', c) == TallyStep(me, TallyOf(st, c), r, c)
  {}

  lemma RowTally(me: int, st: Folded, r: Record, c: string)
    requires r.Row? && Apart(st, c)
    ensures Apart(PutRow(st, r), c) && TallyOf(PutRow(st, r), c) == TallyStep(me, TallyOf(st, c), r, c)
  {}

  lemma ApplyTally(me: int, st: Folded, r: Record, victim: string, c: string)
    requires |st.stray| < MAX_STRAY_HITS && Apart(st, c)
    ensures var st' := Apply(me, st, r, victim);
            Apart(st', c) && TallyOf(st', c) == TallyStep(me, TallyOf(st, c), r, c)
  {
    hide AddHit, PutRow;
    match r {
      case Del(_) =>
      case Hit(_, _, _) => HitTally(me, st, r, victim, c);
      case Row(_, _, _, _, _, _) => RowTally(me, st, r, c);
    }
  }

  /** The fold over whole logs refines one automaton per code, with codes independent of each other. */
  lemma {:induction false} FoldTally(me: int, recs: seq<Record>, victim: Victim, c: string)
    requires |HitCodes(recs)| < MAX_STRAY_HITS
    ensures TallyOf(Replayed(me, recs, victim), c) == TallyAfter(me, recs, c)
    ensures Apart(Replayed(me, recs, victim), c)
  {
    if recs != [] {
      hide Apply, TallyOf, TallyStep, Apart, HitCodes;
      var k := |recs| - 1;
      NoEviction(me, recs, victim);
      FoldTally(me, recs[..k], victim, c);
      ApplyTally(me, Replayed(me, recs[..k], victim), recs[k], victim(k), c);
    }
  }

  /** Whatever came before a tombstone, waiting hits included, has no effect after it. */
  lemma TombstoneForgets(me: int, before: seq<Record>, after: seq<Record>, c: string, victim: Victim, victim': Victim)
    requires |HitCodes(before + [Del(c)] + after)| < MAX_STRAY_HITS
    ensures var R, R' := Replayed(me, before + [Del(c)] + after, victim), Replayed(me, after, victim');
            LinkOf(R.index, c) == LinkOf(R'.index, c) && TallyOf(R, c) == TallyOf(R', c)
  {
    hide Fold, LinkAfter, TallyAfter, TallyOf;
    var recs := before + [Del(c)] + after;
    assert HitCodes(after) <= HitCodes(recs);
    SubsetSize(HitCodes(after), HitCodes(recs));
    FoldTally(me, recs, victim, c);
    FoldTally(me, after, victim', c);
    TallyForgets(me, before, after, c);
    FoldLink(me, EmptyFold, recs, victim, c);
    FoldLink(me, EmptyFold, after, victim', c);
    LinkAfterAppend(None, before + [Del(c)], after, c);
    assert LinkAfter(None, before + [Del(c)], c) == None by { LinkAfterAppend(None, before, [Del(c)], c); LinkAfterDel(c, LinkAfter(None, before, c)); }
  }

  lemma LinkAfterDel(c: string, b: Option<Link>)
    ensures LinkAfter(b, [Del(c)], c) == None
  {}

  lemma {:induction false} TallyForgets(me: int, before: seq<Record>, after: seq<Record>, c: string)
    ensures TallyAfter(me, before + [Del(c)] + after, c) == TallyAfter(me, after, c)
  {
    var recs := before + [Del(c)] + after;
    if after == [] {
      assert recs == before + [Del(c)];
    } else {
      var k := |after| - 1;
      assert recs[..|recs| - 1] == before + [Del(c)] + after[..k];
      TallyForgets(me, before, after[..k], c);
    }
  }
}
