/**
 Merging sibling logs: whatever order an instance happens to tail the logs in,
 the index it ends with is the same (poll_locked and apply in src/store.cpp).
 */
module Merge {
  import opened Text
  import opened Codec
  import opened Replay

  /** A record and the log it was read from. */
  datatype Tagged = Tagged(src: nat, rec: Record)

  function Untag(w: seq<Tagged>): seq<Record> {
    seq(|w|, k requires 0 <= k < |w| => w[k].rec)
  }

  /** The records of `w` that came from log `i`, in order. */
  function Proj(w: seq<Tagged>, i: nat): seq<Record> {
    if w == [] then [] else
    Proj(w[..|w| - 1], i) + if w[|w| - 1].src == i then [w[|w| - 1].rec] else []
  }

  /** `w` is an order-preserving interleaving of `logs`. */
  ghost predicate Interleaves(w: seq<Tagged>, logs: seq<seq<Record>>) {
    && (forall x <- w :: x.src < |logs|)
    && (forall i | 0 <= i < |logs| :: Proj(w, i) == logs[i])
  }

  /** All rows and tombstones of `c` are in log `home`. */
  ghost predicate Home(logs: seq<seq<Record>>, c: string, home: nat) {
    home < |logs| && forall i | 0 <= i < |logs| && i != home :: !Mentions(logs[i], c)
  }

  lemma ProjPush(w: seq<Tagged>, x: Tagged, i: nat)
    ensures Proj(w + [x], i) == if x.src == i then Proj(w, i) + [x.rec] else Proj(w, i)
    ensures Untag(w + [x]) == Untag(w) + [x.rec]
  {
    assert (w + [x])[..|w|] == w;
  }

  lemma {:induction false} TagMembers(w: seq<Tagged>)
    ensures forall x <- w :: x.rec in Proj(w, x.src)
  {
    if w != [] {
      var k := |w| - 1;
      TagMembers(w[..k]);
      assert w == w[..k] + [w[k]];
    }
  }

  /** When only log `home` decides `c`, the rest of the interleaving does not matter to its link. */
  lemma {:induction false} ProjLink(w: seq<Tagged>, home: nat, c: string)
    requires forall x <- w :: Decides(x.rec, c) ==> x.src == home
    ensures LinkAfter(None, Untag(w), c) == LinkAfter(None, Proj(w, home), c)
    ensures RowCount(Untag(w), c) == RowCount(Proj(w, home), c)
    ensures RowHits(Untag(w), c) == RowHits(Proj(w, home), c)
  {
    if w != [] {
      hide LinkAfter, RowCount, RowHits, Proj, Untag, HitSum, OwnSum;
      var x, w0 := w[|w| - 1], w[..|w| - 1];
      assert w == w0 + [x] && x in w;
      ProjLink(w0, home, c);
      ProjPush(w0, x, home);
      PushRecord(0, Untag(w0), x.rec, c);
      PushRecord(0, Proj(w0, home), x.rec, c);
    }
  }

  lemma HomeTags(w: seq<Tagged>, logs: seq<seq<Record>>, c: string, home: nat)
    requires Interleaves(w, logs) && Home(logs, c, home)
    ensures forall x <- w :: Decides(x.rec, c) ==> x.src == home
  {
    TagMembers(w);
  }

  /**
   Confluence of links: any two interleavings, folded by any two instances with any
   evictions, agree with each other and with the home log read alone.
   */
  lemma MergeLinks(me: int, me': int, logs: seq<seq<Record>>, w: seq<Tagged>, w': seq<Tagged>,
                   victim: Victim, victim': Victim, c: string, home: nat)
    requires Interleaves(w, logs) && Interleaves(w', logs) && Home(logs, c, home)
    ensures LinkOf(Replayed(me, Untag(w), victim).index, c) == LinkAfter(None, logs[home], c)
    ensures LinkOf(Replayed(me', Untag(w'), victim').index, c) == LinkOf(Replayed(me, Untag(w), victim).index, c)
  {
    HomeTags(w, logs, c, home);
    HomeTags(w', logs, c, home);
    ProjLink(w, home, c);
    ProjLink(w', home, c);
    FoldLink(me, EmptyFold, Untag(w), victim, c);
    FoldLink(me', EmptyFold, Untag(w'), victim', c);
  }

  // ---------- hits ----------

  /** The sum of `f` over the records. */
  function Sum(recs: seq<Record>, f: Record -> int): int {
    if recs == [] then 0 else Sum(recs[..|recs| - 1], f) + f(recs[|recs| - 1])
  }

  function SumLogs(logs: seq<seq<Record>>, f: Record -> int): int {
    if logs == [] then 0 else SumLogs(logs[..|logs| - 1], f) + Sum(logs[|logs| - 1], f)
  }

  function SumProj(w: seq<Tagged>, n: nat, f: Record -> int): int {
    if n == 0 then 0 else SumProj(w, n - 1, f) + Sum(Proj(w, n - 1), f)
  }

  lemma SumPush(recs: seq<Record>, r: Record, f: Record -> int)
    ensures Sum(recs + [r], f) == Sum(recs, f) + f(r)
  {
    assert (recs + [r])[..|recs|] == recs;
  }

  lemma SumProjStep(w: seq<Tagged>, n: nat, f: Record -> int)
    requires n > 0
    ensures SumProj(w, n, f) == SumProj(w, n - 1, f) + Sum(Proj(w, n - 1), f)
  {}

  lemma {:induction false} SumProjPush(w: seq<Tagged>, x: Tagged, n: nat, f: Record -> int)
    ensures SumProj(w + [x], n, f) == SumProj(w, n, f) + if x.src < n then f(x.rec) else 0
  {
    if n != 0 {
      hide Proj, Sum, Untag, SumProj;
      SumProjStep(w, n, f);
      SumProjStep(w + [x], n, f);
      SumProjPush(w, x, n - 1, f);
      ProjPush(w, x, n - 1);
      SumPush(Proj(w, n - 1), x.rec, f);
    }
  }

  lemma {:induction false} SumProjNil(n: nat, f: Record -> int)
    ensures SumProj([], n, f) == 0
  {
    if n != 0 { SumProjNil(n - 1, f); }
  }

  /** A sum over the interleaving is the sum over its projections. */
  lemma {:induction false} SumUntag(w: seq<Tagged>, n: nat, f: Record -> int)
    requires forall x <- w :: x.src < n
    ensures Sum(Untag(w), f) == SumProj(w, n, f)
  {
    if w == [] {
      SumProjNil(n, f);
    } else {
      var k := |w| - 1;
      assert w[k] in w;
      SumUntag(w[..k], n, f);
      assert w == w[..k] + [w[k]];
      SumProjPush(w[..k], w[k], n, f);
      assert Untag(w)[..k] == Untag(w[..k]);
    }
  }

  lemma {:induction false} SumProjLogs(w: seq<Tagged>, logs: seq<seq<Record>>, n: nat, f: Record -> int)
    requires n <= |logs| && forall i | 0 <= i < n :: Proj(w, i) == logs[i]
    ensures SumProj(w, n, f) == SumLogs(logs[..n], f)
  {
    if n != 0 {
      SumProjLogs(w, logs, n - 1, f);
      assert logs[..n][..n - 1] == logs[..n - 1];
    }
  }

  lemma {:induction false} SumIsHitSum(me: int, recs: seq<Record>, c: string)
    ensures Sum(recs, r => HitDelta(r, c)) == HitSum(recs, c)
    ensures Sum(recs, r => OwnDelta(me, r, c)) == OwnSum(me, recs, c)
  {
    if recs != [] { SumIsHitSum(me, recs[..|recs| - 1], c); }
  }

  function AllHitCodes(logs: seq<seq<Record>>): set<string> {
    set i, r | 0 <= i < |logs| && r in logs[i] && r.Hit? :: r.code
  }

  lemma InterleavedCodes(w: seq<Tagged>, logs: seq<seq<Record>>, c: string, home: nat)
    requires Interleaves(w, logs) && Home(logs, c, home) && Untombed(logs[home], c)
    ensures HitCodes(Untag(w)) <= AllHitCodes(logs)
    ensures Untombed(Untag(w), c)
  {
    TagMembers(w);
    forall r <- Untag(w)
      ensures !(r.Del? && r.code == c)
      ensures r.Hit? ==> r.code in AllHitCodes(logs)
    {
      var x :| x in w && x.rec == r;
      assert r in logs[x.src];
    }
  }

  lemma HomeProj(w: seq<Tagged>, logs: seq<seq<Record>>, home: nat)
    requires Interleaves(w, logs) && home < |logs|
    ensures Proj(w, home) == logs[home]
  {}

  lemma SumInterleaved(w: seq<Tagged>, logs: seq<seq<Record>>, f: Record -> int)
    requires Interleaves(w, logs)
    ensures Sum(Untag(w), f) == SumLogs(logs, f)
  {
    SumUntag(w, |logs|, f);
    SumProjLogs(w, logs, |logs|, f);
    assert logs[..|logs|] == logs;
  }

  /**
   Confluence of hits: a code with one row and no tombstone ends, in every interleaving,
   with its row's counter plus all deltas of all logs; `oh` with the reader's own deltas.
   */
  lemma MergeHits(me: int, logs: seq<seq<Record>>, w: seq<Tagged>, victim: Victim, c: string, home: nat)
    requires Interleaves(w, logs) && Home(logs, c, home)
    requires RowCount(logs[home], c) == 1 && Untombed(logs[home], c)
    requires |AllHitCodes(logs)| < MAX_STRAY_HITS
    ensures var index := Replayed(me, Untag(w), victim).index;
            && c in index
            && index[c].h == RowHits(logs[home], c) + SumLogs(logs, r => HitDelta(r, c))
            && index[c].oh == RowHits(logs[home], c) + SumLogs(logs, r => OwnDelta(me, r, c))
  {
    hide Interleaves, Untag, Proj, Sum, SumLogs, HitSum, OwnSum, RowCount, RowHits, LinkAfter, Fold, AllHitCodes, HitCodes;
    InterleavedCodes(w, logs, c, home);
    SubsetSize(HitCodes(Untag(w)), AllHitCodes(logs));
    HomeTags(w, logs, c, home);
    ProjLink(w, home, c);
    HomeProj(w, logs, home);
    FoldCounts(me, Untag(w), victim, c);
    SumInterleaved(w, logs, r => HitDelta(r, c));
    SumInterleaved(w, logs, r => OwnDelta(me, r, c));
    SumIsHitSum(me, Untag(w), c);
  }
}
