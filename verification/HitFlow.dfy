/**
 The life of a hit in src/store.cpp, at the grain of its locks: creating a link
 inserts first and logs later, resolving counts first and marks dirty later,
 flushing collects dirty counters into a local buffer and pushes it later.  Any
 number of threads may be between any two of these steps.
 */
module HitFlow {
  import opened Text
  import opened Codec
  import opened Replay

  datatype World = World(
    index: Index,
    unlogged: map<string, Record>,   // creators between insert and push
    inflight: map<string, nat>,      // resolvers between count and mark
    dirty: map<string, nat>,
    buffers: seq<seq<Record>>,       // local buffers of the running flushers
    log: seq<Record>)

  datatype Step =
    | CreateInsert(c: string, url: string, created: int, expiry: int)
    | CreatePush(c: string)
    | ResolveCount(c: string)
    | ResolveMark(c: string)
    | FlushBegin
    | FlushCollect(f: nat, c: string)
    | FlushPush(f: nat)

  const Initial := World(map[], map[], map[], map[], [], [])

  function Count(m: map<string, nat>, c: string): nat { if c in m then m[c] else 0 }

  predicate Enabled(w: World, s: Step) {
    match s
    case CreateInsert(c, _, _, _) => c !in w.index
    case CreatePush(c) => c in w.unlogged
    case ResolveCount(c) => c in w.index
    case ResolveMark(c) => Count(w.inflight, c) > 0
    case FlushBegin => true
    case FlushCollect(f, c) => f < |w.buffers| && c in w.dirty
    case FlushPush(f) => f < |w.buffers|
  }

  /** One step of instance `me`; a step that is not enabled does nothing. */
  function Next(me: int, w: World, s: Step): World {
    if !Enabled(w, s) then w else
    match s
    case CreateInsert(c, url, created, expiry) =>
      w.(index := w.index[c := Entry(url, created, expiry, me, 0, 0)],
         unlogged := w.unlogged[c := Row(c, url, created, expiry, me, 0)])
    case CreatePush(c) => w.(log := w.log + [w.unlogged[c]], unlogged := w.unlogged - {c})
    case ResolveCount(c) =>
      var e := w.index[c];
      w.(index := w.index[c := e.(h := e.h + 1, oh := e.oh + 1)],
         inflight := w.inflight[c := Count(w.inflight, c) + 1])
    case ResolveMark(c) =>
      w.(inflight := w.inflight[c := w.inflight[c] - 1], dirty := w.dirty[c := Count(w.dirty, c) + 1])
    case FlushBegin => w.(buffers := w.buffers + [[]])
    case FlushCollect(f, c) =>
      w.(buffers := w.buffers[f := w.buffers[f] + [Hit(c, w.dirty[c], me)]], dirty := w.dirty - {c})
    case FlushPush(f) => w.(log := w.log + w.buffers[f], buffers := w.buffers[f := []])
  }

  function Run(me: int, steps: seq<Step>): World {
    if steps == [] then Initial
    else Next(me, Run(me, steps[..|steps| - 1]), steps[|steps| - 1])
  }

  // ---------- where a counted hit can be ----------

  function Buffered(buffers: seq<seq<Record>>, c: string): int {
    if buffers == [] then 0 else
    Buffered(buffers[..|buffers| - 1], c) + HitSum(buffers[|buffers| - 1], c)
  }

  /** Hits of `c` counted in the index but not yet in the log. */
  function Pending(w: World, c: string): int {
    Buffered(w.buffers, c) + Count(w.dirty, c) + Count(w.inflight, c)
  }

  ghost predicate Conserved(w: World, c: string) {
    var hits := HitSum(w.log, c) + Pending(w, c);
    if c in w.index then w.index[c].h == hits && w.index[c].oh == hits else hits == 0
  }

  /** The row of `c` is in the log or in its creator's hands, and says what the index says. */
  ghost predicate RowHeld(w: World, c: string) {
    && Untombed(w.log, c) && RowHits(w.log, c) == 0
    && (c in w.unlogged ==> c in w.index && w.unlogged[c].Row? && w.unlogged[c].code == c && w.unlogged[c].hits == 0
                            && Decision(w.unlogged[c]) == LinkOf(w.index, c))
    && (c in w.unlogged || c !in w.index ==> RowCount(w.log, c) == 0)
    && (c !in w.unlogged && c in w.index ==>
          RowCount(w.log, c) == 1 && LinkAfter(None, w.log, c) == LinkOf(w.index, c))
  }

  ghost predicate HitsOnly(recs: seq<Record>) { forall r <- recs :: r.Hit? }

  ghost predicate Inv(w: World) {
    && (forall c :: Conserved(w, c) && RowHeld(w, c))
    && (forall b <- w.buffers :: HitsOnly(b))
  }

  // ---------- sums over buffers ----------

  lemma {:induction false} BufferedUpdate(buffers: seq<seq<Record>>, f: nat, b: seq<Record>, c: string)
    requires f < |buffers|
    ensures Buffered(buffers[f := b], c) == Buffered(buffers, c) - HitSum(buffers[f], c) + HitSum(b, c)
  {
    hide HitSum;
    var k := |buffers| - 1;
    if f < k {
      assert buffers[f := b][..k] == buffers[..k][f := b];
      BufferedUpdate(buffers[..k], f, b, c);
    } else {
      assert buffers[f := b][..k] == buffers[..k];
    }
  }

  lemma {:induction false} AppendHits(recs: seq<Record>, b: seq<Record>, c: string)
    requires HitsOnly(b)
    ensures HitSum(recs + b, c) == HitSum(recs, c) + HitSum(b, c)
    ensures RowCount(recs + b, c) == RowCount(recs, c) && RowHits(recs + b, c) == RowHits(recs, c)
    ensures LinkAfter(None, recs + b, c) == LinkAfter(None, recs, c)
  {
    if b == [] {
      assert recs + b == recs;
    } else {
      hide HitSum, RowCount, RowHits, LinkAfter, OwnSum;
      var b0, r := b[..|b| - 1], b[|b| - 1];
      assert b == b0 + [r] && r in b;
      AppendHits(recs, b0, c);
      PushRecord(0, recs + b0, r, c);
      PushRecord(0, b0, r, c);
      assert recs + b == recs + b0 + [r];
    }
  }

  // ---------- every step conserves hits ----------

  lemma StepConserves(me: int, w: World, s: Step, c: string)
    requires Inv(w)
    ensures Conserved(Next(me, w, s), c)
  {
    hide HitSum, LinkAfter, RowCount, RowHits, OwnSum;
    var w' := Next(me, w, s);
    assert Conserved(w, c);
    match s {
      case CreateInsert(d, _, _, _) =>
      case CreatePush(d) =>
        assert RowHeld(w, d);
        if Enabled(w, s) { PushRecord(me, w.log, w.unlogged[d], c); }
      case ResolveCount(d) =>
      case ResolveMark(d) =>
      case FlushBegin => assert w'.buffers[..|w.buffers|] == w.buffers; EmptySum(c);
      case FlushCollect(f, d) =>
        if Enabled(w, s) {
          BufferedUpdate(w.buffers, f, w'.buffers[f], c);
          PushRecord(me, w.buffers[f], Hit(d, w.dirty[d], me), c);
        }
      case FlushPush(f) =>
        if Enabled(w, s) {
          assert w.buffers[f] in w.buffers;
          BufferedUpdate(w.buffers, f, [], c);
          AppendHits(w.log, w.buffers[f], c);
          EmptySum(c);
        }
    }
  }

  lemma EmptySum(c: string)
    ensures HitSum([], c) == 0
  {}

  lemma StepHoldsRow(me: int, w: World, s: Step, c: string)
    requires Inv(w)
    ensures RowHeld(Next(me, w, s), c)
  {
    hide HitSum, LinkAfter, RowCount, RowHits, OwnSum, Buffered;
    assert RowHeld(w, c);
    match s {
      case CreatePush(d) =>
        if Enabled(w, s) {
          assert RowHeld(w, d);
          PushRecord(me, w.log, w.unlogged[d], c);
          assert forall r <- w.log + [w.unlogged[d]] :: r in w.log || r == w.unlogged[d];
        }
      case FlushPush(f) =>
        if Enabled(w, s) {
          assert w.buffers[f] in w.buffers;
          AppendHits(w.log, w.buffers[f], c);
          assert forall r <- w.log + w.buffers[f] :: r in w.log || r in w.buffers[f];
        }
      case _ =>
    }
  }

  lemma StepBuffers(me: int, w: World, s: Step)
    requires Inv(w)
    ensures forall b <- Next(me, w, s).buffers :: HitsOnly(b)
  {
    var w' := Next(me, w, s);
    forall b <- w'.buffers
      ensures HitsOnly(b)
    {
      if b !in w.buffers && b != [] {
        assert s.FlushCollect? && w.buffers[s.f] in w.buffers;
      }
    }
  }

  lemma {:induction false} RunInv(me: int, steps: seq<Step>)
    ensures Inv(Run(me, steps))
  {
    if steps != [] {
      hide Conserved, RowHeld, Next;
      var s, w := steps[|steps| - 1], Run(me, steps[..|steps| - 1]);
      RunInv(me, steps[..|steps| - 1]);
      forall c
        ensures Conserved(Next(me, w, s), c) && RowHeld(Next(me, w, s), c)
      {
        StepConserves(me, w, s, c);
        StepHoldsRow(me, w, s, c);
      }
      StepBuffers(me, w, s);
    }
  }

  /** Reads of `c` that were counted, over the sequence of steps. */
  function Served(me: int, steps: seq<Step>, c: string): nat {
    if steps == [] then 0 else
    var w, s := Run(me, steps[..|steps| - 1]), steps[|steps| - 1];
    Served(me, steps[..|steps| - 1], c) + if s == ResolveCount(c) && Enabled(w, s) then 1 else 0
  }

  /** A code is created once, and its counter is the number of its counted reads. */
  lemma {:induction false} CountedReads(me: int, steps: seq<Step>, c: string)
    ensures if c in Run(me, steps).index then Run(me, steps).index[c].h == Served(me, steps, c) else Served(me, steps, c) == 0
  {
    if steps != [] { CountedReads(me, steps[..|steps| - 1], c); }
  }

  /**
   Hit conservation: after every interleaving, the reads counted for a code are its hits;
   these are those in the log plus those in flushers' buffers, in `dirty`, and with resolvers between their
   two steps.  Once its row is logged, replaying the log gives the link and exactly the
   logged hits, even when hit lines precede the row.
   */
  lemma HitConservation(me: int, steps: seq<Step>, c: string, victim: Victim)
    requires c in Run(me, steps).index
    ensures var w := Run(me, steps);
            && w.index[c].h == Served(me, steps, c) == HitSum(w.log, c) + Pending(w, c)
            && (c !in w.unlogged && |HitCodes(w.log)| < MAX_STRAY_HITS ==>
                  var replayed := Replayed(me, w.log, victim).index;
                  && LinkOf(replayed, c) == LinkOf(w.index, c)
                  && replayed[c].h + Pending(w, c) == w.index[c].h)
  {
    hide Run, HitSum, OwnSum, LinkAfter, RowCount, RowHits, Buffered, Fold, HitCodes;
    var w := Run(me, steps);
    RunInv(me, steps);
    CountedReads(me, steps, c);
    assert Conserved(w, c) && RowHeld(w, c);
    if c !in w.unlogged && |HitCodes(w.log)| < MAX_STRAY_HITS {
      FoldCounts(me, w.log, victim, c);
      FoldLink(me, EmptyFold, w.log, victim, c);
    }
  }
}
