/**
 What a client is promised, written over the sequence of operations alone: the
 link each code leads to and the number of reads it served.  Over every run the
 index of src/store.cpp, and what a restart reads back, agree with it.
 */
module Ledger {
  import opened Common
  import opened Text
  import opened Codec
  import opened Log
  import opened Replay
  import opened Store
  import opened Agreement
  import Flow = HitFlow

  // ---------- the reference ----------

  /** The place of `c` in `codes`. */
  function Place(codes: seq<string>, c: string): (k: nat)
    requires c in codes
    ensures k < |codes| && codes[k] == c
  {
    if codes[0] == c then 0 else 1 + Place(codes[1..], c)
  }

  /** The own link of `c` that the accepted operations leave. */
  ghost function Promised(me: int, steps: seq<Step>, c: string): Option<Link> {
    if steps == [] then None else
    var h, was := Run(me, steps[..|steps| - 1]), Promised(me, steps[..|steps| - 1], c);
    PromisedStep(me, h, steps[|steps| - 1], was, c)
  }

  ghost function PromisedStep(me: int, h: Hist, step: Step, was: Option<Link>, c: string): Option<Link> {
    if !Enabled(me, h, step) then was else
    match step
    case Shorten(code, url, now, exp) => if code == c then Some(Link(url, now, exp, me)) else was
    case ShortenMany(codes, urls, now, exp) => if c in codes then Some(Link(urls[Place(codes, c)], now, exp, me)) else was
    case Update(code, url, exp) => if code == c && was.Some? then Some(was.value.(url := url, expiry := exp)) else was
    case Remove(code) => if code == c then None else was
    case _ => was
  }

  /** Reads of `c` served since the dirty counters were last written out or lost. */
  ghost function Unsaved(me: int, steps: seq<Step>, c: string): nat {
    if steps == [] then 0 else
    var h, was := Run(me, steps[..|steps| - 1]), Unsaved(me, steps[..|steps| - 1], c);
    UnsavedStep(me, h, steps[|steps| - 1], was, c)
  }

  ghost function UnsavedStep(me: int, h: Hist, step: Step, was: nat, c: string): nat {
    if !Enabled(me, h, step) then was else
    match step
    case Resolve(code, _) => if code == c then was + 1 else was
    case Flush(_) => 0
    case Compact(_, _) => 0
    case Reopen(_) => 0
    case _ => was
  }

  /**
   Reads of the own code `c` served since it was last created.  A restart forgets the unsaved
   ones; for a code updated or removed since the last compaction it may forget more, so then
   nothing is claimed until the code is created again.
   */
  ghost function Reads(me: int, steps: seq<Step>, c: string): Option<int> {
    if steps == [] then None else
    var pre := steps[..|steps| - 1];
    ReadsStep(me, Run(me, pre), steps[|steps| - 1], Reads(me, pre, c), Unsaved(me, pre, c), c)
  }

  ghost function ReadsStep(me: int, h: Hist, step: Step, was: Option<int>, unsaved: nat, c: string): Option<int> {
    if !Enabled(me, h, step) then was else
    match step
    case Shorten(code, _, _, _) => if code == c then Some(0) else was
    case ShortenMany(codes, _, _, _) => if c in codes then Some(0) else was
    case Remove(code) => if code == c then None else was
    case Resolve(code, _) => if code == c && was.Some? then Some(was.value + 1) else was
    case Reopen(_) => if was.Some? && c !in h.touched then Some(was.value - unsaved) else None
    case _ => was
  }

  // ---------- links ----------

  lemma BulkEntry(me: int, h: Hist, codes: seq<string>, urls: seq<string>, now: int, exp: int, c: string)
    requires Enabled(me, h, ShortenMany(codes, urls, now, exp))
    ensures var index := Act(me, h, ShortenMany(codes, urls, now, exp)).s.index;
            if c in codes then c in index && index[c] == Entry(urls[Place(codes, c)], now, exp, me, 0, 0)
            else (c in index <==> c in h.s.index) && (c in index ==> index[c] == h.s.index[c])
  {
    hide Render, NewRows, Inserted, Fresh;
    InsertedNew(me, h.s.index, codes, urls, now, exp);
    if c in codes { assert codes[Place(codes, c)] == c; }
  }

  /** The link and the counters of `c` after a step are as the reference says. */
  ghost predicate Follows(me: int, h: Hist, step: Step, unsaved: nat, n: Option<int>, c: string)
    requires Enabled(me, h, step)
  {
    var h' := Act(me, h, step);
    && OwnLink(me, h'.s.index, c) == PromisedStep(me, h, step, OwnLink(me, h.s.index, c), c)
    && CountsAre(me, h', UnsavedStep(me, h, step, unsaved, c), ReadsStep(me, h, step, n, unsaved, c), c)
  }

  lemma BulkFollows(me: int, h: Hist, step: Step, unsaved: nat, n: Option<int>, c: string)
    requires step.ShortenMany? && Enabled(me, h, step) && CountsAre(me, h, unsaved, n, c)
    ensures Follows(me, h, step, unsaved, n, c)
  {
    hide Render, NewRows, Inserted, FreshBatch;
    BulkEntry(me, h, step.codes, step.urls, step.now, step.exp, c);
  }

  lemma TailFollows(me: int, h: Hist, step: Step, unsaved: nat, n: Option<int>, victim: Victim, c: string)
    requires step.Tail? && Enabled(me, h, step) && Inv(me, h, victim) && CountsAre(me, h, unsaved, n, c)
    ensures Follows(me, h, step, unsaved, n, c)
  {
    hide Inv, Recovered, Printable;
    KnownAt(me, h, victim, c);
  }

  lemma ReopenFollows(me: int, h: Hist, step: Step, unsaved: nat, n: Option<int>, c: string)
    requires step.Reopen? && Inv(me, h, step.victims) && CountsAre(me, h, unsaved, n, c)
    ensures Follows(me, h, step, unsaved, n, c)
  {
    hide Inv, Recovered;
    KnownAt(me, h, step.victims, c);
  }

  lemma OtherFollows(me: int, h: Hist, step: Step, unsaved: nat, n: Option<int>, c: string)
    requires !step.ShortenMany? && !step.Tail? && !step.Reopen? && Enabled(me, h, step) && CountsAre(me, h, unsaved, n, c)
    ensures Follows(me, h, step, unsaved, n, c)
  {
    hide Render, Print, Enumerates, HitRecords, SnapRecords, PlainCode;
  }

  lemma StepFollows(me: int, h: Hist, step: Step, unsaved: nat, n: Option<int>, victim: Victim, c: string)
    requires Enabled(me, h, step) && (forall v :: Inv(me, h, v)) && CountsAre(me, h, unsaved, n, c)
    ensures Follows(me, h, step, unsaved, n, c)
  {
    hide Inv, Follows, CountsAre;
    if step.ShortenMany? {
      BulkFollows(me, h, step, unsaved, n, c);
    } else if step.Tail? {
      assert Inv(me, h, victim);
      TailFollows(me, h, step, unsaved, n, victim, c);
    } else if step.Reopen? {
      assert Inv(me, h, step.victims);
      ReopenFollows(me, h, step, unsaved, n, c);
    } else {
      OtherFollows(me, h, step, unsaved, n, c);
    }
  }

  lemma KnownAt(me: int, h: Hist, victim: Victim, c: string)
    requires Inv(me, h, victim)
    ensures At(me, h, FilesOf(me, h.s, victim), c)
  {}

  /** The counters of `c` are as the reference says. */
  ghost predicate CountsAre(me: int, h: Hist, unsaved: nat, n: Option<int>, c: string) {
    && DirtyOf(h.s.dirty, c) == unsaved
    && (n.Some? ==> OwnLink(me, h.s.index, c).Some? && h.s.index[c].oh == n.value)
  }

  /** The instance after a run is as the reference says. */
  ghost predicate Agrees(me: int, steps: seq<Step>, c: string) {
    && OwnLink(me, Run(me, steps).s.index, c) == Promised(me, steps, c)
    && CountsAre(me, Run(me, steps), Unsaved(me, steps, c), Reads(me, steps, c), c)
    && ((forall s <- steps :: !s.Reopen?) && Promised(me, steps, c).Some? ==> Reads(me, steps, c).Some?)
  }

  lemma NextAgrees(me: int, steps: seq<Step>, h: Hist, victim: Victim, c: string)
    requires steps != [] && h == Run(me, steps[..|steps| - 1])
    requires Agrees(me, steps[..|steps| - 1], c) && forall v :: Inv(me, h, v)
    ensures Agrees(me, steps, c)
  {
    hide Inv;
    var k := |steps| - 1;
    var pre, step := steps[..k], steps[k];
    assert (forall s <- steps :: !s.Reopen?) ==> !step.Reopen? && forall s <- pre :: !s.Reopen? by {
      assert step in steps && forall s <- pre :: s in steps;
    }
    if Enabled(me, h, step) {
      hide Act;
      StepFollows(me, h, step, Unsaved(me, pre, c), Reads(me, pre, c), victim, c);
    }
  }

  lemma {:induction false} RunAgrees(me: int, steps: seq<Step>, victim: Victim, c: string)
    requires Int32(me) && |steps| <= INT64_MAX
    ensures Agrees(me, steps, c)
  {
    hide Inv, Next;
    if steps != [] {
      hide Agrees, Run;
      var h := Run(me, steps[..|steps| - 1]);
      forall v
        ensures Inv(me, h, v)
      {
        RunInv(me, steps[..|steps| - 1], v);
      }
      RunAgrees(me, steps[..|steps| - 1], victim, c);
      NextAgrees(me, steps, h, victim, c);
    }
  }

  /**
   Links over every run: the index holds, and a restart reads back, exactly the url, creation
   time and expiry that the accepted creations, updates and removals leave.
   */
  lemma LinksOverRuns(me: int, steps: seq<Step>, victim: Victim, c: string)
    requires Int32(me) && |steps| <= INT64_MAX
    ensures var s := Run(me, steps).s;
            && OwnLink(me, s.index, c) == Promised(me, steps, c)
            && LinkOf(Recovered(me, s.snap, LogOf(s), victim).index, c) == Promised(me, steps, c)
  {
    hide Run, Recovered, Promised;
    RunAgrees(me, steps, victim, c);
    AgreementOverRuns(me, steps, victim, c);
  }

  /**
   Hits over every run: the dirty counter of every code is the number of reads served since it
   was last written out, and the own hits of an own code are the number of reads served since
   it was created, a restart having forgotten the unsaved ones; without sibling records all
   its hits are these.  Without restarts every own code has its reads counted so.
   */
  lemma ReadsOverRuns(me: int, steps: seq<Step>, victim: Victim, c: string)
    requires Int32(me) && |steps| <= INT64_MAX
    ensures var h, n := Run(me, steps), Reads(me, steps, c);
            && DirtyOf(h.s.dirty, c) == Unsaved(me, steps, c)
            && (n.Some? ==> c in h.s.index && h.s.index[c].owner == me && h.s.index[c].oh == n.value)
            && (n.Some? && h.alone ==> h.s.index[c].h == n.value)
            && (c in h.s.index && h.s.index[c].owner == me && (forall s <- steps :: !s.Reopen?) ==> n.Some?)
  {
    hide Run, Recovered, Promised, Reads, Unsaved;
    RunAgrees(me, steps, victim, c);
    RunInv(me, steps, victim);
    KnownAt(me, Run(me, steps), victim, c);
  }

  // ---------- one operation, from any state ----------

  /** The rows of a bulk creation decide the links of its codes. */
  lemma {:induction false} NewRowsLink(me: int, codes: seq<string>, urls: seq<string>, now: int, exp: int, b: Option<Link>, c: string)
    requires |codes| == |urls| && forall j, k | 0 <= j < k < |codes| :: codes[j] != codes[k]
    ensures LinkAfter(b, NewRows(me, codes, urls, now, exp), c)
         == if c in codes then Some(Link(urls[Place(codes, c)], now, exp, me)) else b
  {
    var recs := NewRows(me, codes, urls, now, exp);
    if codes == [] {
      assert recs == [];
    } else {
      var k := |codes| - 1;
      assert recs[..k] == NewRows(me, codes[..k], urls[..k], now, exp);
      NewRowsLink(me, codes[..k], urls[..k], now, exp, b, c);
      assert c in codes <==> c in codes[..k] || c == codes[k];
      assert c in codes[..k] ==> codes[Place(codes[..k], c)] == c;
    }
  }

  /** A bulk creation: every code leads to the url at its place, at once and after a restart; no other link changes. */
  lemma ShortenManyEffect(me: int, s: State, codes: seq<string>, urls: seq<string>, now: int, exp: int, victim: Victim, c: string)
    requires Whole(s) && |codes| == |urls| && Int32(me) && Int64(now) && Int64(exp)
    requires (forall x <- codes :: PlainCode(x)) && forall j, k | 0 <= j < k < |codes| :: codes[j] != codes[k]
    ensures var s' := CreatedMany(me, s, codes, urls, now, exp);
            var R, R' := Recovered(me, s.snap, LogOf(s), victim).index, Recovered(me, s'.snap, LogOf(s'), victim).index;
            if c in codes then
              var l := Some(Link(urls[Place(codes, c)], now, exp, me));
              LinkOf(s'.index, c) == l && LinkOf(R', c) == l && s'.index[c].h == 0 && s'.index[c].oh == 0
            else LinkOf(s'.index, c) == LinkOf(s.index, c) && LinkOf(R', c) == LinkOf(R, c)
  {
    hide Render, Records, Log.Tail, Fold, LinkAfter, Printable, NewRows, Inserted;
    var s', recs := CreatedMany(me, s, codes, urls, now, exp), NewRows(me, codes, urls, now, exp);
    InsertedNew(me, s.index, codes, urls, now, exp);
    assert AllPrintable(recs) by { NewRowsPrintable(me, codes, urls, now, exp); }
    RecordsRender(LogOf(s), recs);
    assert LogOf(s') == LogOf(s) + Render(recs);
    var before := Records(s.snap) + Records(LogOf(s));
    assert Records(s'.snap) + Records(LogOf(s')) == before + recs;
    FoldLink(me, EmptyFold, before, victim, c);
    FoldLink(me, EmptyFold, before + recs, victim, c);
    LinkAfterAppend(None, before, recs, c);
    NewRowsLink(me, codes, urls, now, exp, LinkAfter(None, before, c), c);
  }

  lemma NewRowsPrintable(me: int, codes: seq<string>, urls: seq<string>, now: int, exp: int)
    requires |codes| == |urls| && Int32(me) && Int64(now) && Int64(exp) && forall x <- codes :: PlainCode(x)
    ensures AllPrintable(NewRows(me, codes, urls, now, exp))
  {
    hide PlainCode;
    var recs := NewRows(me, codes, urls, now, exp);
    forall r <- recs
      ensures Printable(r)
    {
      var k :| 0 <= k < |recs| && recs[k] == r;
      assert codes[k] in codes;
    }
  }

  /** An update: the code leads to the new url, at once and after a restart, with its creation time and hits; nothing else changes. */
  lemma UpdateEffect(me: int, s: State, code: string, url: string, exp: int, victim: Victim)
    requires Whole(s) && code in s.index && s.index[code].owner == me
    requires PlainCode(code) && Int32(me) && Int64(s.index[code].created) && Int64(exp)
    ensures Access(me, s, code) == Ok
    ensures var s', e := Updated(me, s, code, url, exp), s.index[code];
            var R, R' := Recovered(me, s.snap, LogOf(s), victim).index, Recovered(me, s'.snap, LogOf(s'), victim).index;
            && s'.index == s.index[code := Entry(url, e.created, exp, me, e.h, e.oh)] && s'.dirty == s.dirty
            && LinkOf(R', code) == Some(Link(url, e.created, exp, me))
            && forall c | c != code :: LinkOf(R', c) == LinkOf(R, c)
  {
    hide Print, Recovered, PlainCode;
    var v := FilesPush(me, s, Row(code, url, s.index[code].created, exp, me, 0), victim);
  }

  /** A removal: the code leads nowhere, at once and after a restart; nothing else changes. */
  lemma RemoveEffect(me: int, s: State, code: string, victim: Victim)
    requires Whole(s) && code in s.index && s.index[code].owner == me && PlainCode(code)
    ensures Access(me, s, code) == Ok
    ensures var s' := Removed(me, s, code);
            var R, R' := Recovered(me, s.snap, LogOf(s), victim).index, Recovered(me, s'.snap, LogOf(s'), victim).index;
            && s'.index == s.index - {code} && s'.dirty == s.dirty
            && code !in R' && forall c | c != code :: LinkOf(R', c) == LinkOf(R, c)
  {
    hide Print, Recovered, PlainCode;
    var v := FilesPush(me, s, Del(code), victim);
  }

  // ---------- the lock-level steps ----------

  /** The two locked steps of a read, run without interruption, are the atomic read. */
  lemma AtomicResolve(me: int, w: Flow.World, s: State, c: string, x: string)
    requires w.index == s.index && c in s.index && Flow.Count(w.dirty, x) == DirtyOf(s.dirty, x) && Flow.Count(w.inflight, c) == 0
    ensures var w' := Flow.Next(me, Flow.Next(me, w, Flow.ResolveCount(c)), Flow.ResolveMark(c));
            var s' := Resolved(s, c);
            && w'.index == s'.index && Flow.Count(w'.dirty, x) == DirtyOf(s'.dirty, x) && Flow.Count(w'.inflight, c) == 0
            && w'.log == w.log && w'.buffers == w.buffers && w'.unlogged == w.unlogged
  {}

  /** So are the two locked steps of a creation, up to the queue. */
  lemma AtomicCreate(me: int, w: Flow.World, s: State, c: string, url: string, now: int, exp: int)
    requires w.index == s.index && c !in s.index && c !in w.unlogged
    ensures var w' := Flow.Next(me, Flow.Next(me, w, Flow.CreateInsert(c, url, now, exp)), Flow.CreatePush(c));
            && w'.index == Created(me, s, c, url, now, exp).index && w'.unlogged == w.unlogged
            && w'.log == w.log + [Row(c, url, now, exp, me, 0)]
            && LogOf(Created(me, s, c, url, now, exp)) == LogOf(s) + (Print(Row(c, url, now, exp, me, 0)) + [NL])
  {
    hide Print;
    var line := Print(Row(c, url, now, exp, me, 0)) + [NL];
    assert s.disk + (s.buf + line) == s.disk + s.buf + line;
  }
}
