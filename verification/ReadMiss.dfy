/**
 Reading a sibling's link: the first character of a generated code names the
 instance that owns it, so a miss tails exactly that instance's log; a miss of
 any other code polls all logs, at most every 200 ms (gen_code, alpha_idx,
 tail_missed, poll_locked and resolve in src/store.cpp).
 */
module ReadMiss {
  import opened Common
  import opened Text
  import opened Codec
  import opened Log
  import opened Replay
  import opened Store

  const DIGITS := "0123456789"
  const LOWER := "abcdefghijklmnopqrstuvwxyz"
  const UPPER := "ABCDEFGHIJKLMNOPQRSTUVWXYZ"
  const ALPHABET := DIGITS + LOWER + UPPER
  const CODE_LEN := 8
  const MAX_INSTANCES := 62
  const TAIL_MIN_INTERVAL := 200

  // ---------- codes name their owner ----------

  function Letter(i: nat): char
    requires i < MAX_INSTANCES
  {
    if i < 10 then ('0' as int + i) as char
    else if i < 36 then ('a' as int + (i - 10)) as char
    else ('A' as int + (i - 36)) as char
  }

  lemma AlphabetLetters()
    ensures |ALPHABET| == MAX_INSTANCES
    ensures forall i: nat | i < MAX_INSTANCES :: ALPHABET[i] == Letter(i)
  {
    assert forall i | 0 <= i < 10 :: DIGITS[i] == Letter(i);
    assert forall i | 0 <= i < 26 :: LOWER[i] == Letter(i + 10);
    assert forall i | 0 <= i < 26 :: UPPER[i] == Letter(i + 36);
    forall i: nat | i < MAX_INSTANCES
      ensures ALPHABET[i] == Letter(i)
    {
      if 10 <= i < 36 { assert LOWER[i - 10] == Letter(i); }
      if 36 <= i { assert UPPER[i - 36] == Letter(i); }
    }
  }

  lemma LetterInjective(i: nat, j: nat)
    requires i < MAX_INSTANCES && j < MAX_INSTANCES && Letter(i) == Letter(j)
    ensures i == j
  {}

  /** The position of `c` in the alphabet, or -1. */
  function Position(c: char): (i: int)
    ensures -1 <= i < MAX_INSTANCES
  {
    if '0' <= c <= '9' then c as int - '0' as int
    else if 'a' <= c <= 'z' then c as int - 'a' as int + 10
    else if 'A' <= c <= 'Z' then c as int - 'A' as int + 36
    else -1
  }

  lemma PositionLetter(c: char, k: nat)
    requires k < MAX_INSTANCES
    ensures Letter(k) == c <==> Position(c) == k
  {}

  /** `alpha_idx`. */
  method AlphaIdx(c: char) returns (i: int)
    ensures i == Position(c)
    ensures forall k: nat | k < MAX_INSTANCES :: ALPHABET[k] == c <==> i == k
  {
    hide ALPHABET, Letter, Position;
    AlphabetLetters();
    forall k: nat | k < MAX_INSTANCES
      ensures ALPHABET[k] == c <==> Position(c) == k
    {
      PositionLetter(c, k);
    }
    assert Position(c) < 0 || ALPHABET[Position(c)] == c;
    i := 0;
    while i < MAX_INSTANCES
      invariant 0 <= i <= MAX_INSTANCES
      invariant forall k: nat | k < i :: ALPHABET[k] != c
    {
      if ALPHABET[i] == c { return; }
      i := i + 1;
    }
    i := -1;
  }

  /** `gen_code` of instance `id`, for any random suffix. */
  ghost predicate Generated(code: string, id: nat) {
    && id < MAX_INSTANCES && |code| == CODE_LEN
    && (forall k | 0 <= k < CODE_LEN :: code[k] in ALPHABET)
    && code[0] == ALPHABET[id]
  }

  /** `gen_code`; `draws` are the random numbers drawn. */
  method GenCode(id: nat, draws: seq<nat>) returns (code: string)
    requires id < MAX_INSTANCES && |draws| == CODE_LEN - 1
    ensures Generated(code, id)
    ensures forall k | 1 <= k < CODE_LEN :: Position(code[k]) == draws[k - 1] % MAX_INSTANCES
  {
    hide ALPHABET, Letter, Position;
    AlphabetLetters();
    code := [ALPHABET[id]];
    for k := 0 to CODE_LEN - 1
      invariant |code| == k + 1 && code[0] == ALPHABET[id]
      invariant forall j | 0 <= j <= k :: code[j] in ALPHABET
      invariant forall j | 1 <= j <= k :: Position(code[j]) == draws[j - 1] % MAX_INSTANCES
    {
      var i := draws[k] % MAX_INSTANCES;
      PositionLetter(ALPHABET[i], i);
      code := code + [ALPHABET[i]];
    }
  }

  /** Prefixes are injective: a generated code has exactly one possible owner. */
  lemma OwnerUnique(code: string, id: nat, id': nat)
    requires Generated(code, id) && Generated(code, id')
    ensures id == id'
  {
    hide *;
    AlphabetLetters();
    assert Letter(id) == Letter(id') by { GeneratedFirst(code, id); GeneratedFirst(code, id'); }
    LetterInjective(id, id');
  }

  lemma GeneratedFirst(code: string, id: nat)
    requires Generated(code, id)
    ensures id < MAX_INSTANCES && |code| > 0 && code[0] == Letter(id)
  {
    AlphabetLetters();
  }

  lemma GeneratedCodeOk(code: string, id: nat)
    requires Generated(code, id)
    ensures CodeOk(code)
  {
    AlphabetLetters();
    forall k | 0 <= k < |code|
      ensures exists i: nat :: i < MAX_INSTANCES && code[k] == Letter(i)
    {
      assert code[k] in ALPHABET;
      var i :| 0 <= i < |ALPHABET| && ALPHABET[i] == code[k];
      assert code[k] == Letter(i);
    }
  }

  /** The owner `alpha_idx` finds is the instance that generated the code. */
  lemma GeneratedOwner(code: string, id: nat)
    requires Generated(code, id)
    ensures code != "" && Position(code[0]) == id
  {
    hide Generated, Letter, Position;
    GeneratedFirst(code, id);
    PositionLetter(code[0], id);
  }

  // ---------- one instance among its siblings ----------

  /**
   The logs on disk by instance id (a missing file is empty), this instance's readers of
   them, the time of its last poll, its state, and the aliases it has created.
   */
  datatype World = World(files: seq<string>, readers: seq<Reader>, lastPoll: int, s: State, aliases: set<string>)

  ghost predicate Shaped(w: World) { |w.files| == |w.readers| == MAX_INSTANCES }

  /** One `read_new` of log `i`, each line folded into the index; `sizes` are what the reads return. */
  function TailOne(me: nat, w: World, i: nat, sizes: seq<nat>, victim: Victim): (w': World)
    requires Shaped(w) && i < MAX_INSTANCES
    ensures Shaped(w') && w'.files == w.files && w'.aliases == w.aliases
  {
    var got := Granted(|w.files[i]| - Rewound(w.readers[i], w.files[i]).offset, sizes);
    var (r, lines) := Poll(w.readers[i], w.files[i], got);
    var f := Fold(me, FoldedOf(w.s), ReadLines(lines), victim);
    w.(readers := w.readers[i := r], s := w.s.(index := f.index, stray := f.stray))
  }

  /** What the reads of each log return during one poll. */
  type Sizes = nat -> seq<nat>

  function TailAll(me: nat, w: World, ids: seq<nat>, sizes: Sizes, victims: seq<Victim>): (w': World)
    requires Shaped(w) && |victims| == |ids| && forall i <- ids :: i < MAX_INSTANCES
    ensures Shaped(w') && w'.files == w.files && w'.aliases == w.aliases
  {
    if ids == [] then w else
    var k := |ids| - 1;
    assert ids[k] in ids && forall i <- ids[..k] :: i in ids;
    TailOne(me, TailAll(me, w, ids[..k], sizes, victims[..k]), ids[k], sizes(ids[k]), victims[k])
  }

  /** An order in which a poll visits the siblings. */
  ghost predicate PollOrder(me: nat, order: seq<nat>) {
    && (forall i: nat :: i in order <==> i < MAX_INSTANCES && i != me)
    && (forall i, j | 0 <= i < j < |order| :: order[i] != order[j])
  }

  /** The logs a miss of `code` reads: its owner's, or when a poll is due all. */
  function Route(me: nat, code: string, due: bool, order: seq<nat>): seq<nat> {
    if code == "" then []
    else if Position(code[0]) >= 0 && Position(code[0]) != me then [Position(code[0])]
    else if due then order else []
  }

  predicate Due(w: World, now: int) { now - w.lastPoll >= TAIL_MIN_INTERVAL }

  /** `tail_missed`. */
  function TailMissed(me: nat, w: World, code: string, now: int, order: seq<nat>, sizes: Sizes, victims: seq<Victim>): (w': World)
    requires Shaped(w) && (forall i <- order :: i < MAX_INSTANCES) && |victims| == |Route(me, code, Due(w, now), order)|
    ensures Shaped(w') && w'.files == w.files && w'.aliases == w.aliases
  {
    var w' := TailAll(me, w, Route(me, code, Due(w, now), order), sizes, victims);
    if code != "" && ((Position(code[0]) >= 0 && Position(code[0]) != me) || Due(w, now)) then w'.(lastPoll := now) else w'
  }

  function Served(index: Index, code: string, now: int): Option<string> {
    if Resolvable(index, code, now) then Some(index[code].url) else None
  }

  /** Counts the hit of a read that finds a live link. */
  function Counted(s: State, code: string, now: int): State {
    if Resolvable(s.index, code, now) then Resolved(s, code) else s
  }

  /** `resolve`: the world it leaves, and its answer. */
  function ReadOf(me: nat, w: World, code: string, now: int, order: seq<nat>, sizes: Sizes, victims: seq<Victim>): (r: (World, Option<string>))
    requires Shaped(w) && (forall i <- order :: i < MAX_INSTANCES) && |victims| == |Route(me, code, Due(w, now), order)|
    ensures Shaped(r.0) && r.0.files == w.files && r.0.aliases == w.aliases
  {
    var w1 := if code in w.s.index then w else TailMissed(me, w, code, now, order, sizes, victims);
    (w1.(s := Counted(w1.s, code, now)), Served(w1.s.index, code, now))
  }

  // ---------- the read as the source runs it ----------

  /** The values of the readers. */
  function ReadersOf(ts: seq<TailReader>): (rs: seq<Reader>)
    reads ts
    ensures |rs| == |ts| && forall i | 0 <= i < |ts| :: rs[i] == ts[i].Value()
  {
    if ts == [] then [] else [ts[0].Value()] + ReadersOf(ts[1..])
  }

  /** An instance with its readers. */
  class Instance {
    const inner: Inner
    const readers: seq<TailReader>
    var lastPoll: int

    ghost predicate Valid() {
      && |readers| == MAX_INSTANCES && 0 <= inner.me < MAX_INSTANCES
      && forall i, j | 0 <= i < j < |readers| :: readers[i] != readers[j]
    }

    ghost function Value(files: seq<string>): World
      reads this, inner, inner.aof, readers
    {
      World(files, ReadersOf(readers), lastPoll, inner.Value(), {})
    }

    constructor (inner: Inner, readers: seq<TailReader>)
      ensures this.inner == inner && this.readers == readers
    {
      this.inner, this.readers, lastPoll := inner, readers, 0;
    }

    method ReadLog(files: seq<string>, i: nat, sizes: seq<nat>) returns (ghost victim: Victim)
      requires Valid() && |files| == MAX_INSTANCES && i < MAX_INSTANCES
      modifies inner`index, inner`stray, readers
      ensures Value(files) == TailOne(inner.me, old(Value(files)), i, sizes, victim)
    {
      hide Granted, Lines, Tail, Fold, ReadLines, Poll, Rewound, ReadersOf;
      var lines := readers[i].ReadNew(files[i], sizes);
      assert forall j | 0 <= j < MAX_INSTANCES && j != i :: readers[j].Value() == old(readers[j].Value());
      ghost var vs := inner.ApplyLines(lines);
      victim := VictimOf(vs);
      assert ReadersOf(readers) == old(ReadersOf(readers))[i := readers[i].Value()];
    }

    /** The loop of `poll_locked`, over the readers in some order. */
    method ReadLogs(files: seq<string>, ids: seq<nat>, sizes: Sizes) returns (ghost victims: seq<Victim>)
      requires Valid() && |files| == MAX_INSTANCES && forall i <- ids :: i < MAX_INSTANCES
      modifies inner`index, inner`stray, readers
      ensures |victims| == |ids| && Value(files) == TailAll(inner.me, old(Value(files)), ids, sizes, victims)
    {
      hide TailOne;
      victims := [];
      assert ids[..0] == [];
      for k := 0 to |ids|
        invariant |victims| == k
        invariant forall i <- ids[..k] :: i in ids
        invariant Value(files) == TailAll(inner.me, old(Value(files)), ids[..k], sizes, victims)
      {
        assert ids[k] in ids;
        ghost var v := ReadLog(files, ids[k], sizes(ids[k]));
        assert ids[..k + 1][..k] == ids[..k] && (victims + [v])[..k] == victims;
        victims := victims + [v];
      }
      assert ids[..|ids|] == ids;
    }

    method TailMiss(files: seq<string>, code: string, now: int, order: seq<nat>, sizes: Sizes) returns (ghost victims: seq<Victim>)
      requires Valid() && |files| == MAX_INSTANCES && forall i <- order :: i < MAX_INSTANCES
      modifies inner`index, inner`stray, readers, this`lastPoll
      ensures |victims| == |Route(inner.me, code, Due(old(Value(files)), now), order)|
      ensures Value(files) == TailMissed(inner.me, old(Value(files)), code, now, order, sizes, victims)
      ensures lastPoll == if code != "" && ((Position(code[0]) >= 0 && Position(code[0]) != inner.me) || now - old(lastPoll) >= 200)
                          then now else old(lastPoll)
    {
      hide TailAll, ALPHABET, Position;
      victims := [];
      if code == "" { TailNone(inner.me, Value(files), sizes); return; }
      var owner := AlphaIdx(code[0]);
      if owner >= 0 && owner != inner.me {
        victims := ReadLogs(files, [owner], sizes);
        lastPoll := now;
      } else if now - lastPoll >= TAIL_MIN_INTERVAL {
        victims := ReadLogs(files, order, sizes);
        lastPoll := now;
      } else {
        TailNone(inner.me, Value(files), sizes);
      }
    }

    method Resolve(files: seq<string>, code: string, now: int, order: seq<nat>, sizes: Sizes)
      returns (url: Option<string>, ghost victims: seq<Victim>)
      requires Valid() && |files| == MAX_INSTANCES && forall i <- order :: i < MAX_INSTANCES
      modifies inner`index, inner`stray, inner`dirty, readers, this`lastPoll
      ensures |victims| == |Route(inner.me, code, Due(old(Value(files)), now), order)|
      ensures (Value(files), url) == ReadOf(inner.me, old(Value(files)), code, now, order, sizes, victims)
    {
      hide TailMissed, Route;
      var found := code in inner.index;
      url := inner.ResolveLocal(code, now);
      if found {
        victims := AnyVictims(|Route(inner.me, code, Due(old(Value(files)), now), order)|);
        return;
      }
      victims := TailMiss(files, code, now, order, sizes);
      url := inner.ResolveLocal(code, now);
    }
  }

  lemma TailNone(me: nat, w: World, sizes: Sizes)
    requires Shaped(w)
    ensures TailAll(me, w, [], sizes, []) == w
  {}

  ghost function AnyVictims(n: nat): (vs: seq<Victim>)
    ensures |vs| == n
  {
    seq(n, _ => _ => "")
  }

  // ---------- every run of an instance among its siblings ----------

  datatype Step =
    | Grow(i: nat, bytes: string)                          // a sibling writes, any bytes
    | PollLogs(now: int, order: seq<nat>, sizes: Sizes, victims: seq<Victim>)
    | Read(code: string, now: int, order: seq<nat>, sizes: Sizes, victims: seq<Victim>)
    | Shorten(code: string, url: string, now: int, exp: int)
    | Alias(code: string, url: string, now: int, exp: int)
    | ShortenMany(codes: seq<string>, urls: seq<string>, now: int, exp: int)
    | Update(code: string, url: string, exp: int)
    | Remove(code: string)
    | Flush(hits: seq<string>)
    | Compact(hits: seq<string>, keys: seq<string>)

  /** What `Route` needs of the order and of the victims of a read. */
  ghost predicate Readable(me: nat, w: World, code: string, now: int, order: seq<nat>, victims: seq<Victim>) {
    PollOrder(me, order) && |victims| == |Route(me, code, Due(w, now), order)|
  }

  /** Codes not given by a client are generated here; refused operations change nothing. */
  ghost predicate Enabled(me: nat, w: World, step: Step) {
    match step
    case Grow(i, bytes) => i < MAX_INSTANCES && i != me
    case PollLogs(now, order, sizes, victims) => PollOrder(me, order) && |victims| == |order|
    case Read(code, now, order, sizes, victims) => Readable(me, w, code, now, order, victims)
    case Shorten(code, url, now, exp) => Generated(code, me) && code !in w.s.index
    case Alias(code, url, now, exp) => code !in w.s.index
    case ShortenMany(codes, urls, now, exp) => |codes| == |urls| && forall c <- codes :: Generated(c, me)
    case Update(code, url, exp) => Access(me, w.s, code) == Ok
    case Remove(code) => Access(me, w.s, code) == Ok
    case Flush(hits) => Enumerates(hits, w.s.dirty.Keys)
    case Compact(hits, keys) => Enumerates(hits, w.s.dirty.Keys) && Enumerates(keys, OwnCodes(me, w.s.index))
  }

  ghost function Next(me: nat, w: World, step: Step): (w': World)
    requires Shaped(w)
    ensures Shaped(w')
  {
    if !Enabled(me, w, step) then w else
    match step
    case Grow(i, bytes) => w.(files := w.files[i := w.files[i] + bytes])
    case PollLogs(now, order, sizes, victims) => TailAll(me, w, order, sizes, victims).(lastPoll := now)
    case Read(code, now, order, sizes, victims) => ReadOf(me, w, code, now, order, sizes, victims).0
    case Shorten(code, url, now, exp) => w.(s := Created(me, w.s, code, url, now, exp))
    case Alias(code, url, now, exp) => w.(s := Created(me, w.s, code, url, now, exp), aliases := w.aliases + {code})
    case ShortenMany(codes, urls, now, exp) => w.(s := CreatedMany(me, w.s, codes, urls, now, exp))
    case Update(code, url, exp) => w.(s := Updated(me, w.s, code, url, exp))
    case Remove(code) => w.(s := Removed(me, w.s, code))
    case Flush(hits) => w.(s := HitsFlushed(me, w.s, hits))
    case Compact(hits, keys) => w.(s := Compacted(me, w.s, hits, keys))
  }

  ghost function Run(me: nat, w: World, steps: seq<Step>): (w': World)
    requires Shaped(w)
    ensures Shaped(w')
  {
    if steps == [] then w else Next(me, Run(me, w, steps[..|steps| - 1]), steps[|steps| - 1])
  }

  /** The state after boot: logs with any contents, nothing tailed yet; `c`, if known, belongs to `id`. */
  ghost predicate Booted(w: World, c: string, id: nat) {
    && Shaped(w) && (forall i | 0 <= i < MAX_INSTANCES :: w.readers[i] == FreshReader)
    && (c in w.s.index ==> w.s.index[c].owner == id)
  }

  /** Rows and tombstones of `c` are only in the log of `id`, whose rows name it; `c` is no alias made here. */
  ghost predicate Home(w: World, c: string, id: nat)
    requires Shaped(w) && id < MAX_INSTANCES
  {
    && (forall i | 0 <= i < MAX_INSTANCES && i != id :: !Mentions(Records(w.files[i]), c))
    && (forall r <- Records(w.files[id]) :: r.Row? && r.code == c ==> r.owner == id)
    && c !in w.aliases
  }

  ghost predicate InStep(r: Reader, file: string) {
    r.offset <= |file| && r.leftover == Tail(file[..r.offset])
  }

  /** The part of a log that was read. */
  function Seen(w: World, i: nat): string
    requires Shaped(w) && i < MAX_INSTANCES && w.readers[i].offset <= |w.files[i]|
  {
    w.files[i][..w.readers[i].offset]
  }

  /** What this instance has read of the owner's log decides the link it holds. */
  ghost predicate Inv(w: World, c: string, id: nat, boot: Option<Link>) {
    && Shaped(w) && id < MAX_INSTANCES
    && (forall i | 0 <= i < MAX_INSTANCES :: InStep(w.readers[i], w.files[i]))
    && InStep(w.readers[id], w.files[id])
    && LinkOf(w.s.index, c) == LinkAfter(boot, Records(Seen(w, id)), c)
    && (c in w.s.index ==> w.s.index[c].owner == id)
  }

  lemma MentionsPrefix(file: string, k: nat, c: string)
    requires k <= |file|
    ensures Records(file) == Records(file[..k]) + ReadLines(Lines(Tail(file[..k]) + file[k..]))
    ensures Mentions(Records(file[..k]), c) ==> Mentions(Records(file), c)
  {
    hide Records, ReadLines, Lines, Tail;
    RecordsAppend(file[..k], file[k..]);
    assert file[..k] + file[k..] == file;
    assert forall r <- Records(file[..k]) :: r in Records(file);
  }

  /** A read folds exactly the records between the old and the new offset. */
  lemma PollRecords(r: Reader, file: string, got: nat)
    requires InStep(r, file)
    ensures var (r', lines) := Poll(r, file, got);
            InStep(r', file) && Records(file[..r'.offset]) == Records(file[..r.offset]) + ReadLines(lines)
  {
    hide ReadLines, Lines, Tail;
    var (r', lines) := Poll(r, file, got);
    PollSynced(r, file, Lines(file[..r.offset]), got);
    ReadLinesAppend(Lines(file[..r.offset]), lines);
  }

  /** Reads that can get the whole of log `i`. */
  ghost predicate FullRead(w: World, i: nat, sizes: seq<nat>)
    requires Shaped(w) && i < MAX_INSTANCES
  {
    Granted(|w.files[i]|, sizes) == |w.files[i]|
  }

  lemma {:induction false} GrantedLess(want: nat, less: nat, sizes: seq<nat>)
    requires less <= want && Granted(want, sizes) == want
    ensures Granted(less, sizes) == less
    decreases |sizes|
  {
    if less > 0 {
      if sizes[0] < less { GrantedLess(want - sizes[0], less - sizes[0], sizes[1..]); }
    }
  }

  lemma TailOneInv(me: nat, w: World, c: string, id: nat, boot: Option<Link>, i: nat, sizes: seq<nat>, victim: Victim)
    requires Inv(w, c, id, boot) && Home(w, c, id) && i < MAX_INSTANCES
    ensures var w' := TailOne(me, w, i, sizes, victim);
            && Inv(w', c, id, boot)
            && (i != id ==> w'.readers[id] == w.readers[id])
            && (i == id && FullRead(w, i, sizes) ==> w'.readers[id].offset == |w.files[id]|)
            && (w.readers[id].offset == |w.files[id]| ==> w'.readers[id].offset == |w.files[id]|)
  {
    hide Records, ReadLines, Lines, Tail, Fold, LinkAfter, Granted, Mentions;
    var w' := TailOne(me, w, i, sizes, victim);
    var r, file := w.readers[i], w.files[i];
    assert InStep(r, file);
    var got := Granted(|file| - r.offset, sizes);
    if FullRead(w, i, sizes) { GrantedLess(|file|, |file| - r.offset, sizes); }
    PollRecords(r, file, got);
    var (r', lines) := Poll(r, file, got);
    var recs := ReadLines(lines);
    FoldLink(me, FoldedOf(w.s), recs, victim, c);
    if i == id {
      LinkAfterAppend(boot, Records(Seen(w, i)), recs, c);
      MentionsPrefix(file, r'.offset, c);
      OwnerKept(LinkOf(w.s.index, c), recs, c, id);
    } else {
      MentionsPrefix(file, r'.offset, c);
      NoneDecided(Records(Seen(w, i)), recs, c);
      LinkAfterMentioned(LinkOf(w.s.index, c), recs, c);
    }
    assert LinkOf(w'.s.index, c) == LinkAfter(boot, Records(Seen(w', id)), c);
  }

  lemma NoneDecided(xs: seq<Record>, ys: seq<Record>, c: string)
    requires !Mentions(xs + ys, c)
    ensures !Mentions(ys, c)
  {
    assert forall r <- ys :: r in xs + ys;
  }

  lemma {:induction false} OwnerKept(b: Option<Link>, recs: seq<Record>, c: string, id: nat)
    requires b.Some? ==> b.value.owner == id
    requires forall r <- recs :: r.Row? && r.code == c ==> r.owner == id
    ensures var l := LinkAfter(b, recs, c); l.Some? ==> l.value.owner == id
  {
    if recs != [] {
      assert recs[|recs| - 1] in recs;
      assert forall r <- recs[..|recs| - 1] :: r in recs;
      OwnerKept(b, recs[..|recs| - 1], c, id);
    }
  }

  /** What reading some logs leaves: the invariant, and the owner's reader where it was or at the end. */
  ghost predicate TailedTo(w: World, w': World, c: string, id: nat, boot: Option<Link>, read: bool, full: bool) {
    && Inv(w', c, id, boot) && Shaped(w)
    && (!read ==> w'.readers[id] == w.readers[id])
    && (read && full ==> w'.readers[id].offset == |w.files[id]|)
  }

  lemma TailedMore(me: nat, w: World, w1: World, c: string, id: nat, boot: Option<Link>, read: bool, full: bool, i: nat, sizes: seq<nat>, victim: Victim)
    requires Shaped(w) && id < MAX_INSTANCES && Home(w, c, id) && TailedTo(w, w1, c, id, boot, read, full) && i < MAX_INSTANCES
    requires w1.files == w.files && w1.aliases == w.aliases && (i == id && full ==> FullRead(w, i, sizes))
    ensures TailedTo(w, TailOne(me, w1, i, sizes, victim), c, id, boot, read || i == id, full)
  {
    hide Home, TailOne, FullRead, InStep, LinkAfter, Records;
    SameFiles(w, w1, c, id, sizes);
    TailOneInv(me, w1, c, id, boot, i, sizes, victim);
  }

  lemma {:induction false} TailAllInv(me: nat, w: World, c: string, id: nat, boot: Option<Link>, ids: seq<nat>, sizes: Sizes, victims: seq<Victim>)
    requires Inv(w, c, id, boot) && Home(w, c, id)
    requires |victims| == |ids| && forall i <- ids :: i < MAX_INSTANCES
    ensures TailedTo(w, TailAll(me, w, ids, sizes, victims), c, id, boot, id in ids, FullRead(w, id, sizes(id)))
  {
    hide Inv, Home, TailOne, FullRead;
    OwnerOf(w, c, id, boot);
    if ids != [] {
      hide TailedTo;
      var k := |ids| - 1;
      assert ids[k] in ids && forall i <- ids[..k] :: i in ids;
      assert id in ids <==> id in ids[..k] || id == ids[k];
      var w1 := TailAll(me, w, ids[..k], sizes, victims[..k]);
      TailAllInv(me, w, c, id, boot, ids[..k], sizes, victims[..k]);
      TailedMore(me, w, w1, c, id, boot, id in ids[..k], FullRead(w, id, sizes(id)), ids[k], sizes(ids[k]), victims[k]);
    }
  }

  lemma SameFiles(w: World, w': World, c: string, id: nat, sizes: seq<nat>)
    requires Shaped(w) && Shaped(w') && id < MAX_INSTANCES && w'.files == w.files && w'.aliases == w.aliases
    ensures Home(w', c, id) <==> Home(w, c, id)
    ensures FullRead(w', id, sizes) <==> FullRead(w, id, sizes)
  {}

  // ---------- own operations leave the links of other owners alone ----------

  /** Only the index matters for the invariant, and of it only the link of `c`. */
  lemma OwnInv(w: World, s: State, aliases: set<string>, lastPoll: int, c: string, id: nat, boot: Option<Link>)
    requires Inv(w, c, id, boot) && LinkOf(s.index, c) == LinkOf(w.s.index, c)
    ensures Inv(w.(s := s, aliases := aliases, lastPoll := lastPoll), c, id, boot)
  {
    hide Records, LinkAfter, Tail;
  }

  lemma {:induction false} InsertedOthers(me: nat, index: Index, codes: seq<string>, urls: seq<string>, now: int, exp: int, c: string)
    requires |codes| == |urls| && c !in codes
    ensures LinkOf(Inserted(me, index, codes, urls, now, exp), c) == LinkOf(index, c)
  {
    if codes != [] {
      var k := |codes| - 1;
      assert codes[k] in codes;
      InsertedOthers(me, index, codes[..k], urls[..k], now, exp, c);
    }
  }

  lemma CountedLink(s: State, code: string, now: int, c: string)
    ensures LinkOf(Counted(s, code, now).index, c) == LinkOf(s.index, c)
  {}

  /** Creating, updating, removing, flushing and compacting never change the link of a code owned elsewhere. */
  lemma OwnStepInv(me: nat, w: World, c: string, id: nat, boot: Option<Link>, step: Step)
    requires Inv(w, c, id, boot) && id != me && !Generated(c, me) && c !in Next(me, w, step).aliases
    requires !step.Grow? && !step.PollLogs? && !step.Read?
    ensures Inv(Next(me, w, step), c, id, boot)
  {
    hide Generated, Print, Render, Inv, Inserted;
    assert c in w.s.index ==> w.s.index[c].owner == id by { OwnerOf(w, c, id, boot); }
    var w' := Next(me, w, step);
    if step.ShortenMany? && Enabled(me, w, step) {
      InsertedOthers(me, w.s.index, step.codes, step.urls, step.now, step.exp, c);
    }
    assert LinkOf(w'.s.index, c) == LinkOf(w.s.index, c);
    OwnInv(w, w'.s, w'.aliases, w'.lastPoll, c, id, boot);
  }

  lemma OwnerOf(w: World, c: string, id: nat, boot: Option<Link>)
    requires Inv(w, c, id, boot)
    ensures Shaped(w) && id < MAX_INSTANCES && (c in w.s.index ==> w.s.index[c].owner == id)
  {}

  // ---------- every step keeps the invariant ----------

  lemma GrowInv(me: nat, w: World, c: string, id: nat, boot: Option<Link>, i: nat, bytes: string)
    requires Inv(w, c, id, boot)
    ensures Inv(Next(me, w, Grow(i, bytes)), c, id, boot)
  {
    hide Records, LinkAfter, Tail;
    var w' := Next(me, w, Grow(i, bytes));
    forall j | 0 <= j < MAX_INSTANCES
      ensures InStep(w'.readers[j], w'.files[j])
    {
      assert InStep(w.readers[j], w.files[j]);
      assert w'.files[j][..w.readers[j].offset] == w.files[j][..w.readers[j].offset];
    }
    assert Seen(w', id) == Seen(w, id);
  }

  /** A read keeps the invariant, and its answer depends on whether it reads the owner's log. */
  lemma ReadInv(me: nat, w: World, c: string, id: nat, boot: Option<Link>, code: string, now: int,
                order: seq<nat>, sizes: Sizes, victims: seq<Victim>)
    requires Inv(w, c, id, boot) && Home(w, c, id) && Readable(me, w, code, now, order, victims)
    ensures Inv(ReadOf(me, w, code, now, order, sizes, victims).0, c, id, boot)
  {
    hide Inv, Home, TailAll, Route, Counted;
    OwnerOf(w, c, id, boot);
    var w1 := w;
    if code !in w.s.index {
      var ids := Route(me, code, Due(w, now), order);
      RouteBounded(me, code, Due(w, now), order);
      TailAllInv(me, w, c, id, boot, ids, sizes, victims);
      var w2 := TailAll(me, w, ids, sizes, victims);
      w1 := TailMissed(me, w, code, now, order, sizes, victims);
      OwnInv(w2, w2.s, w2.aliases, w1.lastPoll, c, id, boot);
    }
    CountedLink(w1.s, code, now, c);
    OwnInv(w1, Counted(w1.s, code, now), w1.aliases, w1.lastPoll, c, id, boot);
  }

  lemma RouteBounded(me: nat, code: string, due: bool, order: seq<nat>)
    requires PollOrder(me, order)
    ensures forall i <- Route(me, code, due, order) :: i < MAX_INSTANCES
  {}

  lemma PollInv(me: nat, w: World, c: string, id: nat, boot: Option<Link>, now: int, order: seq<nat>, sizes: Sizes, victims: seq<Victim>)
    requires Inv(w, c, id, boot) && Home(w, c, id) && PollOrder(me, order) && |victims| == |order|
    ensures Inv(TailAll(me, w, order, sizes, victims).(lastPoll := now), c, id, boot)
  {
    hide Inv, Home, TailAll;
    OwnerOf(w, c, id, boot);
    TailAllInv(me, w, c, id, boot, order, sizes, victims);
    var w' := TailAll(me, w, order, sizes, victims);
    OwnInv(w', w'.s, w'.aliases, now, c, id, boot);
  }

  lemma StepInv(me: nat, w: World, c: string, id: nat, boot: Option<Link>, step: Step)
    requires Inv(w, c, id, boot) && Home(Next(me, w, step), c, id) && Home(w, c, id) && id != me && !Generated(c, me)
    ensures Inv(Next(me, w, step), c, id, boot)
  {
    if step.Grow? {
      GrowInv(me, w, c, id, boot, step.i, step.bytes);
    } else if step.PollLogs? {
      hide Inv, Home, TailAll;
      if Enabled(me, w, step) { PollInv(me, w, c, id, boot, step.now, step.order, step.sizes, step.victims); }
    } else if step.Read? {
      hide Inv, Home, ReadOf;
      if Enabled(me, w, step) { ReadInv(me, w, c, id, boot, step.code, step.now, step.order, step.sizes, step.victims); }
    } else {
      hide Inv, Generated, Next;
      OwnStepInv(me, w, c, id, boot, step);
    }
  }

  /** Files and aliases only grow, so a code that has a home at the end had it all along. */
  lemma HomeBefore(me: nat, w: World, c: string, id: nat, step: Step)
    requires Shaped(w) && id < MAX_INSTANCES && Home(Next(me, w, step), c, id)
    ensures Home(w, c, id)
  {
    hide Records, TailAll, ReadOf, Created, CreatedMany, Updated, Removed, HitsFlushed, Compacted, Generated, Mentions;
    var w' := Next(me, w, step);
    forall i | 0 <= i < MAX_INSTANCES
      ensures Mentions(Records(w.files[i]), c) ==> Mentions(Records(w'.files[i]), c)
      ensures forall r <- Records(w.files[i]) :: r in Records(w'.files[i])
    {
      assert w'.files[i][..|w.files[i]|] == w.files[i];
      MentionsPrefix(w'.files[i], |w.files[i]|, c);
    }
  }

  lemma {:induction false} RunInv(me: nat, w0: World, c: string, id: nat, steps: seq<Step>)
    requires Booted(w0, c, id) && id < MAX_INSTANCES && id != me && !Generated(c, me)
    requires Home(Run(me, w0, steps), c, id)
    ensures Inv(Run(me, w0, steps), c, id, LinkOf(w0.s.index, c))
  {
    hide Next, Home, Generated;
    if steps == [] {
      UnbrokenLine("");
      EmptyFile();
      assert w0.files[id][..0] == "" && forall i | 0 <= i < MAX_INSTANCES :: w0.files[i][..0] == "";
    } else {
      hide Booted, Inv;
      var w := Run(me, w0, steps[..|steps| - 1]);
      assert Shaped(w0) by { BootShape(w0, c, id); }
      HomeBefore(me, w, c, id, steps[|steps| - 1]);
      RunInv(me, w0, c, id, steps[..|steps| - 1]);
      StepInv(me, w, c, id, LinkOf(w0.s.index, c), steps[|steps| - 1]);
    }
  }

  lemma BootShape(w: World, c: string, id: nat)
    requires Booted(w, c, id)
    ensures Shaped(w)
  {}

  // ---------- what a read returns ----------

  predicate Fits(l: Option<Link>, now: int, url: Option<string>) {
    url == if l.Some? && (l.value.expiry == 0 || l.value.expiry > now) then Some(l.value.url) else None
  }

  /** The part of the owner's log a read of `c` answers from: all of it, if the read reaches it. */
  ghost function Basis(me: nat, w: World, c: string, id: nat, now: int, order: seq<nat>): string
    requires Shaped(w) && id < MAX_INSTANCES && w.readers[id].offset <= |w.files[id]|
  {
    if c !in w.s.index && id in Route(me, c, Due(w, now), order) then w.files[id] else Seen(w, id)
  }

  lemma AnswerFits(me: nat, w: World, c: string, id: nat, boot: Option<Link>, now: int,
                   order: seq<nat>, sizes: Sizes, victims: seq<Victim>)
    requires Inv(w, c, id, boot) && Home(w, c, id) && Readable(me, w, c, now, order, victims) && FullRead(w, id, sizes(id))
    ensures w.readers[id].offset <= |w.files[id]|
    ensures Fits(LinkAfter(boot, Records(Basis(me, w, c, id, now, order)), c), now,
                 ReadOf(me, w, c, now, order, sizes, victims).1)
  {
    hide Home, TailAll, Route, LinkAfter, Records, Tail;
    if c !in w.s.index {
      var ids := Route(me, c, Due(w, now), order);
      RouteBounded(me, c, Due(w, now), order);
      TailAllInv(me, w, c, id, boot, ids, sizes, victims);
      var w' := TailAll(me, w, ids, sizes, victims);
      assert w.files[id][..|w.files[id]|] == w.files[id];
      assert Seen(w', id) == Basis(me, w, c, id, now, order);
    }
  }

  /** A read of `c` in a state `w` that a run reaches, with reads that can get the whole of the owner's log. */
  ghost predicate Reached(me: nat, w0: World, steps: seq<Step>, w: World, c: string, id: nat, now: int,
                          order: seq<nat>, sizes: Sizes, victims: seq<Victim>) {
    && Booted(w0, c, id) && id < MAX_INSTANCES && id != me && w == Run(me, w0, steps) && Home(w, c, id)
    && Readable(me, w, c, now, order, victims) && FullRead(w, id, sizes(id))
  }

  lemma ReachedFits(me: nat, w0: World, steps: seq<Step>, w: World, c: string, id: nat, now: int,
                    order: seq<nat>, sizes: Sizes, victims: seq<Victim>)
    requires Reached(me, w0, steps, w, c, id, now, order, sizes, victims) && !Generated(c, me)
    ensures w.readers[id].offset <= |w.files[id]|
    ensures Fits(LinkAfter(LinkOf(w0.s.index, c), Records(Basis(me, w, c, id, now, order)), c), now,
                 ReadOf(me, w, c, now, order, sizes, victims).1)
  {
    hide Run, Home, LinkAfter, Records, ReadOf, Inv, FullRead, Generated, Basis;
    RunInv(me, w0, c, id, steps);
    AnswerFits(me, w, c, id, LinkOf(w0.s.index, c), now, order, sizes, victims);
  }

  /**
   Read-miss completeness: in every run, a read of a code generated by another instance that
   misses the index answers with what the whole of the log of that instance says; a read
   that hits answers with what the part already read says.
   */
  lemma ReadMissComplete(me: nat, w0: World, steps: seq<Step>, w: World, c: string, id: nat, now: int,
                         order: seq<nat>, sizes: Sizes, victims: seq<Victim>)
    requires Generated(c, id) && Reached(me, w0, steps, w, c, id, now, order, sizes, victims)
    ensures w.readers[id].offset <= |w.files[id]|
    ensures Fits(LinkAfter(LinkOf(w0.s.index, c), Records(if c in w.s.index then Seen(w, id) else w.files[id]), c),
                 now, ReadOf(me, w, c, now, order, sizes, victims).1)
  {
    hide Run, Home, LinkAfter, Records, ReadOf, FullRead, Generated, Route;
    GeneratedElsewhere(me, c, id);
    ReachedFits(me, w0, steps, w, c, id, now, order, sizes, victims);
    assert Route(me, c, Due(w, now), order) == [id];
  }

  lemma GeneratedElsewhere(me: nat, c: string, id: nat)
    requires Generated(c, id) && id != me
    ensures !Generated(c, me)
    ensures forall due, order :: Route(me, c, due, order) == [id]
  {
    hide Generated, Position;
    GeneratedOwner(c, id);
    if Generated(c, me) { OwnerUnique(c, id, me); }
  }

  /**
   A code generated elsewhere whose every row on disk carries the same link, and that was
   never tombstoned, is served in every state of every run once a row is on disk, until it
   expires.
   */
  lemma UnchangedLinkServed(me: nat, w0: World, steps: seq<Step>, w: World, c: string, id: nat, l: Link, now: int,
                            order: seq<nat>, sizes: Sizes, victims: seq<Victim>)
    requires Generated(c, id) && Reached(me, w0, steps, w, c, id, now, order, sizes, victims)
    requires LinkOf(w0.s.index, c) == None || LinkOf(w0.s.index, c) == Some(l)
    requires Mentions(Records(w.files[id]), c)
    requires forall r <- Records(w.files[id]) :: Decides(r, c) ==> Decision(r) == Some(l)
    requires l.expiry == 0 || l.expiry > now
    ensures ReadOf(me, w, c, now, order, sizes, victims).1 == Some(l.url)
  {
    hide Run, Home, LinkAfter, Records, ReadOf, Readable, FullRead, Generated, Mentions;
    ReadMissComplete(me, w0, steps, w, c, id, now, order, sizes, victims);
    SameDecision(LinkOf(w0.s.index, c), Records(w.files[id]), l, c);
    if c in w.s.index { IndexedLink(me, w0, steps, w, c, id, l); }
  }

  /** A code in the index got its link from boot or from what was read of the log. */
  lemma IndexedLink(me: nat, w0: World, steps: seq<Step>, w: World, c: string, id: nat, l: Link)
    requires Generated(c, id) && Booted(w0, c, id) && id < MAX_INSTANCES && id != me && w == Run(me, w0, steps) && Home(w, c, id)
    requires LinkOf(w0.s.index, c) == None || LinkOf(w0.s.index, c) == Some(l)
    requires forall r <- Records(w.files[id]) :: Decides(r, c) ==> Decision(r) == Some(l)
    requires c in w.s.index && w.readers[id].offset <= |w.files[id]|
    ensures LinkAfter(LinkOf(w0.s.index, c), Records(Seen(w, id)), c) == Some(l)
  {
    hide Run, Home, LinkAfter, Records, Generated, Mentions;
    GeneratedElsewhere(me, c, id);
    RunInv(me, w0, c, id, steps);
    MentionsPrefix(w.files[id], w.readers[id].offset, c);
    assert forall r <- Records(Seen(w, id)) :: r in Records(w.files[id]);
    SameDecision(LinkOf(w0.s.index, c), Records(Seen(w, id)), l, c);
  }

  /**
   The exact reach of a miss, for any code of another instance, alias or generated: a live
   link that is on disk but not yet in the index is served if and only if the miss is routed
   to its log.  An alias that begins with the letter of a third instance is not, even when a
   poll is due.
   */
  lemma MissServedIff(me: nat, w0: World, steps: seq<Step>, w: World, c: string, id: nat, l: Link, now: int,
                      order: seq<nat>, sizes: Sizes, victims: seq<Victim>)
    requires Reached(me, w0, steps, w, c, id, now, order, sizes, victims) && !Generated(c, me)
    requires c !in w.s.index && LinkAfter(LinkOf(w0.s.index, c), Records(w.files[id]), c) == Some(l)
    requires l.expiry == 0 || l.expiry > now
    ensures ReadOf(me, w, c, now, order, sizes, victims).1 == Some(l.url) <==>
              c != "" && if Position(c[0]) >= 0 && Position(c[0]) != me then Position(c[0]) == id else now - w.lastPoll >= 200
  {
    hide Run, Home, LinkAfter, Records, ReadOf, FullRead, Generated, Position;
    ReachedFits(me, w0, steps, w, c, id, now, order, sizes, victims);
    if id !in Route(me, c, Due(w, now), order) { Unreached(me, w0, steps, w, c, id); }
  }

  /** A code not in the index has no link in what was read. */
  lemma Unreached(me: nat, w0: World, steps: seq<Step>, w: World, c: string, id: nat)
    requires Booted(w0, c, id) && id < MAX_INSTANCES && id != me && w == Run(me, w0, steps) && Home(w, c, id) && !Generated(c, me)
    requires c !in w.s.index && w.readers[id].offset <= |w.files[id]|
    ensures LinkAfter(LinkOf(w0.s.index, c), Records(Seen(w, id)), c) == None
  {
    hide Run, Home, LinkAfter, Records, Generated;
    RunInv(me, w0, c, id, steps);
  }

  /**
   A served read counts once: it adds one to the hits, the own hits and the dirty counter of
   its code on top of what the logs it read say, and touches no other dirty counter; a read
   that is not served counts nothing.
   */
  lemma ReadCounts(me: nat, w: World, c: string, now: int, order: seq<nat>, sizes: Sizes, victims: seq<Victim>, x: string)
    requires Shaped(w) && Readable(me, w, c, now, order, victims)
    ensures var (w', url) := ReadOf(me, w, c, now, order, sizes, victims);
            var index := if c in w.s.index then w.s.index else TailMissed(me, w, c, now, order, sizes, victims).s.index;
            && (url.Some? <==> c in index && (index[c].expiry == 0 || now < index[c].expiry))
            && w'.s.index == (if url.Some? then index[c := index[c].(h := index[c].h + 1, oh := index[c].oh + 1)] else index)
            && DirtyOf(w'.s.dirty, x) == DirtyOf(w.s.dirty, x) + (if url.Some? && x == c then 1 else 0)
  {
    hide TailAll, Route;
    RouteBounded(me, c, Due(w, now), order);
    if c !in w.s.index { TailKeepsDirty(me, w, Route(me, c, Due(w, now), order), sizes, victims); }
  }

  lemma {:induction false} TailKeepsDirty(me: nat, w: World, ids: seq<nat>, sizes: Sizes, victims: seq<Victim>)
    requires Shaped(w) && |victims| == |ids| && forall i <- ids :: i < MAX_INSTANCES
    ensures TailAll(me, w, ids, sizes, victims).s.dirty == w.s.dirty
  {
    if ids != [] {
      hide Granted, Poll, Fold, ReadLines;
      var k := |ids| - 1;
      assert forall i <- ids[..k] :: i in ids;
      TailKeepsDirty(me, w, ids[..k], sizes, victims[..k]);
    }
  }

  /** Within 200 ms of a poll, a miss of a code that names no sibling reads nothing and changes nothing. */
  lemma MissRateLimited(me: nat, w: World, c: string, now: int, order: seq<nat>, sizes: Sizes, victims: seq<Victim>)
    requires Shaped(w) && Readable(me, w, c, now, order, victims) && c !in w.s.index
    requires (c == "" || Position(c[0]) < 0 || Position(c[0]) == me) && now - w.lastPoll < 200
    ensures ReadOf(me, w, c, now, order, sizes, victims) == (w, None)
  {
    hide Position;
    TailNone(me, w, sizes);
  }

  /** A miss that reads logs sets the clock of the next poll. */
  lemma MissSetsPoll(me: nat, w: World, c: string, now: int, order: seq<nat>, sizes: Sizes, victims: seq<Victim>)
    requires Shaped(w) && Readable(me, w, c, now, order, victims) && c !in w.s.index && c != ""
    requires (Position(c[0]) >= 0 && Position(c[0]) != me) || now - w.lastPoll >= 200
    ensures ReadOf(me, w, c, now, order, sizes, victims).0.lastPoll == now
  {
    hide Position, TailAll, Counted;
    RouteBounded(me, c, Due(w, now), order);
  }

  lemma {:induction false} SameDecision(b: Option<Link>, recs: seq<Record>, l: Link, c: string)
    requires forall r <- recs :: Decides(r, c) ==> Decision(r) == Some(l)
    ensures LinkAfter(b, recs, c) == if Mentions(recs, c) then Some(l) else b
  {
    LinkAfterMentioned(b, recs, c);
    if Mentions(recs, c) {
      var k := |recs| - 1;
      assert recs[k] in recs;
      if !Decides(recs[k], c) {
        assert forall r <- recs[..k] :: r in recs;
        assert forall r <- recs :: r in recs[..k] || r == recs[k];
        assert Mentions(recs[..k], c);
        SameDecision(b, recs[..k], l, c);
      }
    }
  }
}
