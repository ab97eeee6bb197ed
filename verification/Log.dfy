/**
 The append-only log of src/aof.cpp and src/aof.hpp: files are byte strings,
 `read` and `write` return the sizes given by a schedule.
 */
module Log {
  import opened Text
  import opened Codec

  const NL := '\n'

  // ---------- lines of a file ----------

  /** The non-empty complete lines of `s`, in order. */
  function Lines(s: string): seq<string> {
    var line := Before(s, NL);
    if |line| == |s| then []
    else (if line == "" then [] else [line]) + Lines(s[|line| + 1..])
  }

  /** What follows the last newline of `s`. */
  function Tail(s: string): (t: string)
    ensures |t| <= |s| && NL !in t
  {
    var line := Before(s, NL);
    if |line| == |s| then s else Tail(s[|line| + 1..])
  }

  lemma UnbrokenLine(s: string)
    requires NL !in s
    ensures Lines(s) == [] && Tail(s) == s
  {
    BeforeUnique(s, NL, "");
  }

  lemma LinesStep(line: string, rest: string)
    requires NL !in line
    ensures Lines(line + [NL] + rest) == (if line == "" then [] else [line]) + Lines(rest)
    ensures Tail(line + [NL] + rest) == Tail(rest)
  {
    BeforeUnique(line, NL, rest);
    assert (line + [NL] + rest)[|line| + 1..] == rest;
  }

  /** Splitting can resume at any byte from the unterminated tail alone. */
  lemma {:induction false} LinesAppend(s: string, t: string)
    ensures Lines(s + t) == Lines(s) + Lines(Tail(s) + t)
    ensures Tail(s + t) == Tail(Tail(s) + t)
    decreases |s|
  {
    hide Lines, Tail;
    var line := Before(s, NL);
    if |line| == |s| {
      UnbrokenLine(s);
    } else {
      var rest := s[|line| + 1..];
      assert s == line + [NL] + rest;
      assert s + t == line + [NL] + (rest + t);
      LinesStep(line, rest);
      LinesStep(line, rest + t);
      LinesAppend(rest, t);
    }
  }

  /** The line-splitting loop of `replay_file` and `read_new`. */
  method SplitLines(buf: string) returns (lines: seq<string>, start: nat)
    ensures lines == Lines(buf)
    ensures start <= |buf| && buf[start..] == Tail(buf)
  {
    hide Lines, Tail;
    lines, start := [], 0;
    assert buf[0..] == buf;
    for i := 0 to |buf|
      invariant 0 <= start <= i
      invariant NL !in buf[start..i]
      invariant lines + Lines(buf[start..]) == Lines(buf)
      invariant Tail(buf[start..]) == Tail(buf)
    {
      if buf[i] == NL {
        assert buf[start..] == buf[start..i] + [NL] + buf[i + 1..];
        LinesStep(buf[start..i], buf[i + 1..]);
        if i > start { lines := lines + [buf[start..i]]; }
        start := i + 1;
      }
    }
    UnbrokenLine(buf[start..]);
  }

  // ---------- reading ----------

  /** How many of `want` bytes a read loop gets when successive reads return `sizes`; 0 ends it. */
  function Granted(want: nat, sizes: seq<nat>): (got: nat)
    ensures got <= want
  {
    if want == 0 || sizes == [] || sizes[0] == 0 then 0
    else
      var n := if sizes[0] < want then sizes[0] else want;
      n + Granted(want - n, sizes[1..])
  }

  method ReadLoop(file: string, offset: nat, sizes: seq<nat>) returns (buf: string)
    requires offset <= |file|
    ensures buf == file[offset..offset + Granted(|file| - offset, sizes)]
  {
    var got, k := 0, 0;
    buf := "";
    assert sizes[0..] == sizes;
    while got < |file| - offset && k < |sizes| && sizes[k] != 0
      invariant 0 <= k <= |sizes|
      invariant 0 <= got <= |file| - offset
      invariant buf == file[offset..offset + got]
      invariant got + Granted(|file| - offset - got, sizes[k..]) == Granted(|file| - offset, sizes)
      decreases |sizes| - k
    {
      var n := if sizes[k] < |file| - offset - got then sizes[k] else |file| - offset - got;
      assert sizes[k..][1..] == sizes[k + 1..];
      buf := buf + file[offset + got..offset + got + n];
      got, k := got + n, k + 1;
    }
  }

  /** `replay_file`: a torn tail is ignored. */
  method ReplayFile(file: string, sizes: seq<nat>) returns (lines: seq<string>)
    ensures lines == Lines(file[..Granted(|file|, sizes)])
  {
    var buf := ReadLoop(file, 0, sizes);
    var start;
    lines, start := SplitLines(buf);
  }

  // ---------- tailing a sibling's log ----------

  datatype Reader = Reader(offset: nat, leftover: string)

  const FreshReader := Reader(0, "")

  /** A file shorter than the offset was truncated: start over. */
  function Rewound(r: Reader, file: string): (r': Reader)
    ensures r'.offset <= |file|
  {
    if |file| < r.offset then FreshReader else r
  }

  /** One `read_new` in which the read loop gets `got` more bytes. */
  function Poll(r: Reader, file: string, got: nat): (Reader, seq<string>) {
    var r0 := Rewound(r, file);
    var n := if got < |file| - r0.offset then got else |file| - r0.offset;
    var text := r0.leftover + file[r0.offset..r0.offset + n];
    if r0.offset == |file| then (r0, []) else (Reader(r0.offset + n, Tail(text)), Lines(text))
  }

  class TailReader {
    var offset: nat
    var leftover: string

    constructor ()
      ensures Value() == FreshReader
    {
      offset, leftover := 0, "";
    }

    function Value(): Reader
      reads this
    {
      Reader(offset, leftover)
    }

    method ReadNew(file: string, sizes: seq<nat>) returns (lines: seq<string>)
      modifies this
      ensures var got := Granted(|file| - Rewound(old(Value()), file).offset, sizes);
              (Value(), lines) == Poll(old(Value()), file, got)
    {
      hide Lines, Tail, Granted;
      if |file| < offset { offset, leftover := 0, ""; }
      if |file| <= offset { return []; }
      var buf := ReadLoop(file, offset, sizes);
      offset := offset + |buf|;
      leftover := leftover + buf;
      var start;
      lines, start := SplitLines(leftover);
      leftover := leftover[start..];
    }
  }

  /** Exactly the non-empty complete lines of the first `offset` bytes were delivered. */
  ghost predicate Synced(r: Reader, file: string, delivered: seq<string>) {
    r.offset <= |file| && delivered == Lines(file[..r.offset]) && r.leftover == Tail(file[..r.offset])
  }

  lemma PollSynced(r: Reader, file: string, delivered: seq<string>, got: nat)
    requires Synced(r, file, delivered)
    ensures var (r', lines) := Poll(r, file, got); Synced(r', file, delivered + lines)
  {
    hide Lines, Tail;
    var (r', lines) := Poll(r, file, got);
    var piece := file[r.offset..r'.offset];
    assert file[..r'.offset] == file[..r.offset] + piece;
    LinesAppend(file[..r.offset], piece);
  }

  datatype TailStep = Append(bytes: string) | ReadNew(got: nat)

  datatype TailWorld = TailWorld(file: string, reader: Reader, delivered: seq<string>)

  function TailNext(w: TailWorld, step: TailStep): TailWorld {
    match step
    case Append(bytes) => w.(file := w.file + bytes)
    case ReadNew(got) =>
      var (r, lines) := Poll(w.reader, w.file, got);
      w.(reader := r, delivered := w.delivered + lines)
  }

  function TailRun(steps: seq<TailStep>): TailWorld {
    if steps == [] then TailWorld("", FreshReader, [])
    else TailNext(TailRun(steps[..|steps| - 1]), steps[|steps| - 1])
  }

  /** Over every schedule of appends and short reads, no line is lost, repeated or split. */
  lemma {:induction false} TailRefinesReplay(steps: seq<TailStep>)
    ensures var w := TailRun(steps);
            Synced(w.reader, w.file, w.delivered) && (w.reader.offset == |w.file| ==> w.delivered == Lines(w.file))
  {
    hide Lines, Tail;
    var w := TailRun(steps);
    if steps == [] {
      UnbrokenLine("");
    } else {
      var k := |steps| - 1;
      var w0 := TailRun(steps[..k]);
      TailRefinesReplay(steps[..k]);
      match steps[k] {
        case Append(bytes) => assert w.file[..w.reader.offset] == w0.file[..w.reader.offset];
        case ReadNew(got) => PollSynced(w0.reader, w0.file, w0.delivered, got);
      }
    }
    assert w.file[..|w.file|] == w.file;
  }

  // ---------- writing ----------

  /** The log file and the bytes queued for it. */
  class Aof {
    var disk: string
    var buf: string

    constructor (contents: string)
      ensures disk == contents && buf == ""
    {
      disk, buf := contents, "";
    }

    method Push(line: string)
      modifies this
      ensures disk == old(disk) && buf == old(buf) + line + [NL]
    {
      buf := buf + line + [NL];
    }

    method PushRaw(bytes: string)
      modifies this
      ensures disk == old(disk) && buf == old(buf) + bytes
    {
      buf := buf + bytes;
    }

    /** Every write is accepted at least in part, as `writes` says. */
    method Flush(writes: seq<nat>)
      modifies this
      ensures disk == old(disk) + old(buf) && buf == ""
    {
      var p, k := 0, 0;
      while p < |buf|
        invariant 0 <= p <= |buf| && buf == old(buf)
        invariant disk == old(disk) + buf[..p]
      {
        var left := |buf| - p;
        var n := if k < |writes| && 0 < writes[k] < left then writes[k] else left;
        assert buf[..p + n] == buf[..p] + buf[p..p + n];
        disk := disk + buf[p..p + n];
        p, k := p + n, k + 1;
      }
      assert buf[..|buf|] == buf;
      buf := "";
    }

    method Truncate(writes: seq<nat>)
      modifies this
      ensures disk == "" && buf == ""
    {
      Flush(writes);
      disk := "";
    }
  }

  // ---------- records of a file ----------

  /** What the store reads out of a sequence of lines: unreadable lines are skipped. */
  function ReadLines(lines: seq<string>): seq<Record> {
    if lines == [] then [] else
    var k := |lines| - 1;
    ReadLines(lines[..k]) + (match ReadLine(lines[k]) case Some(r) => [r] case None => [])
  }

  function Records(file: string): seq<Record> { ReadLines(Lines(file)) }

  function Render(recs: seq<Record>): string {
    if recs == [] then "" else
    var k := |recs| - 1;
    Render(recs[..k]) + Print(recs[k]) + [NL]
  }

  predicate AllPrintable(recs: seq<Record>) { forall r <- recs :: Printable(r) }

  lemma {:induction false} ReadLinesAppend(a: seq<string>, b: seq<string>)
    ensures ReadLines(a + b) == ReadLines(a) + ReadLines(b)
  {
    hide ReadLine;
    if b == [] {
      assert a + b == a;
    } else {
      var k := |b| - 1;
      assert (a + b)[..|a| + k] == a + b[..k];
      ReadLinesAppend(a, b[..k]);
    }
  }

  /** Appending bytes to a file can only append records. */
  lemma RecordsAppend(file: string, bytes: string)
    ensures Records(file + bytes) == Records(file) + ReadLines(Lines(Tail(file) + bytes))
  {
    LinesAppend(file, bytes);
    ReadLinesAppend(Lines(file), Lines(Tail(file) + bytes));
  }

  /** Appending one printed record to a file that ends in a newline appends exactly that record. */
  lemma RecordsPush(file: string, r: Record)
    requires Tail(file) == "" && Printable(r)
    ensures Records(file + Print(r) + [NL]) == Records(file) + [r]
    ensures Tail(file + Print(r) + [NL]) == ""
  {
    hide Print, ReadLine, Lines, Tail;
    var line := Print(r);
    PrintOneLine(r);
    ReadPrint(r);
    RecordsAppend(file, line + [NL]);
    assert file + (line + [NL]) == file + line + [NL];
    assert Tail(file) + (line + [NL]) == line + [NL] + "";
    LinesStep(line, "");
    UnbrokenLine("");
    LinesAppend(file, line + [NL]);
    assert Lines(line + [NL] + "") == [line];
    assert [line][..0] == [];
    assert ReadLines([line]) == [r];
  }

  lemma {:induction false} RecordsRender(file: string, recs: seq<Record>)
    requires Tail(file) == "" && AllPrintable(recs)
    ensures Records(file + Render(recs)) == Records(file) + recs
    ensures Tail(file + Render(recs)) == ""
  {
    hide Records, Tail, Print, Printable;
    if recs == [] {
      assert file + Render(recs) == file;
    } else {
      var k := |recs| - 1;
      assert recs == recs[..k] + [recs[k]];
      RecordsRender(file, recs[..k]);
      RecordsPush(file + Render(recs[..k]), recs[k]);
      assert file + Render(recs) == file + Render(recs[..k]) + Print(recs[k]) + [NL];
    }
  }

  function Newlines(s: string): nat {
    if s == "" then 0 else Newlines(s[..|s| - 1]) + if s[|s| - 1] == NL then 1 else 0
  }

  lemma {:induction false} NewlinesAppend(s: string, t: string)
    ensures Newlines(s + t) == Newlines(s) + Newlines(t)
  {
    if t == "" {
      assert s + t == s;
    } else {
      assert (s + t)[..|s + t| - 1] == s + t[..|t| - 1];
      NewlinesAppend(s, t[..|t| - 1]);
    }
  }

  lemma {:induction false} NoNewlines(s: string)
    requires NL !in s
    ensures Newlines(s) == 0
  {
    if s != "" {
      assert s[|s| - 1] in s;
      NoNewlines(s[..|s| - 1]);
    }
  }

  lemma {:induction false} RenderNewlines(recs: seq<Record>)
    requires AllPrintable(recs)
    ensures Newlines(Render(recs)) == |recs|
  {
    hide Print, Printable, Newlines;
    OneNewline();
    if recs != [] {
      var k := |recs| - 1;
      RenderNewlines(recs[..k]);
      PrintOneLine(recs[k]);
      NoNewlines(Print(recs[k]));
      NewlinesAppend(Render(recs[..k]), Print(recs[k]));
      NewlinesAppend(Render(recs[..k]) + Print(recs[k]), [NL]);
    }
  }

  lemma OneNewline()
    ensures Newlines("") == 0 && Newlines([NL]) == 1
  {
    assert [NL][..0] == "";
  }

  /**
   Crash-prefix consistency at byte level: cutting a well-formed log at any byte
   keeps exactly the records whose newline survived; the torn line has no effect.
   */
  lemma {:induction false} CrashPrefix(recs: seq<Record>, cut: nat)
    requires AllPrintable(recs) && cut <= |Render(recs)|
    ensures var p := Render(recs)[..cut];
            Newlines(p) <= |recs| && Records(p) == recs[..Newlines(p)]
  {
    hide Records, Print, Newlines;
    var log := Render(recs);
    var p := log[..cut];
    if cut == |log| {
      assert p == log == "" + log;
      UnbrokenLine("");
      RecordsRender("", recs);
      RenderNewlines(recs);
      EmptyFile();
    } else {
      var k := |recs| - 1;
      var head := Render(recs[..k]);
      if cut <= |head| {
        assert p == head[..cut];
        CrashPrefix(recs[..k], cut);
        assert recs[..k][..Newlines(p)] == recs[..Newlines(p)];
      } else {
        TornLine(recs[..k], recs[k], cut - |head|);
        assert p == head + Print(recs[k])[..cut - |head|];
      }
    }
  }

  lemma EmptyFile()
    ensures Records("") == []
  {}

  lemma TornLine(recs: seq<Record>, r: Record, cut: nat)
    requires AllPrintable(recs) && Printable(r) && cut <= |Print(r)|
    ensures var p := Render(recs) + Print(r)[..cut]; Newlines(p) == |recs| && Records(p) == recs
  {
    hide Print, Printable, Lines, Tail, Newlines, Records, Render;
    var head, torn := Render(recs), Print(r)[..cut];
    PrintOneLine(r);
    assert NL !in torn;
    UnbrokenLine(torn);
    UnbrokenLine("");
    EmptyFile();
    assert "" + head == head;
    RecordsRender("", recs);
    assert Tail(head) + torn == torn;
    RecordsAppend(head, torn);
    RenderNewlines(recs);
    NoNewlines(torn);
    NewlinesAppend(head, torn);
  }
}
