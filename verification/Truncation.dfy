/**
 A sibling's compaction truncates its log while others tail it.  A reader that
 has read up to its offset notices only when the new log is shorter than that
 (`read_new` in src/aof.cpp); otherwise it goes on in the middle of the new log.
 */
module Truncation {
  import opened Text
  import opened Codec
  import opened Log
  import opened Replay
  import opened Store

  /** A log shorter than the offset is read again from its start. */
  lemma TruncationNoticed(r: Reader, file: string)
    requires |file| < r.offset
    ensures var (r', lines) := Poll(r, file, |file|); Synced(r', file, lines) && r'.offset == |file|
  {
    if file == "" {
      UnbrokenLine("");
    }
    assert "" + file[0..|file|] == file == file[..|file|];
  }

  /** What a complete read of a log that has reached the offset delivers. */
  lemma PollPast(r: Reader, p: string, g: string)
    requires r.offset == |p| && NL !in r.leftover
    ensures Poll(r, p + g, |p + g|).1 == Lines(r.leftover + g)
  {
    hide Lines, Tail;
    assert (p + g)[|p|..|p + g|] == g;
    if g == "" {
      assert r.leftover + g == r.leftover;
      UnbrokenLine(r.leftover);
    }
  }

  /**
   The exact condition for a new log whose first bytes, up to the offset, are `p`: nothing of
   any continuation is lost if and only if `p` has no line and ends in the fragment the
   reader kept from the old log.
   */
  lemma TruncationIff(r: Reader, p: string)
    requires r.offset == |p| && NL !in r.leftover
    ensures (forall g :: Poll(r, p + g, |p + g|).1 == Lines(p + g)) <==> Lines(p) == [] && Tail(p) == r.leftover
  {
    hide Lines, Tail, Poll;
    if Lines(p) == [] && Tail(p) == r.leftover {
      forall g
        ensures Poll(r, p + g, |p + g|).1 == Lines(p + g)
      {
        PollPast(r, p, g);
        LinesAppend(p, g);
      }
    } else if Lines(p) != [] {
      PollPast(r, p, "");
      assert r.leftover + "" == r.leftover && p + "" == p;
      UnbrokenLine(r.leftover);
      assert Poll(r, p + "", |p + ""|).1 != Lines(p + "");
    } else {
      PollPast(r, p, [NL]);
      LinesAppend(p, [NL]);
      OneLine(r.leftover);
      OneLine(Tail(p));
      HeadsDiffer(r.leftover, Tail(p), []);
      assert Poll(r, p + [NL], |p + [NL]|).1 != Lines(p + [NL]);
    }
  }

  /** The line of `x`, which is skipped when empty. */
  function LineOf(x: string): seq<string> { if x == "" then [] else [x] }

  lemma HeadsDiffer(x: string, y: string, rest: seq<string>)
    requires x != y
    ensures LineOf(x) + rest != LineOf(y) + rest
  {
    if x != "" && y != "" { assert (LineOf(x) + rest)[0] != (LineOf(y) + rest)[0]; }
    assert |LineOf(x) + rest| == |LineOf(x)| + |rest|;
  }

  lemma OneLine(x: string)
    requires NL !in x
    ensures Lines(x + [NL]) == LineOf(x) + [] && Tail(x + [NL]) == ""
  {
    hide Lines, Tail;
    assert x + [NL] == x + [NL] + "";
    LinesStep(x, "");
    UnbrokenLine("");
  }

  // ---------- logs of printed records ----------

  lemma {:induction false} FewLines(s: string)
    ensures |Lines(s)| <= Newlines(s)
    decreases |s|
  {
    hide Lines, Newlines;
    var line := Before(s, NL);
    if |line| == |s| {
      UnbrokenLine(s);
    } else {
      var rest := s[|line| + 1..];
      assert s == line + [NL] + rest;
      LinesStep(line, rest);
      NewlinesAppend(line + [NL], rest);
      NewlinesAppend(line, [NL]);
      OneNewline();
      FewLines(rest);
    }
  }

  lemma {:induction false} FewRecords(lines: seq<string>)
    ensures |ReadLines(lines)| <= |lines|
  {
    if lines != [] { FewRecords(lines[..|lines| - 1]); }
  }

  /** A reader past at least one whole line of the new log gets too few lines. */
  lemma TooFewLines(r: Reader, news: seq<Record>, p: string, g: string)
    requires AllPrintable(news) && p + g == Render(news) && NL in p && NL !in r.leftover
    ensures |Lines(r.leftover + g)| < |Lines(p + g)|
  {
    hide Lines, Newlines, Render, ReadLines;
    UnbrokenLine("");
    RecordsRender("", news);
    EmptyFile();
    assert "" + Render(news) == Render(news);
    FewRecords(Lines(p + g));
    RenderNewlines(news);
    NewlinesAppend(p, g);
    NewlinesAppend(r.leftover, g);
    NoNewlines(r.leftover);
    SomeNewline(p);
    FewLines(r.leftover + g);
  }

  lemma {:induction false} SomeNewline(s: string)
    requires NL in s
    ensures Newlines(s) > 0
  {
    if s[|s| - 1] != NL { SomeNewline(s[..|s| - 1]); }
  }

  /** A reader inside the first line of the new log gets another first line, unless it kept just its beginning. */
  lemma OtherFirstLine(r: Reader, p: string, g: string)
    requires NL !in p && NL !in r.leftover && |r.leftover| <= |p| && r.leftover != p && NL in g
    ensures Lines(r.leftover + g) != Lines(p + g)
  {
    hide Lines, Before;
    var x := Before(g, NL);
    BeforeLine(g);
    var rest := g[|x| + 1..];
    assert r.leftover + g == (r.leftover + x) + [NL] + rest;
    assert p + g == (p + x) + [NL] + rest;
    LinesStep(r.leftover + x, rest);
    LinesStep(p + x, rest);
    AppendDiffers(r.leftover, p, x);
    HeadsDiffer(r.leftover + x, p + x, Lines(rest));
  }

  lemma BeforeLine(g: string)
    requires NL in g
    ensures var x := Before(g, NL); NL !in x && |x| < |g| && g == x + [NL] + g[|x| + 1..]
  {}

  lemma AppendDiffers(a: string, b: string, x: string)
    requires a != b && |a| <= |b|
    ensures a + x != b + x
  {
    if |a| == |b| {
      var i :| 0 <= i < |a| && a[i] != b[i];
      assert (a + x)[i] != (b + x)[i];
    }
  }

  /**
   Over logs of printed records this is exact at every single read: all lines of the new log
   are delivered if and only if it is still shorter than the offset, or begins with just the
   fragment the reader holds.
   */
  lemma CompactedLogReadIff(r: Reader, news: seq<Record>)
    requires AllPrintable(news) && NL !in r.leftover && |r.leftover| <= r.offset
    ensures var file := Render(news);
            Poll(r, file, |file|).1 == Lines(file) <==> |file| < r.offset || file[..r.offset] == r.leftover
  {
    hide Lines, Poll, Render;
    var file := Render(news);
    if |file| < r.offset {
      TruncationNoticed(r, file);
      assert file[..|file|] == file;
    } else {
      var p, g := file[..r.offset], file[r.offset..];
      assert p + g == file;
      PollPast(r, p, g);
      if NL in p {
        TooFewLines(r, news, p, g);
      } else if p != r.leftover {
        RenderEnd(news);
        assert file[|file| - 1] == NL;
        OtherFirstLine(r, p, g);
      }
    }
  }

  lemma RenderEnd(recs: seq<Record>)
    ensures Render(recs) != "" ==> Render(recs)[|Render(recs)| - 1] == NL
  {}

  // ---------- what is missed is missed for good ----------

  function TailFrom(w: TailWorld, steps: seq<TailStep>): TailWorld {
    if steps == [] then w else TailNext(TailFrom(w, steps[..|steps| - 1]), steps[|steps| - 1])
  }

  /** Over every later schedule only what follows `p` is delivered. */
  lemma {:induction false} NeverRead(r: Reader, p: string, steps: seq<TailStep>)
    requires r.offset == |p| && r.leftover == ""
    ensures var w := TailFrom(TailWorld(p, r, []), steps);
            && p <= w.file && |p| <= w.reader.offset <= |w.file|
            && w.delivered == Lines(w.file[|p|..w.reader.offset]) && w.reader.leftover == Tail(w.file[|p|..w.reader.offset])
  {
    hide Lines, Tail;
    var w := TailFrom(TailWorld(p, r, []), steps);
    if steps == [] {
      UnbrokenLine("");
      assert w.file[|p|..w.reader.offset] == "";
    } else {
      var k := |steps| - 1;
      var w0 := TailFrom(TailWorld(p, r, []), steps[..k]);
      NeverRead(r, p, steps[..k]);
      match steps[k] {
        case Append(bytes) => assert w.file[|p|..w.reader.offset] == w0.file[|p|..w0.reader.offset];
        case ReadNew(got) =>
          var piece := w0.file[w0.reader.offset..w.reader.offset];
          assert w.file[|p|..w.reader.offset] == w0.file[|p|..w0.reader.offset] + piece;
          LinesAppend(w0.file[|p|..w0.reader.offset], piece);
      }
    }
  }

  /** Rows that differ only in codes of one length, as generated codes are, print to lines of one length. */
  lemma RowLength(c: string, c': string, u: string, a: int, e: int, i: int)
    requires |c| == |c'|
    ensures |Print(Row(c, u, a, e, i, 0))| == |Print(Row(c', u, a, e, i, 0))|
  {
    hide Esc, IntText;
  }

  /**
   A link lost to a reader: it had read a sibling's log of one row when the sibling compacted
   and created link `c`, whose row is as long.  From then on, in every schedule in which the
   sibling logs nothing more about `c`, the reader folds nothing about `c`, although the
   sibling's log holds its link.
   */
  lemma TruncationMissed(me: int, sib: int, s: State, order: seq<string>, keys: seq<string>, was: Record,
                         c: string, u: string, now: int, exp: int, st: Folded, victim: Victim, steps: seq<TailStep>)
    requires Enumerates(order, s.dirty.Keys) && Enumerates(keys, OwnCodes(sib, s.index))
    requires PlainCode(c) && Int64(now) && Int64(exp) && Int32(sib)
    requires Printable(was) && |Print(was)| == |Print(Row(c, u, now, exp, sib, 0))|
    requires var p := Flushed(Created(sib, Compacted(sib, s, order, keys), c, u, now, exp)).disk;
             var w := TailFrom(TailWorld(p, Reader(|Render([was])|, ""), []), steps);
             |p| <= |w.file| && !Mentions(Records(w.file[|p|..]), c)
    ensures var p := Flushed(Created(sib, Compacted(sib, s, order, keys), c, u, now, exp)).disk;
            var w := TailFrom(TailWorld(p, Reader(|Render([was])|, ""), []), steps);
            && Synced(Reader(|Render([was])|, ""), Render([was]), [Print(was)])
            && LinkOf(Fold(me, st, ReadLines(w.delivered), victim).index, c) == LinkOf(st.index, c)
            && LinkAfter(None, Records(w.file), c) == Some(Link(u, now, exp, sib))
  {
    hide Print, Render, ReadLines, Lines, Tail, Fold, LinkAfter, TailFrom, Compacted, Mentions;
    var row := Row(c, u, now, exp, sib, 0);
    var p := Flushed(Created(sib, Compacted(sib, s, order, keys), c, u, now, exp)).disk;
    assert Compacted(sib, s, order, keys).disk == "" && Compacted(sib, s, order, keys).buf == "" by { CompactedLog(sib, s, order, keys); }
    RenderOne(row);
    RenderOne(was);
    PrintOneLine(was);
    OneLine(Print(was));
    assert [Print(was)] + [] == [Print(was)];
    assert (Print(was) + [NL])[..|Print(was)| + 1] == Print(was) + [NL];
    assert p == Render([row]);
    NeverRead(Reader(|p|, ""), p, steps);
    var w := TailFrom(TailWorld(p, Reader(|p|, ""), []), steps);
    MissedRecords(row, p, w.file, w.reader.offset, c);
    FoldLink(me, st, ReadLines(w.delivered), victim, c);
    LinkAfterMentioned(LinkOf(st.index, c), ReadLines(w.delivered), c);
  }

  lemma CompactedLog(sib: int, s: State, order: seq<string>, keys: seq<string>)
    requires Enumerates(order, s.dirty.Keys) && Enumerates(keys, OwnCodes(sib, s.index))
    ensures Compacted(sib, s, order, keys).disk == "" && Compacted(sib, s, order, keys).buf == ""
  {}

  lemma RenderOne(r: Record)
    ensures Render([r]) == Print(r) + [NL]
  {
    hide Print;
    assert [r][..0] == [];
    assert "" + Print(r) + [NL] == Print(r) + [NL];
  }

  /** The new log is the one row and what was appended; what the reader got of it is a part of the latter. */
  lemma MissedRecords(row: Record, p: string, file: string, offset: nat, c: string)
    requires Printable(row) && row.Row? && row.code == c && p == Render([row]) && p <= file && |p| <= offset <= |file|
    requires !Mentions(Records(file[|p|..]), c)
    ensures LinkAfter(None, Records(file), c) == Decision(row)
    ensures !Mentions(Records(file[|p|..offset]), c)
  {
    hide Print, Render, ReadLines, Lines, Tail;
    var rest := file[|p|..];
    UnbrokenLine("");
    EmptyFile();
    RecordsRender("", [row]);
    assert "" + p == p && [] + [row] == [row];
    assert p + rest == file && "" + rest == rest;
    RecordsAppend(p, rest);
    LinkAfterAppend(None, [row], Records(rest), c);
    LinkAfterMentioned(LinkAfter(None, [row], c), Records(rest), c);
    assert file[|p|..offset] + file[offset..] == rest;
    RecordsAppend(file[|p|..offset], file[offset..]);
    assert forall r <- Records(file[|p|..offset]) :: r in Records(rest);
  }
}
