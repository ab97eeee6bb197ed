/**
 The RESP client of src/kv.cpp: the request encoder and the incremental reply
 reader, which takes whatever the socket delivers in whatever chunks.
 */
module Resp {
  import opened Text

  datatype Reply = Reply(kind: char, str: string, num: int, arr: seq<Reply>)

  // ---------- the reference decoder, on a whole stream ----------

  datatype Decoded<T> = Fail | Done(value: T, rest: string)

  function ReadLine(s: string): Decoded<string> {
    var p := Find(s, CRLF);
    if p < 0 then Fail else Done(s[..p], s[p + 2..])
  }

  /** A line holding a number, as `std::stoll` reads it. */
  function ReadNumber(s: string): Decoded<int> {
    match ReadLine(s)
    case Fail => Fail
    case Done(l, rest) => if Stoll(l).None? then Fail else Done(Stoll(l).value, rest)
  }

  function Decode(s: string): (d: Decoded<Reply>)
    ensures d.Done? ==> |d.rest| < |s|
    decreases |s|, 0
  {
    if s == "" then Fail else
    var k, t := s[0], s[1..];
    if k == '+' || k == '-' then
      match ReadLine(t)
      case Fail => Fail
      case Done(l, rest) => Done(Reply(k, l, 0, []), rest)
    else if k == ':' || k == '$' || k == '*' then
      match ReadNumber(t)
      case Fail => Fail
      case Done(n, rest) =>
        if k == ':' || n < 0 then Done(Reply(k, "", n, []), rest)
        else if k == '$' then
          if |rest| < n + 2 then Fail else Done(Reply(k, rest[..n], n, []), rest[n + 2..])
        else
          match DecodeMany(rest, n)
          case Fail => Fail
          case Done(rs, rest') => Done(Reply(k, "", n, rs), rest')
    else Fail
  }

  function DecodeMany(s: string, n: nat): (d: Decoded<seq<Reply>>)
    ensures d.Done? ==> |d.rest| <= |s| && |d.value| == n
    decreases |s|, 1
  {
    if n == 0 then Done([], s) else
    match Decode(s)
    case Fail => Fail
    case Done(r, rest) =>
      match DecodeMany(rest, n - 1)
      case Fail => Fail
      case Done(rs, rest') => Done([r] + rs, rest')
  }

  // ---------- the incremental reader ----------

  /** A connection: the bytes read so far, the position in them, and the chunks still to come. */
  class Conn {
    var rbuf: string
    var rpos: nat
    var incoming: seq<string>

    ghost predicate Valid()
      reads this
    {
      rpos <= |rbuf| && forall c <- incoming :: c != ""
    }

    /** All bytes not yet consumed. */
    ghost function Rest(): string
      requires Valid()
      reads this
    {
      rbuf[rpos..] + Concat(incoming)
    }

    constructor (chunks: seq<string>)
      requires forall c <- chunks :: c != ""
      ensures Valid() && Rest() == Concat(chunks)
    {
      rbuf, rpos, incoming := "", 0, chunks;
    }

    method Fill() returns (ok: bool)
      requires Valid()
      modifies this
      ensures Valid() && Rest() == old(Rest())
      ensures ok <==> old(incoming) != []
      ensures ok ==> |incoming| == |old(incoming)| - 1 && rpos < |rbuf| && old(rbuf[rpos..]) <= rbuf[rpos..]
      ensures !ok ==> rbuf[rpos..] == old(rbuf[rpos..]) && incoming == []
    {
      if rpos == |rbuf| { rbuf, rpos := "", 0; }
      if incoming == [] { return false; }
      var chunk := incoming[0];
      assert chunk in incoming;
      assert forall c <- incoming[1..] :: c in incoming;
      assert rbuf[rpos..] + (chunk + Concat(incoming[1..])) == (rbuf + chunk)[rpos..] + Concat(incoming[1..]);
      rbuf, incoming := rbuf + chunk, incoming[1..];
      ok := true;
    }

    method Byte() returns (ok: bool, b: char)
      requires Valid()
      modifies this
      ensures Valid() && (ok <==> old(Rest()) != "")
      ensures if ok then old(Rest()) == [b] + Rest() else Rest() == old(Rest())
    {
      while true
        invariant Valid() && Rest() == old(Rest())
        decreases |incoming|
      {
        if rpos < |rbuf| {
          b := rbuf[rpos];
          assert Rest() == [b] + (rbuf[rpos + 1..] + Concat(incoming));
          rpos := rpos + 1;
          return true, b;
        }
        var more := Fill();
        if !more { return false, '\0'; }
      }
      return false, '\0';
    }

    method Line() returns (ok: bool, out: string)
      requires Valid()
      modifies this
      ensures Valid()
      ensures var d := ReadLine(old(Rest()));
              if ok then d == Done(out, Rest()) else d.Fail?
    {
      hide Find;
      while true
        invariant Valid() && Rest() == old(Rest())
        decreases |incoming|
      {
        var have := rbuf[rpos..];
        var p := Find(have, CRLF);
        if p >= 0 {
          FindStable(have, CRLF, Concat(incoming));
          out := have[..p];
          assert Rest()[..p] == out;
          assert Rest()[p + 2..] == rbuf[rpos + p + 2..] + Concat(incoming);
          rpos := rpos + p + 2;
          return true, out;
        }
        assert incoming == [] ==> Rest() == have;
        var more := Fill();
        if !more { return false, ""; }
      }
      return false, "";
    }

    /** Consumes `k` bytes that are already buffered. */
    method Take(k: nat) returns (piece: string)
      requires Valid() && rpos + k <= |rbuf|
      modifies this`rpos
      ensures Valid() && k <= |old(Rest())| && piece == old(Rest())[..k] && Rest() == old(Rest())[k..]
    {
      hide Concat;
      piece := rbuf[rpos..rpos + k];
      rpos := rpos + k;
    }

    method Exact(n: nat) returns (ok: bool, out: string)
      requires Valid()
      modifies this
      ensures Valid() && (ok <==> |old(Rest())| >= n)
      ensures ok ==> out == old(Rest())[..n] && Rest() == old(Rest())[n..]
    {
      hide Rest;
      ghost var s := Rest();
      out := "";
      while |out| < n
        invariant Valid() && |out| <= n && |out| <= |s|
        invariant out == s[..|out|] && Rest() == s[|out|..]
        decreases |incoming|, n - |out|
      {
        var avail := |rbuf| - rpos;
        if avail > 0 {
          ghost var had := |out|;
          var k := if avail < n - |out| then avail else n - |out|;
          var piece := Take(k);
          out := out + piece;
          assert s[had..][..k] == s[had..had + k] && s[had..][k..] == s[had + k..];
          assert s[..had] + s[had..had + k] == s[..had + k];
        } else {
          if incoming == [] { Dry(); }
          var more := Fill();
          if !more { return false, out; }
        }
      }
      ok := true;
    }

    lemma Dry()
      requires Valid() && rpos == |rbuf| && incoming == []
      ensures Rest() == ""
    {}

    /** `read_resp`; a number that does not parse throws in the source and fails here. */
    method ReadReply() returns (ok: bool, out: Reply)
      requires Valid()
      modifies this
      ensures Valid()
      ensures var d := Decode(old(Rest()));
              if ok then d == Done(out, Rest()) else d.Fail?
      decreases |Rest()|, 0
    {
      hide ReadLine;
      out := Reply('\0', "", 0, []);
      ok := false;
      ghost var s := Rest();
      var k;
      ok, k := Byte();
      if !ok { return; }
      ghost var t := Rest();
      assert s[0] == k && s[1..] == t;
      if k == '+' || k == '-' {
        var l;
        ok, l := Line();
        out := Reply(k, l, 0, []);
        return;
      }
      if k != ':' && k != '$' && k != '*' { return false, out; }
      var l;
      ok, l := Line();
      if !ok { return; }
      var num := Stoll(l);
      if num.None? { return false, out; }
      var n := num.value;
      out := Reply(k, "", n, []);
      assert ReadNumber(t) == Done(n, Rest());
      if k == ':' || n < 0 { return true, out; }
      if k == '$' {
        var body;
        ok, body := Exact(n + 2);
        if ok {
          assert body[..n] == ReadNumber(t).rest[..n];
          out := Reply(k, body[..n], n, []);
        }
        return;
      }
      assert |Rest()| < |t| by { LineShrinks(t); }
      var rs;
      ok, rs := ReadMany(n);
      out := Reply(k, "", n, rs);
    }

    /** The element loop of `read_resp` and the reply loop of `pipe`. */
    method ReadMany(n: nat) returns (ok: bool, rs: seq<Reply>)
      requires Valid()
      modifies this
      ensures Valid()
      ensures var d := DecodeMany(old(Rest()), n);
              if ok then d == Done(rs, Rest()) else d.Fail?
      decreases |Rest()|, 1
    {
      hide Decode;
      rs := [];
      ghost var s := Rest();
      PrependNil(DecodeMany(s, n));
      for i := 0 to n
        invariant Valid() && |Rest()| <= |s|
        invariant DecodeMany(s, n) == Prepend(rs, DecodeMany(Rest(), n - i))
      {
        ghost var here := Rest();
        var r;
        ok, r := ReadReply();
        assert DecodeMany(s, n) == Prepend(rs, DecodeMany(here, n - i));
        if !ok { return false, rs; }
        PrependStep(rs, r, DecodeMany(Rest(), n - i - 1));
        rs := rs + [r];
      }
      ok := true;
      assert rs + [] == rs;
    }
  }

  ghost function Prepend(rs: seq<Reply>, d: Decoded<seq<Reply>>): Decoded<seq<Reply>> {
    match d
    case Fail => Fail
    case Done(more, rest) => Done(rs + more, rest)
  }

  lemma PrependNil(d: Decoded<seq<Reply>>)
    ensures Prepend([], d) == d
  {
    if d.Done? { assert [] + d.value == d.value; }
  }

  lemma PrependStep(rs: seq<Reply>, r: Reply, d: Decoded<seq<Reply>>)
    ensures Prepend(rs, Prepend([r], d)) == Prepend(rs + [r], d)
  {
    if d.Done? { assert rs + ([r] + d.value) == rs + [r] + d.value; }
  }

  lemma LineShrinks(s: string)
    ensures ReadLine(s).Done? ==> |ReadLine(s).rest| < |s|
    ensures ReadNumber(s).Done? ==> |ReadNumber(s).rest| < |s|
  {}

  // ---------- encoding ----------

  /** What a server may send, and what `read_resp` can represent. */
  predicate Encodable(r: Reply)
    decreases r
  {
    match r.kind
    case '+' => '\r' !in r.str && r.num == 0 && r.arr == []
    case '-' => '\r' !in r.str && r.num == 0 && r.arr == []
    case ':' => r.str == "" && r.arr == [] && Int64(r.num)
    case '$' => r.arr == [] && Int64(r.num) && (if r.num < 0 then r.str == "" else r.num == |r.str|)
    case '*' => r.str == "" && Int64(r.num) && (if r.num < 0 then r.arr == [] else r.num == |r.arr|) && AllEncodable(r.arr)
    case _ => false
  }

  predicate AllEncodable(rs: seq<Reply>)
    decreases rs
  {
    rs == [] || (Encodable(rs[0]) && AllEncodable(rs[1..]))
  }

  function Encode(r: Reply): string
    decreases r
  {
    if r.kind == '+' || r.kind == '-' then [r.kind] + (r.str + CRLF)
    else if r.kind == '$' && r.num >= 0 then [r.kind] + (IntText(r.num) + (CRLF + (r.str + CRLF)))
    else [r.kind] + (IntText(r.num) + (CRLF + EncodeAll(r.arr)))
  }

  function EncodeAll(rs: seq<Reply>): string
    decreases rs
  {
    if rs == [] then "" else Encode(rs[0]) + EncodeAll(rs[1..])
  }

  lemma NumberLine(n: int, y: string)
    requires Int64(n)
    ensures ReadNumber(IntText(n) + (CRLF + y)) == Done(n, y)
  {
    hide Find, IntText, Stoll;
    ScanIntText(n);
    assert '\r' !in IntText(n) by { assert forall c <- IntText(n) :: c != '\r'; }
    FindAfter(IntText(n), CRLF, y);
    var s := IntText(n) + (CRLF + y);
    assert s[..|IntText(n)|] == IntText(n) && s[|IntText(n)| + 2..] == y;
  }

  lemma DecodeSimple(r: Reply, t: string)
    requires Encodable(r) && (r.kind == '+' || r.kind == '-')
    ensures Decode(Encode(r) + t) == Done(r, t)
  {
    hide Find;
    var s := Encode(r) + t;
    assert s[1..] == r.str + (CRLF + t);
    FindAfter(r.str, CRLF, t);
    assert s[1..][..|r.str|] == r.str && s[1..][|r.str| + 2..] == t;
  }

  lemma DecodeBulk(r: Reply, t: string)
    requires Encodable(r) && r.kind == '$' && r.num >= 0
    ensures Decode(Encode(r) + t) == Done(r, t)
  {
    hide IntText, ReadNumber, ReadLine;
    var s, y := Encode(r) + t, r.str + (CRLF + t);
    assert s[1..] == IntText(r.num) + (CRLF + y);
    NumberLine(r.num, y);
    assert y[..r.num] == r.str && y[r.num + 2..] == t;
  }

  /** After a number line comes the number, and for an array its elements. */
  lemma DecodeNumbered(r: Reply, t: string)
    requires Encodable(r) && (r.kind == ':' || (r.kind == '$' && r.num < 0) || r.kind == '*')
    requires DecodeMany(EncodeAll(r.arr) + t, |r.arr|) == Done(r.arr, t)
    ensures Decode(Encode(r) + t) == Done(r, t)
  {
    hide IntText, ReadNumber, ReadLine, EncodeAll, DecodeMany, AllEncodable;
    var s, y := Encode(r) + t, EncodeAll(r.arr) + t;
    assert s[1..] == IntText(r.num) + (CRLF + y);
    NumberLine(r.num, y);
    if r.arr == [] { EncodeNil(t); }
  }

  lemma EncodeNil(t: string)
    ensures EncodeAll([]) + t == t
  {}

  /** RESP inversion and stream sync: decoding returns the reply and leaves exactly the bytes after it. */
  lemma {:induction false} DecodeEncode(r: Reply, t: string)
    requires Encodable(r)
    ensures Decode(Encode(r) + t) == Done(r, t)
    decreases r
  {
    hide Decode, Encode, DecodeMany, EncodeAll;
    if r.kind == '+' || r.kind == '-' {
      DecodeSimple(r, t);
    } else if r.kind == '$' && r.num >= 0 {
      DecodeBulk(r, t);
    } else {
      DecodeEncodeAll(r.arr, t);
      DecodeNumbered(r, t);
    }
  }

  /** The same for any number of replies back to back, at any nesting. */
  lemma {:induction false} DecodeEncodeAll(rs: seq<Reply>, t: string)
    requires AllEncodable(rs)
    ensures DecodeMany(EncodeAll(rs) + t, |rs|) == Done(rs, t)
    decreases rs
  {
    if rs == [] {
      assert EncodeAll(rs) + t == t;
    } else {
      hide Decode, Encode, Encodable;
      assert EncodeAll(rs) + t == Encode(rs[0]) + (EncodeAll(rs[1..]) + t);
      DecodeEncode(rs[0], EncodeAll(rs[1..]) + t);
      DecodeEncodeAll(rs[1..], t);
      assert [rs[0]] + rs[1..] == rs;
    }
  }

  // ---------- requests ----------

  function Bulk(a: string): Reply { Reply('$', a, |a|, []) }

  function Bulks(args: seq<string>): seq<Reply> {
    if args == [] then [] else [Bulk(args[0])] + Bulks(args[1..])
  }

  function Command(args: seq<string>): Reply { Reply('*', "", |args|, Bulks(args)) }

  function Commands(cmds: seq<seq<string>>): seq<Reply> {
    if cmds == [] then [] else [Command(cmds[0])] + Commands(cmds[1..])
  }

  /** Argument counts and lengths are sizes of the source's containers. */
  predicate Sizes(args: seq<string>) { |args| <= INT64_MAX && forall a <- args :: |a| <= INT64_MAX }

  lemma CommandsStep(cmds: seq<seq<string>>, i: nat)
    requires i < |cmds|
    ensures EncodeAll(Commands(cmds[i..])) == Encode(Command(cmds[i])) + EncodeAll(Commands(cmds[i + 1..]))
  {
    hide Encode, Command;
    assert cmds[i..][1..] == cmds[i + 1..];
    assert Commands(cmds[i..])[1..] == Commands(cmds[i + 1..]);
  }

  lemma BulksStep(args: seq<string>, j: nat)
    requires j < |args|
    ensures EncodeAll(Bulks(args[j..])) == Encode(Bulk(args[j])) + EncodeAll(Bulks(args[j + 1..]))
  {
    hide Encode, Bulk;
    assert args[j..][1..] == args[j + 1..];
    assert Bulks(args[j..])[1..] == Bulks(args[j + 1..]);
  }

  lemma Nothing()
    ensures EncodeAll(Commands([])) == "" && EncodeAll(Bulks([])) == ""
  {}

  method WriteArg(b: string, a: string) returns (r: string)
    requires |a| <= INT64_MAX
    ensures r == b + Encode(Bulk(a))
  {
    hide IntText;
    r := b + "$";
    r := Itoa(r, |a|);
    r := r + CRLF + a + CRLF;
    assert r == b + (['$'] + (IntText(|a|) + (CRLF + (a + CRLF))));
  }

  /** The request buffer of `pipe`: arrays of bulk strings. */
  method PipeBytes(cmds: seq<seq<string>>) returns (buf: string)
    requires forall args <- cmds :: Sizes(args)
    ensures buf == EncodeAll(Commands(cmds))
  {
    hide Encode, EncodeAll, Commands, Command, Sizes;
    buf := "";
    assert cmds[0..] == cmds && "" + EncodeAll(Commands(cmds)) == EncodeAll(Commands(cmds));
    for i := 0 to |cmds|
      invariant buf + EncodeAll(Commands(cmds[i..])) == EncodeAll(Commands(cmds))
    {
      var args := cmds[i];
      assert args in cmds;
      ghost var buf0, rest := buf, EncodeAll(Commands(cmds[i + 1..]));
      CommandsStep(cmds, i);
      buf := WriteCommand(buf, args);
      assert buf0 + (Encode(Command(args)) + rest) == buf0 + Encode(Command(args)) + rest;
    }
    Nothing();
    assert cmds[|cmds|..] == [] && buf + "" == buf;
  }

  method WriteCommand(b: string, args: seq<string>) returns (buf: string)
    requires Sizes(args)
    ensures buf == b + Encode(Command(args))
  {
    hide IntText, EncodeAll, Bulks, Bulk;
    buf := b + "*";
    buf := Itoa(buf, |args|);
    buf := buf + CRLF;
    ghost var head := buf;
    assert args[0..] == args;
    for j := 0 to |args|
      invariant buf + EncodeAll(Bulks(args[j..])) == head + EncodeAll(Bulks(args))
    {
      hide Encode;
      assert args[j] in args;
      BulksStep(args, j);
      ghost var buf0, rest := buf, EncodeAll(Bulks(args[j + 1..]));
      buf := WriteArg(buf, args[j]);
      assert buf0 + (Encode(Bulk(args[j])) + rest) == buf0 + Encode(Bulk(args[j])) + rest;
    }
    Nothing();
    assert args[|args|..] == [] && buf + "" == buf;
    assert head + EncodeAll(Bulks(args)) == b + (['*'] + (IntText(|args|) + (CRLF + EncodeAll(Bulks(args)))));
  }

  lemma {:induction false} BulksEncodable(args: seq<string>)
    requires forall a <- args :: |a| <= INT64_MAX
    ensures AllEncodable(Bulks(args)) && |Bulks(args)| == |args|
  {
    if args != [] {
      assert args[0] in args;
      BulksEncodable(args[1..]);
      assert Bulks(args)[1..] == Bulks(args[1..]);
    }
  }

  lemma {:induction false} CommandsEncodable(cmds: seq<seq<string>>)
    requires forall args <- cmds :: Sizes(args)
    ensures AllEncodable(Commands(cmds)) && |Commands(cmds)| == |cmds|
  {
    if cmds != [] {
      hide Bulks;
      assert cmds[0] in cmds;
      BulksEncodable(cmds[0]);
      assert forall args <- cmds[1..] :: args in cmds;
      CommandsEncodable(cmds[1..]);
      assert Commands(cmds)[1..] == Commands(cmds[1..]);
    }
  }

  /** What `pipe` writes, read back, is exactly the argument lists, and nothing more is consumed. */
  lemma PipeDecodes(cmds: seq<seq<string>>, t: string)
    requires forall args <- cmds :: Sizes(args)
    ensures DecodeMany(EncodeAll(Commands(cmds)) + t, |cmds|) == Done(Commands(cmds), t)
  {
    CommandsEncodable(cmds);
    DecodeEncodeAll(Commands(cmds), t);
  }

  /** Any replies, nested as they may be, in any chunks: the reader returns them and stays in sync. */
  method ReadReplies(c: Conn, ghost replies: seq<Reply>, ghost t: string, n: nat) returns (rs: seq<Reply>)
    requires c.Valid() && AllEncodable(replies) && n == |replies| && c.Rest() == EncodeAll(replies) + t
    modifies c
    ensures c.Valid() && rs == replies && c.Rest() == t
  {
    hide DecodeMany, EncodeAll, AllEncodable;
    DecodeEncodeAll(replies, t);
    var ok;
    ok, rs := c.ReadMany(n);
  }
}
