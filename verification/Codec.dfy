/**
 The log codec of src/codec.cpp: one JSON-like line per log record.  Printers
 and the parser are methods in the shape of the source, each proved against a
 function; the lemmas prove that parsing undoes printing.
 */
module Codec {
  import opened Text

  /** One parsed line, field by field as the source's struct. */
  datatype Op = Op(c: string, u: string, h: string, x: string,
                   a: int, e: int, i: int, n: int, d: int, hasE: bool)

  const NoOp := Op("", "", "", "", 0, 0, 0, 0, 0, false)

  /** What a log line says: a row, a hit delta, or a tombstone. */
  datatype Record =
    | Row(code: string, url: string, created: int, expiry: int, owner: int, hits: int)
    | Hit(code: string, delta: int, owner: int)
    | Del(code: string)

  // ---------- escaping ----------

  function HexDigit(d: nat): char
    requires d < 16
  {
    "0123456789abcdef"[d]
  }

  function EscChar(ch: char): string {
    if ch == '"' then "\\\""
    else if ch == '\\' then "\\\\"
    else if ch == '\n' then "\\n"
    else if ch == '\r' then "\\r"
    else if ch == '\t' then "\\t"
    else if ch as int < 0x20 then "\\u00" + [HexDigit(ch as int / 16), HexDigit(ch as int % 16)]
    else [ch]
  }

  function Esc(s: string): string {
    if s == "" then "" else EscChar(s[0]) + Esc(s[1..])
  }

  method EscInto(dst: string, s: string) returns (r: string)
    ensures r == dst + Esc(s)
  {
    r := dst;
    for k := 0 to |s|
      invariant r + Esc(s[k..]) == dst + Esc(s)
    {
      assert s[k..][1..] == s[k + 1..];
      r := r + EscChar(s[k]);
    }
    assert s[|s|..] == "";
  }

  function HexValue(c: char): Option<nat> {
    if '0' <= c <= '9' then Some(c as int - '0' as int)
    else if 'a' <= c <= 'f' then Some(c as int - 'a' as int + 10)
    else if 'A' <= c <= 'F' then Some(c as int - 'A' as int + 10)
    else None
  }

  /** The value of the longest run of hex digits, starting from `acc`. */
  function HexRun(s: string, acc: nat): nat {
    if s == "" || HexValue(s[0]).None? then acc
    else HexRun(s[1..], acc * 16 + HexValue(s[0]).value)
  }

  /** `(unsigned)strtoul(s, nullptr, 16)` on four bytes. */
  function StrToUInt16(s: string): (cp: nat)
    ensures cp < POW2_32
  {
    var t := SkipSpace(s);
    var signed := t != "" && (t[0] == '-' || t[0] == '+');
    var body := if signed then t[1..] else t;
    var prefixed := |body| > 2 && body[0] == '0' && (body[1] == 'x' || body[1] == 'X') && HexValue(body[2]).Some?;
    var v := HexRun(if prefixed then body[2..] else body, 0);
    if signed && t[0] == '-' then (-(v as int)) % POW2_32 else v % POW2_32
  }

  /** `(char)(a | b)` */
  function OrByte(a: nat, b: nat): char
    requires a < 256
  {
    ((a as bv8) | ((b % 256) as bv8)) as int as char
  }

  function Utf8(cp: nat): string {
    if cp < 0x80 then [cp as char]
    else if cp < 0x800 then [OrByte(0xc0, cp / 64), OrByte(0x80, cp % 64)]
    else [OrByte(0xe0, cp / 4096), OrByte(0x80, cp / 64 % 64), OrByte(0x80, cp % 64)]
  }

  /** What one step of `unescape` emits at the head of `b`, and how many bytes it consumes. */
  function UnescStep(b: string): (r: (string, nat))
    requires b != ""
    ensures 0 < r.1 <= |b|
  {
    if b[0] != '\\' || |b| < 2 then ([b[0]], 1)
    else if b[1] == 'n' then ("\n", 2)
    else if b[1] == 'r' then ("\r", 2)
    else if b[1] == 't' then ("\t", 2)
    else if b[1] == 'u' then
      if |b| > 5 then (Utf8(StrToUInt16(b[2..6])), 6) else ("", 2)
    else ([b[1]], 2)
  }

  function Unesc(b: string): string {
    if b == "" then "" else
    var (out, n) := UnescStep(b);
    out + Unesc(b[n..])
  }

  method Unescape(b: string) returns (out: string)
    ensures out == Unesc(b)
  {
    hide UnescStep;
    out := "";
    var i := 0;
    while i < |b|
      invariant 0 <= i <= |b|
      invariant out + Unesc(b[i..]) == Unesc(b)
    {
      var t := b[i..];
      var (piece, n) := UnescStep(t);
      assert t[n..] == b[i + n..];
      out := out + piece;
      i := i + n;
    }
    assert b[|b|..] == "";
  }

  lemma EscapedControl(ch: char)
    requires ch as int < 0x20
    ensures StrToUInt16("00" + [HexDigit(ch as int / 16), HexDigit(ch as int % 16)]) == ch as int
  {
    var p, q := ch as int / 16, ch as int % 16;
    var s := "00" + [HexDigit(p), HexDigit(q)];
    assert p == 0 || p == 1;
    assert s[1..] == "0" + [HexDigit(p), HexDigit(q)];
    assert s[1..][1..] == [HexDigit(p), HexDigit(q)];
    assert s[1..][1..][1..] == [HexDigit(q)];
    assert s[1..][1..][1..][1..] == "";
    HexDigitValue(p);
    HexDigitValue(q);
    assert HexRun([HexDigit(q)], p) == HexRun("", p * 16 + q);
    assert HexRun([HexDigit(p), HexDigit(q)], 0) == HexRun([HexDigit(q)], p);
    assert HexRun(s[1..], 0) == HexRun([HexDigit(p), HexDigit(q)], 0);
    assert HexRun(s, 0) == HexRun(s[1..], 0);
  }

  lemma HexDigitValue(d: nat)
    requires d < 16
    ensures HexValue(HexDigit(d)) == Some(d)
  {}

  /** Escaping one character is undone by one step of unescaping. */
  lemma UnescEscChar(ch: char, t: string)
    ensures Unesc(EscChar(ch) + t) == [ch] + Unesc(t)
  {
    var b := EscChar(ch) + t;
    if ch as int < 0x20 && ch != '\n' && ch != '\r' && ch != '\t' {
      assert b[2..6] == "00" + [HexDigit(ch as int / 16), HexDigit(ch as int % 16)];
      EscapedControl(ch);
      assert UnescStep(b) == ([ch], 6);
    }
    assert UnescStep(b) == ([ch], |EscChar(ch)|);
    assert b[|EscChar(ch)|..] == t;
  }

  lemma {:induction false} UnescEsc(s: string)
    ensures Unesc(Esc(s)) == s
  {
    if s != "" {
      UnescEsc(s[1..]);
      UnescEscChar(s[0], Esc(s[1..]));
    }
  }

  lemma {:induction false} UnescPlain(s: string)
    requires '\\' !in s
    ensures Unesc(s) == s
  {
    if s != "" {
      assert s[0] in s;
      UnescPlain(s[1..]);
      assert s == [s[0]] + s[1..];
    }
  }

  lemma {:induction false} EscNoNewline(s: string)
    ensures '\n' !in Esc(s)
  {
    if s != "" {
      EscNoNewline(s[1..]);
      assert '\n' !in EscChar(s[0]);
    }
  }

  // ---------- printing ----------

  function Key(key: char): string { ['"', key, '"', ':'] }

  function TextPart(key: char, raw: string, rest: string): string {
    Key(key) + ("\"" + (raw + ("\"" + rest)))
  }

  function NumberPart(key: char, num: string, rest: string): string {
    Key(key) + (num + rest)
  }

  function ExpiryText(e: int): string { if e == 0 then "null" else IntText(e) }

  function RowNumbers(a: int, e: int, i: int, n: int): string {
    "," + NumberPart('a', IntText(a), "," + NumberPart('e', ExpiryText(e), "," +
      NumberPart('i', IntText(i), "," + NumberPart('n', IntText(n), "}"))))
  }

  function RowLine(c: string, u: string, a: int, e: int, i: int, n: int): string {
    "{" + TextPart('c', c, "," + TextPart('u', Esc(u), RowNumbers(a, e, i, n)))
  }

  function HitLine(c: string, d: int, i: int): string {
    "{" + TextPart('h', c, "," + NumberPart('d', IntText(d), "," + NumberPart('i', IntText(i), "}")))
  }

  function DelLine(c: string): string {
    "{" + TextPart('x', c, "}")
  }

  method RowLineInto(b: string, c: string, u: string, a: int, e: int, i: int, n: int) returns (r: string)
    requires Int64(a) && Int64(e) && Int64(i) && Int64(n)
    ensures r == b + RowLine(c, u, a, e, i, n)
  {
    hide IntText, Esc;
    ghost var nums := RowNumbers(a, e, i, n);
    ghost var line := RowLine(c, u, a, e, i, n);
    r := b + "{\"c\":\"" + c;
    r := r + "\",\"u\":\"";
    r := EscInto(r, u);
    assert r + ("\"" + nums) == b + line by { RowHead(b, c, Esc(u), nums); }
    r := r + "\",\"a\":";
    ghost var r0 := r;
    r := Itoa(r, a);
    r := r + ",\"e\":";
    if e == 0 { r := r + "null"; } else { r := Itoa(r, e); }
    r := r + ",\"i\":";
    r := Itoa(r, i);
    r := r + ",\"n\":";
    r := Itoa(r, n);
    r := r + "}";
    RowTail(r0[..|r0| - 6], IntText(a), ExpiryText(e), IntText(i), IntText(n));
  }

  lemma RowHead(b: string, c: string, eu: string, nums: string)
    ensures b + "{\"c\":\"" + c + "\",\"u\":\"" + eu + ("\"" + nums)
         == b + ("{" + TextPart('c', c, "," + TextPart('u', eu, nums)))
  {
    assert "{\"c\":\"" == "{" + (Key('c') + "\"");
    assert "\",\"u\":\"" == "\"" + ("," + (Key('u') + "\""));
  }

  lemma RowTail(r: string, a: string, e: string, i: string, n: string)
    ensures r + "\",\"a\":" + a + ",\"e\":" + e + ",\"i\":" + i + ",\"n\":" + n + "}"
         == r + ("\"" + ("," + NumberPart('a', a, "," + NumberPart('e', e, "," +
              NumberPart('i', i, "," + NumberPart('n', n, "}"))))))
  {
    assert "\",\"a\":" == "\"" + ("," + Key('a'));
    assert ",\"e\":" == "," + Key('e');
    assert ",\"i\":" == "," + Key('i');
    assert ",\"n\":" == "," + Key('n');
  }

  method HitLineInto(b: string, c: string, d: int, i: int) returns (r: string)
    requires Int64(d) && Int64(i)
    ensures r == b + HitLine(c, d, i)
  {
    hide IntText;
    r := b + "{\"h\":\"" + c + "\",\"d\":";
    r := Itoa(r, d);
    r := r + ",\"i\":";
    r := Itoa(r, i);
    r := r + "}";
    assert "{\"h\":\"" == "{" + (Key('h') + "\"");
    assert "\",\"d\":" == "\"" + ("," + Key('d'));
    assert ",\"i\":" == "," + Key('i');
  }

  method DelLineInto(b: string, c: string) returns (r: string)
    ensures r == b + DelLine(c)
  {
    r := b + "{\"x\":\"" + c + "\"}";
    assert "{\"x\":\"" == "{" + (Key('x') + "\"");
    assert "\"}" == "\"" + "}";
  }

  // ---------- parsing ----------

  datatype Field =
    | End
    | Broken
    | TextField(key: char, text: string, rest: string)
    | NumberField(key: char, num: string, rest: string)

  /** How far the quoted-string scan advances: to the closing quote, or past the end. */
  function QuotedLen(t: string): nat {
    if t == "" then 0
    else if t[0] == '\\' then 2 + (if |t| < 2 then 0 else QuotedLen(t[2..]))
    else if t[0] == '"' then 0
    else 1 + QuotedLen(t[1..])
  }

  function NumberLen(t: string): (n: nat)
    ensures n <= |t|
  {
    if t == "" || t[0] == ',' || t[0] == '}' then 0 else 1 + NumberLen(t[1..])
  }

  function Take(t: string, n: nat): string { if n <= |t| then t[..n] else t }

  function Drop(t: string, n: nat): (r: string)
    ensures |r| <= |t| && (n > 0 && t != "" ==> |r| < |t|)
  {
    if n <= |t| then t[n..] else ""
  }

  function ReadText(key: char, t: string): (f: Field)
    ensures f.TextField? && |f.rest| <= |t|
  {
    var raw := Take(t, QuotedLen(t));
    TextField(key, if '\\' in raw then Unesc(raw) else raw, Drop(t, QuotedLen(t) + 1))
  }

  /** The value of key `key` that starts at `t`. */
  function ReadValue(key: char, t: string): (f: Field)
    requires t != ""
    ensures !f.End? && !f.Broken? && |f.rest| <= |t|
  {
    if t[0] == '"' then ReadText(key, t[1..])
    else NumberField(key, TrimBlanks(t[..NumberLen(t)]), t[NumberLen(t)..])
  }

  datatype KeyScan = NoKey | BadKey | KeyAt(key: char, value: string)

  /** The next key of the unread part `t` of a line, and where its value starts. */
  function ReadKey(t: string): (k: KeyScan)
    ensures k.KeyAt? ==> 0 < |k.value| < |t|
  {
    var k := From(t, '"');
    if k == "" then NoKey else
    var q := From(k[1..], '"');
    if q == "" then BadKey else
    var colon := From(q[1..], ':');
    if colon == "" then BadKey else
    var v := DropBlanks(colon[1..]);
    if v == "" then BadKey else KeyAt(if q == k[1..] then '\0' else k[1], v)
  }

  function ReadField(t: string): (f: Field)
    ensures f.TextField? || f.NumberField? ==> |f.rest| < |t|
  {
    match ReadKey(t)
    case NoKey => End
    case BadKey => Broken
    case KeyAt(key, v) => ReadValue(key, v)
  }

  function SetText(o: Op, key: char, s: string): Op {
    match key
    case 'c' => o.(c := s)
    case 'u' => o.(u := s)
    case 'h' => o.(h := s)
    case 'x' => o.(x := s)
    case _ => o
  }

  function SetNumber(o: Op, key: char, num: string): Op {
    var v := if num == "null" then 0 else StrToLL(num);
    match key
    case 'a' => o.(a := v)
    case 'e' => if num != "null" then o.(e := v, hasE := true) else o
    case 'i' => o.(i := v)
    case 'n' => o.(n := v)
    case 'd' => o.(d := v)
    case _ => o
  }

  function ParseFrom(t: string, o: Op): Option<Op>
    decreases |t|
  {
    match ReadField(t)
    case End => if o.c != "" || o.h != "" || o.x != "" then Some(o) else None
    case Broken => None
    case TextField(k, s, rest) => ParseFrom(rest, SetText(o, k, s))
    case NumberField(k, num, rest) => ParseFrom(rest, SetNumber(o, k, num))
  }

  function Parse(line: string): Option<Op> { ParseFrom(line, NoOp) }

  /** The scan `while (pos < L && b[pos] != c) pos++`. */
  method ScanTo(b: string, pos: nat, c: char) returns (p: nat)
    requires pos <= |b|
    ensures pos <= p <= |b|
    ensures b[p..] == From(b[pos..], c)
    ensures b[pos..p] == Before(b[pos..], c)
  {
    hide Before;
    p := pos;
    while p < |b| && b[p] != c
      invariant pos <= p <= |b|
      invariant c !in b[pos..p]
    {
      p := p + 1;
    }
    if p < |b| {
      assert b[pos..] == b[pos..p] + [c] + b[p + 1..];
      BeforeUnique(b[pos..p], c, b[p + 1..]);
    } else {
      assert b[pos..] == b[pos..p];
      BeforeUnique(b[pos..p], c, "");
    }
  }

  /** Whether the quoted-string scan meets a backslash. */
  predicate Escapes(t: string) {
    t != "" && t[0] != '"' && (t[0] == '\\' || Escapes(t[1..]))
  }

  lemma {:induction false} EscapesMeaning(t: string)
    ensures Escapes(t) <==> '\\' in Take(t, QuotedLen(t))
  {
    if t != "" && t[0] != '"' {
      if t[0] == '\\' {
        assert Take(t, QuotedLen(t))[0] == '\\';
      } else {
        EscapesMeaning(t[1..]);
        assert Take(t, QuotedLen(t)) == [t[0]] + Take(t[1..], QuotedLen(t[1..]));
      }
    }
  }

  /** The quoted-string scan, which may step past the end after a trailing backslash. */
  method ScanQuoted(b: string, vs: nat) returns (pos: nat, escapes: bool)
    requires vs <= |b|
    ensures pos == vs + QuotedLen(b[vs..])
    ensures escapes <==> '\\' in Take(b[vs..], QuotedLen(b[vs..]))
  {
    pos, escapes := vs, false;
    while pos < |b|
      invariant vs <= pos <= |b| + 1
      invariant pos <= |b| ==> pos + QuotedLen(b[pos..]) == vs + QuotedLen(b[vs..])
      invariant pos > |b| ==> pos == vs + QuotedLen(b[vs..])
      invariant if escapes then Escapes(b[vs..]) else pos <= |b| && (Escapes(b[vs..]) <==> Escapes(b[pos..]))
      decreases |b| + 1 - pos
    {
      if b[pos] == '\\' {
        assert pos + 2 <= |b| ==> b[pos..][2..] == b[pos + 2..];
        pos, escapes := pos + 2, true;
      } else if b[pos] == '"' {
        break;
      } else {
        assert b[pos..][1..] == b[pos + 1..];
        pos := pos + 1;
      }
    }
    EscapesMeaning(b[vs..]);
  }

  /** The scan for a key; `pos` is where its value starts. */
  method ScanKey(b: string, start: nat) returns (k: KeyScan, pos: nat)
    requires start <= |b|
    ensures k == ReadKey(b[start..])
    ensures k.KeyAt? ==> start < pos < |b| && k.value == b[pos..]
  {
    hide Before, From, DropBlanks;
    pos := ScanTo(b, start, '"');
    if pos >= |b| { return NoKey, pos; }
    var ks := pos + 1;
    assert b[pos..][1..] == b[ks..];
    pos := ScanTo(b, ks, '"');
    if pos >= |b| { return BadKey, pos; }
    var key := if pos > ks then b[ks] else '\0';
    assert pos > ks <==> b[pos..] != b[ks..];
    assert b[pos..][1..] == b[pos + 1..];
    pos := ScanTo(b, pos + 1, ':');
    if pos >= |b| { return BadKey, pos; }
    assert b[pos..][1..] == b[pos + 1..];
    pos := SkipBlanks(b, pos + 1);
    if pos >= |b| { return BadKey, pos; }
    k := KeyAt(key, b[pos..]);
  }

  method ScanNumber(b: string, vs: nat) returns (pos: nat, num: string)
    requires vs <= |b|
    ensures pos == vs + NumberLen(b[vs..]) <= |b|
    ensures num == TrimBlanks(b[vs..][..NumberLen(b[vs..])])
  {
    pos := vs;
    while pos < |b| && b[pos] != ',' && b[pos] != '}'
      invariant vs <= pos <= |b|
      invariant pos + NumberLen(b[pos..]) == vs + NumberLen(b[vs..])
    {
      assert b[pos..][1..] == b[pos + 1..];
      pos := pos + 1;
    }
    assert b[vs..pos] == b[vs..][..NumberLen(b[vs..])];
    num := b[vs..pos];
    while num != "" && IsBlank(num[|num| - 1])
      invariant TrimBlanks(num) == TrimBlanks(b[vs..pos])
      decreases |num|
    {
      num := num[..|num| - 1];
    }
  }

  /** The scan of a value; `next` is where the rest of the line starts. */
  method ScanValue(b: string, pos: nat, key: char) returns (f: Field, next: nat)
    requires pos < |b|
    ensures f == ReadValue(key, b[pos..])
    ensures pos <= next <= |b| && (f.TextField? || f.NumberField?) && f.rest == b[next..]
  {
    hide TrimBlanks, Unesc, QuotedLen, NumberLen;
    if b[pos] == '"' {
      var vs, escapes := pos + 1, false;
      assert b[pos..][1..] == b[vs..];
      next, escapes := ScanQuoted(b, vs);
      var val := Take(b[vs..], next - vs);
      var s := val;
      if escapes { s := Unescape(val); }
      next := if next + 1 <= |b| then next + 1 else |b|;
      f := TextField(key, s, b[next..]);
    } else {
      var num;
      next, num := ScanNumber(b, pos);
      assert b[pos..][next - pos..] == b[next..];
      f := NumberField(key, num, b[next..]);
    }
  }

  method ParseOp(line: string) returns (r: Option<Op>)
    ensures r == Parse(line)
  {
    hide ReadKey, ReadValue, SetText, SetNumber;
    var o, pos := NoOp, 0;
    assert line[0..] == line;
    while pos < |line|
      invariant 0 <= pos <= |line|
      invariant ParseFrom(line[pos..], o) == Parse(line)
      decreases |line| - pos
    {
      var start := pos;
      var k;
      k, pos := ScanKey(line, start);
      if k.NoKey? { pos := start; assert ReadField(line[pos..]) == End; break; }
      if k.BadKey? { return None; }
      assert ReadField(line[start..]) == ReadValue(k.key, line[pos..]);
      var f;
      f, pos := ScanValue(line, pos, k.key);
      o := if f.TextField? then SetText(o, f.key, f.text) else SetNumber(o, f.key, f.num);
    }
    if pos == |line| {
      assert line[pos..] == "";
      EmptyEnds();
    }
    r := if o.c != "" || o.h != "" || o.x != "" then Some(o) else None;
  }

  lemma EmptyEnds()
    ensures ReadField("") == End
  {}

  method SkipBlanks(b: string, pos: nat) returns (p: nat)
    requires pos <= |b|
    ensures pos <= p <= |b| && b[p..] == DropBlanks(b[pos..])
  {
    p := pos;
    while p < |b| && IsBlank(b[p])
      invariant pos <= p <= |b|
      invariant DropBlanks(b[p..]) == DropBlanks(b[pos..])
    {
      assert b[p..][1..] == b[p + 1..];
      p := p + 1;
    }
  }

  // ---------- parsing undoes printing ----------

  /** Codes are printed unescaped, so they must be free of quotes, backslashes and newlines. */
  predicate PlainCode(c: string) {
    c != "" && '"' !in c && '\\' !in c && '\n' !in c
  }

  /** The validation applied to every alias by src/app.cpp. */
  predicate CodeOk(s: string) {
    0 < |s| <= 64 && forall c <- s :: '0' <= c <= '9' || 'a' <= c <= 'z' || 'A' <= c <= 'Z' || c == '_' || c == '-'
  }

  lemma ReadTextPart(pre: string, key: char, raw: string, rest: string)
    requires '"' !in pre && key != '"'
    requires QuotedLen(raw + ("\"" + rest)) == |raw|
    ensures ReadField(pre + TextPart(key, raw, rest)) == TextField(key, if '\\' in raw then Unesc(raw) else raw, rest)
  {
    hide Unesc, QuotedLen, ReadKey;
    var body := raw + ("\"" + rest);
    ReadKeyPart(pre, key, "\"" + body);
    assert ("\"" + body)[1..] == body;
    assert body[..|raw|] == raw && body[|raw| + 1..] == rest;
  }

  lemma ReadNumberPart(pre: string, key: char, num: string, rest: string)
    requires '"' !in pre && key != '"'
    requires num != "" && rest != "" && (rest[0] == ',' || rest[0] == '}')
    requires forall c <- num :: c != ',' && c != '}' && c != '"' && !IsBlank(c)
    ensures ReadField(pre + NumberPart(key, num, rest)) == NumberField(key, num, rest)
  {
    hide NumberLen, ReadKey;
    var body := num + rest;
    assert num[0] in num && num[|num| - 1] in num;
    ReadKeyPart(pre, key, body);
    NumberLenUntil(num, rest);
    assert body[..|num|] == num && body[|num|..] == rest;
  }

  lemma {:induction false} NumberLenUntil(num: string, rest: string)
    requires rest != "" && (rest[0] == ',' || rest[0] == '}')
    requires forall c <- num :: c != ',' && c != '}'
    ensures NumberLen(num + rest) == |num|
  {
    if num != "" {
      assert num[0] in num;
      assert forall c <- num[1..] :: c in num;
      assert (num + rest)[1..] == num[1..] + rest;
      NumberLenUntil(num[1..], rest);
    } else {
      assert num + rest == rest;
    }
  }

  /** The key scan stops right before the value. */
  lemma ReadKeyPart(pre: string, key: char, v: string)
    requires '"' !in pre && key != '"' && v != "" && !IsBlank(v[0])
    ensures ReadKey(pre + (Key(key) + v)) == KeyAt(key, v)
  {
    hide Before, From;
    var t3 := [':'] + v;
    var t2 := [key] + ['"'] + t3;
    var t := pre + (Key(key) + v);
    assert t == pre + ['"'] + t2;
    BeforeUnique(pre, '"', t2);
    assert (['"'] + t2)[1..] == t2;
    BeforeUnique([key], '"', t3);
    assert (['"'] + t3)[1..] == t3;
    assert "" + [':'] + v == t3;
    BeforeUnique("", ':', v);
    assert t3[1..] == v;
  }

  lemma QuotedPlain(raw: string, rest: string)
    requires '"' !in raw && '\\' !in raw
    ensures QuotedLen(raw + ("\"" + rest)) == |raw|
  {
    QuotedSkip(raw, "\"" + rest);
  }

  /** The scan steps over one escaped character. */
  lemma QuotedEscChar(ch: char, tail: string)
    ensures QuotedLen(EscChar(ch) + tail) == |EscChar(ch)| + QuotedLen(tail)
  {
    var e := EscChar(ch);
    if |e| == 6 {
      var x := e[2..];
      assert (e + tail)[2..] == x + tail;
      assert x == "00" + [x[2], x[3]];
      assert '"' !in x && '\\' !in x;
      QuotedSkip(x, tail);
    } else if |e| == 2 {
      assert (e + tail)[2..] == tail;
    } else {
      assert (e + tail)[1..] == tail;
    }
  }

  lemma {:induction false} QuotedEsc(s: string, rest: string)
    ensures QuotedLen(Esc(s) + ("\"" + rest)) == |Esc(s)|
  {
    hide EscChar;
    if s != "" {
      var e, tail := EscChar(s[0]), Esc(s[1..]) + ("\"" + rest);
      QuotedEsc(s[1..], rest);
      assert Esc(s) + ("\"" + rest) == e + tail;
      hide QuotedLen;
      QuotedEscChar(s[0], tail);
    }
  }

  lemma {:induction false} QuotedSkip(x: string, tail: string)
    requires '"' !in x && '\\' !in x
    ensures QuotedLen(x + tail) == |x| + QuotedLen(tail)
  {
    if x == "" {
      assert x + tail == tail;
    } else {
      assert x[0] in x;
      assert (x + tail)[1..] == x[1..] + tail;
      QuotedSkip(x[1..], tail);
    }
  }

  lemma EscapedTextReads(u: string)
    ensures (if '\\' in Esc(u) then Unesc(Esc(u)) else Esc(u)) == u
  {
    UnescEsc(u);
    if '\\' !in Esc(u) { UnescPlain(Esc(u)); }
  }

  lemma NumberChars(n: int)
    ensures forall c <- IntText(n) :: c != ',' && c != '}' && c != '"' && !IsBlank(c) && c != '\n'
    ensures IntText(n) != "null"
  {
    assert IntText(n)[0] in IntText(n);
    assert "null"[0] == 'n' != IntText(n)[0];
  }

  lemma ParseEnd(o: Op)
    requires o.c != "" || o.h != "" || o.x != ""
    ensures ParseFrom("}", o) == Some(o)
  {
    assert Before("}", '"') == "}" by { BeforeUnique("}", '"', ""); }
  }

  lemma ParseText(pre: string, key: char, raw: string, rest: string, o: Op)
    requires '"' !in pre && key != '"'
    requires QuotedLen(raw + ("\"" + rest)) == |raw|
    ensures ParseFrom(pre + TextPart(key, raw, rest), o)
         == ParseFrom(rest, SetText(o, key, if '\\' in raw then Unesc(raw) else raw))
  {
    hide ReadField, Unesc, QuotedLen, SetText;
    ReadTextPart(pre, key, raw, rest);
  }

  lemma ParseNumber(pre: string, key: char, num: string, rest: string, o: Op)
    requires '"' !in pre && key != '"'
    requires num != "" && rest != "" && (rest[0] == ',' || rest[0] == '}')
    requires forall c <- num :: c != ',' && c != '}' && c != '"' && !IsBlank(c)
    ensures ParseFrom(pre + NumberPart(key, num, rest), o) == ParseFrom(rest, SetNumber(o, key, num))
  {
    hide ReadField, SetNumber;
    ReadNumberPart(pre, key, num, rest);
  }

  lemma ParseInt(pre: string, key: char, n: int, rest: string, o: Op)
    requires '"' !in pre && key != '"' && Int64(n)
    requires rest != "" && (rest[0] == ',' || rest[0] == '}')
    ensures ParseFrom(pre + NumberPart(key, IntText(n), rest), o) == ParseFrom(rest, SetNumber(o, key, IntText(n)))
    ensures IntText(n) != "null" && StrToLL(IntText(n)) == n
  {
    hide ParseFrom, IntText, SetNumber;
    NumberChars(n);
    ScanIntText(n);
    ParseNumber(pre, key, IntText(n), rest, o);
  }

  /** The numeric part of a row line. */
  lemma ParseRowNumbers(o: Op, a: int, e: int, i: int, n: int)
    requires Int64(a) && Int64(e) && Int64(i) && Int64(n)
    requires !o.hasE && o.e == 0 && o.c != ""
    ensures ParseFrom(RowNumbers(a, e, i, n), o) == Some(o.(a := a, e := e, i := i, n := n, hasE := e != 0))
  {
    hide ParseFrom, IntText, NumberPart, StrToLL;
    var tn := "," + NumberPart('n', IntText(n), "}");
    var ti := "," + NumberPart('i', IntText(i), tn);
    var te := "," + NumberPart('e', ExpiryText(e), ti);
    ParseInt(",", 'a', a, te, o);
    var o1 := o.(a := a);
    var o2 := o1.(e := e, hasE := e != 0);
    if e == 0 {
      ParseNumber(",", 'e', "null", ti, o1);
    } else {
      ParseInt(",", 'e', e, ti, o1);
    }
    ParseInt(",", 'i', i, tn, o2);
    ParseInt(",", 'n', n, "}", o2.(i := i));
    ParseEnd(o2.(i := i, n := n));
  }

  /** Parsing a printed row recovers every field; expiry 0 is printed as null and read as absent. */
  lemma ParseRowLine(c: string, u: string, a: int, e: int, i: int, n: int)
    requires PlainCode(c) && Int64(a) && Int64(e) && Int64(i) && Int64(n)
    ensures Parse(RowLine(c, u, a, e, i, n)) == Some(Op(c, u, "", "", a, e, i, n, 0, e != 0))
  {
    hide ParseFrom, Esc, Unesc, TextPart, RowNumbers, QuotedLen;
    var nums := RowNumbers(a, e, i, n);
    var tu := "," + TextPart('u', Esc(u), nums);
    QuotedPlain(c, tu);
    ParseText("{", 'c', c, tu, NoOp);
    QuotedEsc(u, nums);
    var o1 := NoOp.(c := c);
    ParseText(",", 'u', Esc(u), nums, o1);
    EscapedTextReads(u);
    ParseRowNumbers(o1.(u := u), a, e, i, n);
  }

  lemma ParseHitLine(c: string, d: int, i: int)
    requires PlainCode(c) && Int64(d) && Int64(i)
    ensures Parse(HitLine(c, d, i)) == Some(NoOp.(h := c, d := d, i := i))
  {
    hide ParseFrom, IntText, TextPart, NumberPart, QuotedLen, StrToLL, Unesc;
    var ti := "," + NumberPart('i', IntText(i), "}");
    var td := "," + NumberPart('d', IntText(d), ti);
    QuotedPlain(c, td);
    ParseText("{", 'h', c, td, NoOp);
    var o1 := NoOp.(h := c);
    ParseInt(",", 'd', d, ti, o1);
    ParseInt(",", 'i', i, "}", o1.(d := d));
    ParseEnd(o1.(d := d, i := i));
  }

  lemma ParseDelLine(c: string)
    requires PlainCode(c)
    ensures Parse(DelLine(c)) == Some(NoOp.(x := c))
  {
    hide ParseFrom, TextPart, QuotedLen, Unesc;
    QuotedPlain(c, "}");
    ParseText("{", 'x', c, "}", NoOp);
    ParseEnd(NoOp.(x := c));
  }

  lemma CodeOkIsPlain(c: string)
    requires CodeOk(c)
    ensures PlainCode(c)
  {}

  // ---------- records ----------

  /** How `apply` classifies a parsed line: tombstone first, then hit, then row. */
  function Meaning(o: Op): Option<Record> {
    if o.x != "" then Some(Del(o.x))
    else if o.h != "" then Some(Hit(o.h, o.d, ToInt32(o.i)))
    else if o.c != "" then Some(Row(o.c, o.u, o.a, if o.hasE then o.e else 0, ToInt32(o.i), o.n))
    else None
  }

  /** What one log line means to the store; None for a line it ignores. */
  function ReadLine(line: string): Option<Record> {
    match Parse(line)
    case None => None
    case Some(o) => Meaning(o)
  }

  function Print(r: Record): string {
    match r
    case Row(c, u, a, e, i, n) => RowLine(c, u, a, e, i, n)
    case Hit(c, d, i) => HitLine(c, d, i)
    case Del(c) => DelLine(c)
  }

  /** A record whose fields fit the source's field types. */
  predicate Printable(r: Record) {
    && PlainCode(r.code)
    && (r.Row? ==> Int64(r.created) && Int64(r.expiry) && Int32(r.owner) && Int64(r.hits))
    && (r.Hit? ==> Int64(r.delta) && Int32(r.owner))
  }

  lemma TextPartOneLine(key: char, raw: string, rest: string)
    requires key != '\n' && '\n' !in raw && '\n' !in rest
    ensures '\n' !in TextPart(key, raw, rest)
  {}

  lemma IntPartOneLine(key: char, num: string, rest: string)
    requires key != '\n' && '\n' !in rest && (num == "null" || exists n :: num == IntText(n))
    ensures '\n' !in NumberPart(key, num, rest)
  {
    if num != "null" {
      var n :| num == IntText(n);
      NumberChars(n);
    }
  }

  /** A printed record is one non-empty line. */
  lemma PrintOneLine(r: Record)
    requires Printable(r)
    ensures Print(r) != "" && '\n' !in Print(r)
  {
    hide IntText, Esc, TextPart, NumberPart;
    match r {
      case Row(c, u, a, e, i, n) =>
        var tn := "," + NumberPart('n', IntText(n), "}");
        var ti := "," + NumberPart('i', IntText(i), tn);
        var te := "," + NumberPart('e', ExpiryText(e), ti);
        IntPartOneLine('n', IntText(n), "}");
        IntPartOneLine('i', IntText(i), tn);
        IntPartOneLine('e', ExpiryText(e), ti);
        IntPartOneLine('a', IntText(a), te);
        EscNoNewline(u);
        TextPartOneLine('u', Esc(u), RowNumbers(a, e, i, n));
        TextPartOneLine('c', c, "," + TextPart('u', Esc(u), RowNumbers(a, e, i, n)));
      case Hit(c, d, i) =>
        IntPartOneLine('i', IntText(i), "}");
        IntPartOneLine('d', IntText(d), "," + NumberPart('i', IntText(i), "}"));
        TextPartOneLine('h', c, "," + NumberPart('d', IntText(d), "," + NumberPart('i', IntText(i), "}")));
      case Del(c) =>
        TextPartOneLine('x', c, "}");
    }
  }

  /** Codec inversion: every printable record is read back as itself. */
  lemma ReadPrint(r: Record)
    requires Printable(r)
    ensures ReadLine(Print(r)) == Some(r)
  {
    hide Parse, RowLine, HitLine, DelLine;
    match r {
      case Row(c, u, a, e, i, n) => ParseRowLine(c, u, a, e, i, n);
      case Hit(c, d, i) => ParseHitLine(c, d, i);
      case Del(c) => ParseDelLine(c);
    }
  }

  /** An owner wider than 32 bits is read as the `int` it is cast to; everything else is kept. */
  lemma ReadWideOwner(c: string, u: string, a: int, e: int, i: int, n: int)
    requires PlainCode(c) && Int64(a) && Int64(e) && Int64(i) && Int64(n)
    ensures var r := ReadLine(RowLine(c, u, a, e, i, n));
            && r.Some? && r.value.Row? && r.value == Row(c, u, a, e, r.value.owner, n)
            && Int32(r.value.owner) && (r.value.owner - i) % 0x1_0000_0000 == 0
  {
    hide Parse, RowLine, ToInt32;
    ParseRowLine(c, u, a, e, i, n);
  }
}
