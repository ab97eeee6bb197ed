/**
 Byte strings and the number formats shared by the log codec, the value codec
 and the RESP client.  A byte string is a `string` whose characters stand for
 bytes; every theorem quantifies over all strings, so over all byte strings.
 */
module Text {

  datatype Option<+T> = None | Some(value: T)

  const INT64_MIN := -0x8000_0000_0000_0000
  const INT64_MAX := 0x7fff_ffff_ffff_ffff
  const POW2_32 := 0x1_0000_0000
  const POW2_64 := 0x1_0000_0000_0000_0000

  predicate Int64(n: int) { INT64_MIN <= n <= INT64_MAX }

  predicate Int32(n: int) { -0x8000_0000 <= n < 0x8000_0000 }

  /** The C++ cast of a 64-bit integer to `int`. */
  function ToInt32(n: int): (r: int)
    ensures Int32(r)
    ensures Int32(n) ==> r == n
    ensures (r - n) % POW2_32 == 0
  {
    var m := n % POW2_32;
    if m < 0x8000_0000 then m else m - POW2_32
  }

  // ---------- decimal printing ----------

  predicate IsDigit(c: char) { '0' <= c <= '9' }

  function Digit(d: nat): (c: char)
    requires d < 10
    ensures IsDigit(c)
  {
    ('0' as int + d) as char
  }

  function DigitValue(c: char): nat
    requires IsDigit(c)
  {
    c as int - '0' as int
  }

  function Decimal(v: nat): (s: string)
    ensures s != ""
    ensures forall c <- s :: IsDigit(c)
  {
    if v < 10 then [Digit(v)] else Decimal(v / 10) + [Digit(v % 10)]
  }

  function IntText(n: int): (s: string)
    ensures s != ""
    ensures forall c <- s :: IsDigit(c) || c == '-'
  {
    if n < 0 then "-" + Decimal(-n) else Decimal(n)
  }

  function Pow10(k: nat): nat { if k == 0 then 1 else 10 * Pow10(k - 1) }

  lemma {:induction false} DecimalLength(v: nat, k: nat)
    requires k > 0 && v < Pow10(k)
    ensures |Decimal(v)| <= k
  {
    if v >= 10 {
      assert k > 1 by { assert Pow10(1) == 10 * Pow10(0); }
      DecimalLength(v / 10, k - 1);
    }
  }

  lemma Int64DecimalFits(v: nat)
    requires v <= INT64_MAX + 1
    ensures |Decimal(v)| <= 20
  {
    assert Pow10(10) == 10_000_000_000 by {
      assert Pow10(5) == 100_000;
    }
    assert Pow10(20) == 100_000_000_000_000_000_000 by {
      assert Pow10(15) == 1_000_000_000_000_000;
    }
    DecimalLength(v, 20);
  }

  /** `itoa`: fills a 24-byte buffer from the back and appends it to `b`. */
  method Itoa(b: string, n: int) returns (r: string)
    requires Int64(n)
    ensures r == b + IntText(n)
  {
    var tmp := new char[24];
    var i := 24;
    var v: nat := if n < 0 then -(n + 1) + 1 else n;
    ghost var v0 := v;
    Int64DecimalFits(v0);
    tmp[23] := Digit(v % 10);
    i, v := 23, v / 10;
    while v != 0
      invariant 4 <= i <= 23
      invariant v != 0 ==> Decimal(v0) == Decimal(v) + tmp[i..]
      invariant v == 0 ==> Decimal(v0) == tmp[i..]
    {
      assert |Decimal(v0)| == |Decimal(v)| + 24 - i;
      ghost var before := tmp[i..];
      tmp[i - 1] := Digit(v % 10);
      assert tmp[i..] == before;
      assert tmp[i - 1..] == [Digit(v % 10)] + before;
      i, v := i - 1, v / 10;
    }
    if n < 0 {
      ghost var before := tmp[i..];
      tmp[i - 1] := '-';
      assert tmp[i..] == before;
      assert tmp[i - 1..] == "-" + before;
      i := i - 1;
    }
    r := b + tmp[i..];
  }

  // ---------- decimal reading: strtoll and std::stoll ----------

  predicate IsSpace(c: char) {
    c == ' ' || c == '\t' || c == '\n' || c == '\r' || c as int == 11 || c as int == 12
  }

  function SkipSpace(s: string): string {
    if s != "" && IsSpace(s[0]) then SkipSpace(s[1..]) else s
  }

  function TakeDigits(s: string): (r: string)
    ensures forall c <- r :: IsDigit(c)
  {
    if s != "" && IsDigit(s[0]) then [s[0]] + TakeDigits(s[1..]) else ""
  }

  function DecimalValue(s: string): nat
    requires forall c <- s :: IsDigit(c)
  {
    if s == "" then 0
    else
      var k := |s| - 1;
      assert s[k] in s;
      DecimalValue(s[..k]) * 10 + DigitValue(s[k])
  }

  /** The number at the head of `s`, before any range check; None when there are no digits. */
  function ScanInt(s: string): Option<int> {
    var t := SkipSpace(s);
    var signed := t != "" && (t[0] == '-' || t[0] == '+');
    var digits := TakeDigits(if signed then t[1..] else t);
    if digits == "" then None
    else if signed && t[0] == '-' then Some(-(DecimalValue(digits) as int))
    else Some(DecimalValue(digits))
  }

  /** `strtoll(s, nullptr, 10)`: no digits give 0, overflow saturates. */
  function StrToLL(s: string): (n: int)
    ensures Int64(n)
  {
    match ScanInt(s)
    case None => 0
    case Some(v) => if v < INT64_MIN then INT64_MIN else if v > INT64_MAX then INT64_MAX else v
  }

  /** `std::stoll(s)`: throws, here None, on no digits and on overflow. */
  function Stoll(s: string): (n: Option<int>)
    ensures n.Some? ==> Int64(n.value)
  {
    match ScanInt(s)
    case Some(v) => if Int64(v) then Some(v) else None
    case None => None
  }

  lemma {:induction false} TakeAllDigits(s: string)
    requires forall c <- s :: IsDigit(c)
    ensures TakeDigits(s) == s
  {
    if s != "" {
      assert s[0] in s;
      assert forall c <- s[1..] :: c in s;
      TakeAllDigits(s[1..]);
    }
  }

  lemma {:induction false} DecimalValueOfDecimal(v: nat)
    ensures DecimalValue(Decimal(v)) == v
  {
    if v < 10 {
      assert Decimal(v)[..0] == "";
    } else {
      DecimalValueOfDecimal(v / 10);
      assert Decimal(v)[..|Decimal(v)| - 1] == Decimal(v / 10);
    }
  }

  /** Reading back a printed integer gives the integer. */
  lemma ScanIntText(n: int)
    ensures ScanInt(IntText(n)) == Some(n)
    ensures Int64(n) ==> StrToLL(IntText(n)) == n && Stoll(IntText(n)) == Some(n)
    ensures n > 0x7fff_ffff_ffff_ffff ==> StrToLL(IntText(n)) == 0x7fff_ffff_ffff_ffff && Stoll(IntText(n)) == None
    ensures n < -0x8000_0000_0000_0000 ==> StrToLL(IntText(n)) == -0x8000_0000_0000_0000 && Stoll(IntText(n)) == None
  {
    var v: nat := if n < 0 then -n else n;
    var t := IntText(n);
    assert t[0] in t;
    assert SkipSpace(t) == t;
    assert Decimal(v)[0] in Decimal(v);
    TakeAllDigits(Decimal(v));
    DecimalValueOfDecimal(v);
    if n < 0 {
      assert t[1..] == Decimal(v);
    }
  }

  // ---------- searching ----------

  /** Everything before the first `c`; the whole string when there is none. */
  function Before(s: string, c: char): (r: string)
    ensures r <= s
    ensures c !in r
    ensures |r| < |s| ==> s[|r|] == c
  {
    if s == "" || s[0] == c then "" else [s[0]] + Before(s[1..], c)
  }

  /** From the first `c` on; empty when there is none. */
  function From(s: string, c: char): (r: string)
    ensures |r| <= |s|
    ensures r != "" ==> r[0] == c
  {
    s[|Before(s, c)|..]
  }

  lemma {:induction false} BeforeUnique(x: string, c: char, y: string)
    requires c !in x
    ensures Before(x + [c] + y, c) == x
    ensures From(x + [c] + y, c) == [c] + y
    ensures Before(x, c) == x
  {
    if x != "" {
      assert x[0] in x;
      assert (x + [c] + y)[1..] == x[1..] + [c] + y;
      BeforeUnique(x[1..], c, y);
    }
  }

  const CRLF := "\r\n"

  /** `find`: the first position of `p` in `s`, or -1. */
  function Find(s: string, p: string): (k: int)
    ensures k == -1 || (0 <= k && k + |p| <= |s| && s[k..k + |p|] == p)
  {
    if |s| < |p| then -1
    else if s[..|p|] == p then 0
    else if s == "" then -1
    else
      var k := Find(s[1..], p);
      if k < 0 then -1 else k + 1
  }

  lemma {:induction false} FindStable(s: string, p: string, t: string)
    requires Find(s, p) >= 0
    ensures Find(s + t, p) == Find(s, p)
  {
    assert (s + t)[..|p|] == s[..|p|];
    if s[..|p|] != p {
      assert (s + t)[1..] == s[1..] + t;
      FindStable(s[1..], p, t);
    }
  }

  /** The first occurrence is right after a part free of the pattern's first character. */
  lemma {:induction false} FindAfter(x: string, p: string, y: string)
    requires p != "" && p[0] !in x
    ensures Find(x + (p + y), p) == |x|
  {
    var s := x + (p + y);
    if x == "" {
      assert s[..|p|] == p;
    } else {
      assert s[0] == x[0] && x[0] in x;
      assert s[..|p|][0] != p[0];
      assert s[1..] == x[1..] + (p + y);
      FindAfter(x[1..], p, y);
    }
  }

  lemma {:induction false} FindNone(x: string, p: string)
    requires p != "" && p[0] !in x
    ensures Find(x, p) == -1
  {
    if |x| >= |p| {
      assert x[..|p|][0] == x[0] && x[0] in x;
      FindNone(x[1..], p);
    }
  }

  // ---------- blanks and chunks ----------

  predicate IsBlank(c: char) { c == ' ' || c == '\t' }

  function DropBlanks(s: string): (r: string)
    ensures |r| <= |s|
  {
    if s != "" && IsBlank(s[0]) then DropBlanks(s[1..]) else s
  }

  function TrimBlanks(s: string): string {
    if s != "" && IsBlank(s[|s| - 1]) then TrimBlanks(s[..|s| - 1]) else s
  }

  /** The bytes of a stream delivered in chunks. */
  function Concat(chunks: seq<string>): string {
    if chunks == [] then "" else chunks[0] + Concat(chunks[1..])
  }
}
