/**
 The value codec shared by src/store_rocks.cpp and src/store_kv.cpp:
 "v1|{expiry}|{created}|{url}", with two older forms still decoded.
 */
module ValueCodec {
  import opened Text

  datatype Value = Value(expiry: int, created: int, url: string)

  function Enc(e: int, c: int, u: string): string {
    "v1|" + (IntText(e) + (['|'] + (IntText(c) + (['|'] + u))))
  }

  /** The part of `dec` after the version tag. */
  function DecFields(sv: string): Option<Value> {
    var p := Before(sv, '|');
    if |p| == |sv| then None else
    var e := Stoll(p);
    if e.None? then None else
    var rest := sv[|p| + 1..];
    var q := Before(rest, '|');
    if |q| == |rest| then Some(Value(e.value, 0, rest)) else
    var c := Stoll(q);
    if c.None? then None else Some(Value(e.value, c.value, rest[|q| + 1..]))
  }

  function Dec(v: string): Option<Value> {
    DecFields(if "v1|" <= v then v[3..] else v)
  }

  lemma DecInt64(v: string)
    ensures Dec(v).Some? ==> Int64(Dec(v).value.expiry) && Int64(Dec(v).value.created)
  {}

  lemma NumberBar(n: int, rest: string)
    ensures Before(IntText(n) + (['|'] + rest), '|') == IntText(n)
    ensures (IntText(n) + (['|'] + rest))[|IntText(n)| + 1..] == rest
  {
    hide Before;
    assert '|' !in IntText(n);
    assert IntText(n) + (['|'] + rest) == IntText(n) + ['|'] + rest;
    BeforeUnique(IntText(n), '|', rest);
  }

  lemma DecThree(e: int, c: int, u: string)
    requires Int64(e) && Int64(c)
    ensures DecFields(IntText(e) + (['|'] + (IntText(c) + (['|'] + u)))) == Some(Value(e, c, u))
  {
    hide Before, IntText, Stoll;
    NumberBar(e, IntText(c) + (['|'] + u));
    NumberBar(c, u);
    ScanIntText(e);
    ScanIntText(c);
  }

  /** Decoding undoes encoding for every url, also one that contains '|'. */
  lemma DecEnc(e: int, c: int, u: string)
    requires Int64(e) && Int64(c)
    ensures Dec(Enc(e, c, u)) == Some(Value(e, c, u))
  {
    hide DecFields, IntText;
    DecThree(e, c, u);
    var body := IntText(e) + (['|'] + (IntText(c) + (['|'] + u)));
    assert ("v1|" + body)[3..] == body;
  }

  lemma Untagged(e: int, t: string)
    ensures Dec(IntText(e) + t) == DecFields(IntText(e) + t)
  {
    hide DecFields, IntText;
    assert IntText(e)[0] in IntText(e);
    assert (IntText(e) + t)[0] == IntText(e)[0] != 'v';
  }

  /** The older forms: "{e}|{c}|{u}" keeps its creation time, "{e}|{u}" has none. */
  lemma DecLegacy(e: int, c: int, u: string)
    requires Int64(e) && Int64(c)
    ensures Dec(IntText(e) + (['|'] + (IntText(c) + (['|'] + u)))) == Some(Value(e, c, u))
    ensures '|' !in u ==> Dec(IntText(e) + (['|'] + u)) == Some(Value(e, 0, u))
  {
    hide Before, IntText, Stoll, Dec;
    DecThree(e, c, u);
    Untagged(e, ['|'] + (IntText(c) + (['|'] + u)));
    Untagged(e, ['|'] + u);
    NumberBar(e, u);
    ScanIntText(e);
    if '|' !in u { BeforeUnique(u, '|', ""); }
  }
}
