/**
 Requests written out as section 3 of RFC 9112 prescribes are framed back
 exactly: the handler is called with the verb, path, headers and body sent.
 */
module HttpRoundTrip {
  import opened Text
  import opened Http

  datatype Header = Header(name: string, value: string)

  datatype Request = Request(verb: string, path: string, version: string, headers: seq<Header>, body: string)

  function LineOf(h: Header): string { h.name + (":" + (" " + h.value)) }

  /** Header lines, separated but not ended by CRLF. */
  function Join(headers: seq<Header>): string {
    if headers == [] then ""
    else if |headers| == 1 then LineOf(headers[0])
    else LineOf(headers[0]) + (CRLF + Join(headers[1..]))
  }

  function HeadText(r: Request): string {
    r.verb + (" " + (r.path + (" " + (r.version + (if r.headers == [] then "" else CRLF + Join(r.headers))))))
  }

  function Render(r: Request): string { HeadText(r) + (HEAD_END + r.body) }

  predicate GoodHeader(h: Header) {
    && ':' !in h.name && '\r' !in h.name && '\r' !in h.value
    && (h.value == "" || (!IsBlank(h.value[0]) && !IsBlank(h.value[|h.value| - 1])))
  }

  /** What the headers mean, the later ones overriding the earlier. */
  function Meaning(h: Head, headers: seq<Header>): Head
    decreases |headers|
  {
    if headers == [] then h else Meaning(SetHeader(h, headers[0].name, headers[0].value), headers[1..])
  }

  /** `parse_req` finds the version only when a header line follows it. */
  function HeadOf(r: Request): Head {
    Meaning(Head(r.verb, r.path, r.headers != [] && r.version == "HTTP/1.1", "", "", 0), r.headers)
  }

  predicate WellFormedHead(r: Request) {
    && ' ' !in r.verb && '\r' !in r.verb && ' ' !in r.path && '\r' !in r.path && '\r' !in r.version
    && (forall h <- r.headers :: GoodHeader(h))
  }

  /** Only POST and PATCH carry a body, whose length is declared. */
  predicate Framed(r: Request) {
    && WellFormedHead(r) && |Render(r)| < SIZE_MAX
    && (if r.verb == "POST" || r.verb == "PATCH" then HeadOf(r).length == |r.body| else r.body == "")
  }

  /** The largest body accepted at a path: 1 MiB for bulk creation, 4 KiB elsewhere. */
  function Limit(path: string): nat {
    if Before(path, '?') == "/api/shorten/bulk" then 1_048_576 else 4_096
  }

  predicate WellFormed(r: Request) { Framed(r) && |r.body| <= Limit(r.path) }

  predicate Named(h: Header, name: string, name': string) { h.name == name || h.name == name' }

  /** What one header changes. */
  lemma OneHeader(h: Head, hd: Header)
    ensures SetHeader(h, hd.name, hd.value) ==
              Head(h.verb, h.path,
                   if Named(hd, "connection", "Connection") then hd.value != "close" && hd.value != "Close" else h.alive,
                   if Named(hd, "x-admin-token", "X-Admin-Token") then hd.value else h.admin,
                   if Named(hd, "x-forwarded-for", "X-Forwarded-For") then hd.value else h.xff,
                   if Named(hd, "content-length", "Content-Length") then StrToLL(hd.value) % POW2_64 else h.length)
  {
    hide StrToLL;
  }

  /** The value of the last header with one of two spellings of a name. */
  function Last(headers: seq<Header>, name: string, name': string): Option<string> {
    if headers == [] then None else
    var h := headers[|headers| - 1];
    if Named(h, name, name') then Some(h.value) else Last(headers[..|headers| - 1], name, name')
  }

  function Or(v: Option<string>, default: string): string { if v.Some? then v.value else default }

  lemma {:induction false} MeaningPush(h: Head, headers: seq<Header>, hd: Header)
    ensures Meaning(h, headers + [hd]) == SetHeader(Meaning(h, headers), hd.name, hd.value)
    decreases |headers|
  {
    hide SetHeader;
    if headers == [] {
      assert headers + [hd] == [hd] && [hd][1..] == [];
    } else {
      assert (headers + [hd])[1..] == headers[1..] + [hd];
      MeaningPush(SetHeader(h, headers[0].name, headers[0].value), headers[1..], hd);
    }
  }

  /** What the scan extracts: each field from the last header of its name, all others ignored. */
  lemma {:induction false} LastHeaderWins(h: Head, headers: seq<Header>)
    ensures var close := Last(headers, "connection", "Connection");
            var length := Last(headers, "content-length", "Content-Length");
            Meaning(h, headers) ==
              Head(h.verb, h.path,
                   if close.Some? then close.value != "close" && close.value != "Close" else h.alive,
                   Or(Last(headers, "x-admin-token", "X-Admin-Token"), h.admin),
                   Or(Last(headers, "x-forwarded-for", "X-Forwarded-For"), h.xff),
                   if length.Some? then StrToLL(length.value) % POW2_64 else h.length)
  {
    if headers != [] {
      hide Meaning, StrToLL, SetHeader, Named;
      var k := |headers| - 1;
      LastHeaderWins(h, headers[..k]);
      assert headers == headers[..k] + [headers[k]];
      MeaningPush(h, headers[..k], headers[k]);
      OneHeader(Meaning(h, headers[..k]), headers[k]);
    }
  }

  // ---------- header lines ----------

  lemma ReadLineOf(h: Head, hd: Header)
    requires GoodHeader(hd)
    ensures HeaderLine(h, LineOf(hd)) == SetHeader(h, hd.name, hd.value)
    ensures '\r' !in LineOf(hd) && LineOf(hd) != ""
  {
    hide SetHeader, Before;
    var v := " " + hd.value;
    assert LineOf(hd) == hd.name + [':'] + v;
    BeforeUnique(hd.name, ':', v);
    assert LineOf(hd)[|hd.name| + 1..] == v;
    assert v[1..] == hd.value;
    assert DropBlanks(v) == hd.value;
    assert TrimBlanks(hd.value) == hd.value;
  }

  lemma {:induction false} ReadJoin(h: Head, headers: seq<Header>)
    requires forall hd <- headers :: GoodHeader(hd)
    ensures Headers(h, Join(headers)) == Meaning(h, headers)
    decreases |headers|
  {
    hide SetHeader, HeaderLine, Find, LineOf, GoodHeader;
    if headers != [] {
      var hd := headers[0];
      assert hd in headers;
      ReadLineOf(h, hd);
      if |headers| == 1 {
        FindNone(LineOf(hd), CRLF);
        assert headers[1..] == [];
      } else {
        var rest := Join(headers[1..]);
        FindAfter(LineOf(hd), CRLF, rest);
        assert Join(headers)[..|LineOf(hd)|] == LineOf(hd);
        assert Join(headers)[|LineOf(hd)| + 2..] == rest;
        ReadJoin(SetHeader(h, hd.name, hd.value), headers[1..]);
      }
    }
  }

  function AfterPath(r: Request): string {
    r.version + (if r.headers == [] then "" else CRLF + Join(r.headers))
  }

  lemma ReadAfterPath(r: Request)
    requires WellFormedHead(r)
    ensures var tail, crlf := AfterPath(r), Find(AfterPath(r), CRLF);
            if r.headers == [] then crlf < 0
            else crlf == |r.version| && tail[..crlf] == r.version && tail[crlf + 2..] == Join(r.headers)
  {
    hide Join, Find, GoodHeader;
    if r.headers == [] {
      assert AfterPath(r) == r.version;
      FindNone(r.version, CRLF);
    } else {
      FindAfter(r.version, CRLF, Join(r.headers));
    }
  }

  lemma ReadHead(r: Request)
    requires WellFormedHead(r)
    ensures ParseHead(HeadText(r)) == Some(HeadOf(r))
  {
    hide Headers, Join, Find, Meaning, GoodHeader, AfterPath;
    var rest := r.path + (" " + AfterPath(r));
    assert HeadText(r) == r.verb + (" " + rest) by { HeadShape(r); }
    FindAfter(r.verb, " ", rest);
    assert HeadText(r)[..|r.verb|] == r.verb && HeadText(r)[|r.verb| + 1..] == rest;
    FindAfter(r.path, " ", AfterPath(r));
    assert rest[..|r.path|] == r.path && rest[|r.path| + 1..] == AfterPath(r);
    ReadAfterPath(r);
    var h := Head(r.verb, r.path, r.headers != [] && r.version == "HTTP/1.1", "", "", 0);
    MeaningNil(h);
    ReadJoin(h, r.headers);
  }

  lemma HeadShape(r: Request)
    ensures HeadText(r) == r.verb + (" " + (r.path + (" " + AfterPath(r))))
  {}

  lemma MeaningNil(h: Head)
    ensures Meaning(h, []) == h
  {}

  // ---------- the end of the head ----------

  /** A mismatch at the front moves the search on by one. */
  lemma FindStep(s: string, p: string, i: nat)
    requires s != "" && i < |p| && (i < |s| ==> s[i] != p[i]) && Find(s[1..], p) >= 0
    ensures Find(s, p) == Find(s[1..], p) + 1
  {
    if |s| >= |p| { assert s[..|p|][i] == s[i]; }
  }

  /** A line and its CRLF do not hide the end of the head behind them. */
  lemma {:induction false} SkipLine(x: string, rest: string)
    requires '\r' !in x && rest != "" && rest[0] != '\r' && Find(rest, HEAD_END) >= 0
    ensures Find(x + (CRLF + rest), HEAD_END) == |x| + 2 + Find(rest, HEAD_END)
  {
    hide Find;
    var s := x + (CRLF + rest);
    if x == "" {
      assert s[1..] == "\n" + rest && s[1..][1..] == rest;
      FindStep(s[1..], HEAD_END, 0);
      FindStep(s, HEAD_END, 2);
    } else {
      assert x[0] in x;
      assert s[1..] == x[1..] + (CRLF + rest);
      SkipLine(x[1..], rest);
      FindStep(s, HEAD_END, 0);
    }
  }

  lemma {:induction false} EndOfJoin(headers: seq<Header>, tail: string)
    requires headers != [] && forall hd <- headers :: GoodHeader(hd)
    ensures Find(Join(headers) + (HEAD_END + tail), HEAD_END) == |Join(headers)|
    ensures Join(headers) != "" && Join(headers)[0] != '\r'
  {
    hide Find, LineOf, GoodHeader;
    var hd := headers[0];
    var line := LineOf(hd);
    assert hd in headers;
    ReadLineOf(Head("", "", false, "", "", 0), hd);
    assert line[0] in line;
    if |headers| == 1 {
      FindAfter(line, HEAD_END, tail);
    } else {
      var rest := Join(headers[1..]);
      EndOfJoin(headers[1..], tail);
      SkipLine(line, rest + (HEAD_END + tail));
      assert Join(headers) + (HEAD_END + tail) == line + (CRLF + (rest + (HEAD_END + tail)));
    }
  }

  lemma EndOfHead(r: Request, tail: string)
    requires WellFormedHead(r)
    ensures Find(HeadText(r) + (HEAD_END + tail), HEAD_END) == |HeadText(r)|
  {
    hide Find, Join, GoodHeader, Meaning;
    var line := r.verb + (" " + (r.path + (" " + r.version)));
    assert '\r' !in line;
    if r.headers == [] {
      assert HeadText(r) == line;
      FindAfter(line, HEAD_END, tail);
    } else {
      EndOfJoin(r.headers, tail);
      var rest := Join(r.headers) + (HEAD_END + tail);
      SkipLine(line, rest);
      assert HeadText(r) == line + (CRLF + Join(r.headers));
      assert HeadText(r) + (HEAD_END + tail) == line + (CRLF + rest);
    }
  }

  // ---------- whole requests ----------

  lemma ReadRequest(r: Request, tail: string)
    requires Framed(r)
    ensures ParseReq(Render(r) + tail) == Complete(HeadOf(r), |HeadText(r)| + 4, |r.body|, |Render(r)|)
  {
    hide Find, HeadText, ParseHead, HeadOf, WellFormedHead;
    var head, stream := HeadText(r), Render(r) + tail;
    assert stream == head + (HEAD_END + (r.body + tail));
    EndOfHead(r, r.body + tail);
    ReadHead(r);
    assert stream[..|head|] == head;
    VerbKept(r);
  }

  lemma {:induction false} MeaningKeeps(h: Head, headers: seq<Header>)
    ensures Meaning(h, headers).verb == h.verb && Meaning(h, headers).path == h.path
    decreases |headers|
  {
    if headers != [] { MeaningKeeps(SetHeader(h, headers[0].name, headers[0].value), headers[1..]); }
  }

  lemma VerbKept(r: Request)
    ensures HeadOf(r).verb == r.verb && HeadOf(r).path == r.path
  {
    MeaningKeeps(Head(r.verb, r.path, r.headers != [] && r.version == "HTTP/1.1", "", "", 0), r.headers);
  }

  function CallFor(r: Request): Call {
    Call(r.verb, r.path, r.body, HeadOf(r).admin, HeadOf(r).xff)
  }

  /** A well-formed request at the head of a stream is served as sent; the rest is served after it. */
  lemma ServeRequest(r: Request, tail: string)
    requires WellFormed(r)
    ensures Serve(Render(r) + tail)
         == if HeadOf(r).alive then ([CallFor(r)] + Serve(tail).0, Serve(tail).1) else ([CallFor(r)], Closed)
  {
    hide ParseReq, HeadText, HeadOf;
    var stream, p := Render(r) + tail, ParseReq(Render(r) + tail);
    ReadRequest(r, tail);
    VerbKept(r);
    assert stream[|Render(r)|..] == tail;
    assert stream[|HeadText(r)| + 4..|Render(r)|] == r.body;
  }

  /** The two limits, as numbers. */
  lemma ServeLimit(r: Request, tail: string)
    requires Framed(r) && (r.verb == "POST" || r.verb == "PATCH")
    ensures var large := if Before(r.path, '?') == "/api/shorten/bulk" then |r.body| > 1_048_576 else |r.body| > 4_096;
            && (Serve(Render(r) + tail) == ([], TooLarge) <==> large)
            && (!large ==> Serve(Render(r) + tail).0 != [] && Serve(Render(r) + tail).0[0] == CallFor(r))
  {
    hide ParseReq, HeadText, HeadOf, WellFormedHead;
    ReadRequest(r, tail);
    VerbKept(r);
    if |r.body| <= Limit(r.path) { ServeRequest(r, tail); }
  }

  /** A declared length that wraps the size of the request is too large, whatever follows the head. */
  lemma WrappedLength(r: Request, k: nat, tail: string)
    requires WellFormedHead(r) && (r.verb == "POST" || r.verb == "PATCH") && |HeadText(r)| + 4 < 0x1_0000_0000
    requires 0 < k < |HeadText(r)| + 4 && HeadOf(r).length == 0x1_0000_0000_0000_0000 - k
    ensures Serve(HeadText(r) + (HEAD_END + tail)) == ([], TooLarge)
  {
    hide Find, HeadText, ParseHead, HeadOf, WellFormedHead;
    var head, stream := HeadText(r), HeadText(r) + (HEAD_END + tail);
    EndOfHead(r, tail);
    ReadHead(r);
    assert stream[..|head|] == head;
    VerbKept(r);
    var n := |head| + 4;
    assert Wrap(n + HeadOf(r).length) == n - k;
  }

  /** How many spaces `s` has. */
  function Spaces(s: string): nat { if s == "" then 0 else (if s[0] == ' ' then 1 else 0) + Spaces(s[1..]) }

  lemma {:induction false} SpaceCount(s: string)
    ensures Find(s, " ") < 0 ==> Spaces(s) == 0
    ensures Find(s, " ") >= 0 ==> Spaces(s) == 1 + Spaces(s[Find(s, " ") + 1..])
  {
    if s != "" {
      SpaceCount(s[1..]);
      assert s[..1] == " " <==> s[0] == ' ';
      if s[0] != ' ' && Find(s[1..], " ") >= 0 { assert s[1..][Find(s[1..], " ") + 1..] == s[Find(s, " ") + 1..]; }
    }
  }

  lemma LineHead(line: string)
    requires '\r' !in line
    ensures var h := ParseHead(line);
            if Spaces(line) < 2 then h == None else h.Some? && !h.value.alive && h.value.length == 0
  {
    hide Find, Spaces, Headers;
    SpaceCount(line);
    var sp1 := Find(line, " ");
    if sp1 >= 0 {
      var rest := line[sp1 + 1..];
      SpaceCount(rest);
      var sp2 := Find(rest, " ");
      if sp2 >= 0 {
        assert rest[sp2 + 1..] == line[sp1 + 1 + sp2 + 1..];
        FindNone(rest[sp2 + 1..], CRLF);
      }
    }
  }

  /** A request line on its own: dropped exactly when it has fewer than two spaces, otherwise handled and closed. */
  lemma BadRequestLine(line: string, tail: string)
    requires '\r' !in line && |line| + 4 < SIZE_MAX
    ensures var (calls, end) := Serve(line + (HEAD_END + tail));
            if Spaces(line) < 2 then calls == [] && end == Dropped else |calls| == 1 && end == Closed
  {
    hide ParseReq, Spaces, BodyLimit, BodyOf;
    LineParse(line, tail);
  }

  lemma LineParse(line: string, tail: string)
    requires '\r' !in line && |line| + 4 < SIZE_MAX
    ensures var p := ParseReq(line + (HEAD_END + tail));
            if Spaces(line) < 2 then p == Malformed else p.Complete? && !p.head.alive && p.bodyLen == 0
  {
    hide Find, Spaces, ParseHead, ParseReq;
    var stream := line + (HEAD_END + tail);
    FindAfter(line, HEAD_END, tail);
    assert stream[..|line|] == line;
    LineHead(line);
    ParseBodiless(stream, |line|);
  }

  /** A head that declares no body. */
  lemma ParseBodiless(stream: string, he: nat)
    requires Find(stream, HEAD_END) == he && he + 4 <= |stream| && he + 4 < SIZE_MAX
    ensures var h := ParseHead(stream[..he]);
            && (h.None? ==> ParseReq(stream) == Malformed)
            && (h.Some? && h.value.length == 0 ==> ParseReq(stream) == Complete(h.value, he + 4, 0, he + 4))
  {
    hide Find, ParseHead, Wrap;
    WrapSmall(he + 4);
  }

  lemma WrapSmall(n: nat)
    requires n < POW2_64
    ensures Wrap(n) == n
  {}

  function RenderAll(rs: seq<Request>): string {
    if rs == [] then "" else Render(rs[0]) + RenderAll(rs[1..])
  }

  /**
   Pipelining: any number of well-formed keep-alive requests, however received, reach the
   handler one by one, in order and unchanged, and what follows them is served next.
   */
  lemma {:induction false} ServePipeline(rs: seq<Request>, tail: string)
    requires forall r <- rs :: WellFormed(r) && HeadOf(r).alive
    ensures Serve(RenderAll(rs) + tail) == (seq(|rs|, k requires 0 <= k < |rs| => CallFor(rs[k])) + Serve(tail).0, Serve(tail).1)
  {
    hide Serve, WellFormed, HeadOf, Render, CallFor;
    var calls := seq(|rs|, k requires 0 <= k < |rs| => CallFor(rs[k]));
    if rs == [] {
      assert RenderAll(rs) + tail == tail;
      assert calls + Serve(tail).0 == Serve(tail).0;
    } else {
      var rest := seq(|rs[1..]|, k requires 0 <= k < |rs[1..]| => CallFor(rs[1..][k]));
      assert rs[0] in rs;
      assert RenderAll(rs) + tail == Render(rs[0]) + (RenderAll(rs[1..]) + tail);
      ServeRequest(rs[0], RenderAll(rs[1..]) + tail);
      ServePipeline(rs[1..], tail);
      assert calls == [CallFor(rs[0])] + rest;
      assert [CallFor(rs[0])] + (rest + Serve(tail).0) == calls + Serve(tail).0;
    }
  }
}
