/**
 The pipelined HTTP framing of src/server.cpp (`parse_req`, `body_limit`,
 `conn_loop`): message framing as in section 6 and persistence as in section
 9.3 of RFC 9112.  A connection delivers non-empty chunks and then ends.
 */
module Http {
  import opened Text

  const HEAD_END := "\r\n\r\n"
  const MAX_BODY := 4096
  const MAX_BULK_BODY := 1_048_576
  const SIZE_MAX := POW2_64 - 1

  // ---------- the request head ----------

  /** `length` is the content length as a 64-bit size; a negative one wraps around. */
  datatype Head = Head(verb: string, path: string, alive: bool, admin: string, xff: string, length: nat)

  function SetHeader(h: Head, k: string, v: string): Head {
    if k == "content-length" || k == "Content-Length" then h.(length := StrToLL(v) % POW2_64)
    else if k == "connection" || k == "Connection" then h.(alive := !(v == "close" || v == "Close"))
    else if k == "x-admin-token" || k == "X-Admin-Token" then h.(admin := v)
    else if k == "x-forwarded-for" || k == "X-Forwarded-For" then h.(xff := v)
    else h
  }

  function HeaderLine(h: Head, line: string): Head {
    var k := Before(line, ':');
    if |k| == |line| then h else SetHeader(h, k, TrimBlanks(DropBlanks(line[|k| + 1..])))
  }

  /** The header scan over `text`, the unread part of the head. */
  function Headers(h: Head, text: string): Head
    decreases |text|
  {
    if text == "" then h else
    var eol := Find(text, CRLF);
    if eol < 0 then HeaderLine(h, text)
    else Headers(HeaderLine(h, text[..eol]), text[eol + 2..])
  }

  /** None when the request line lacks its two spaces. */
  function ParseHead(head: string): Option<Head> {
    var sp1 := Find(head, " ");
    if sp1 < 0 then None else
    var rest := head[sp1 + 1..];
    var sp2 := Find(rest, " ");
    if sp2 < 0 then None else
    var tail := rest[sp2 + 1..];
    var crlf := Find(tail, CRLF);
    var h := Head(head[..sp1], rest[..sp2], crlf >= 0 && tail[..crlf] == "HTTP/1.1", "", "", 0);
    Some(if crlf < 0 then h else Headers(h, tail[crlf + 2..]))
  }

  // ---------- one request ----------

  datatype Parsed =
    | Incomplete
    | Malformed
    | Complete(head: Head, bodyOff: nat, bodyLen: nat, total: nat)

  predicate NeedsBody(verb: string) { verb == "POST" || verb == "PATCH" }

  /** Sums of sizes wrap at 64 bits. */
  function Wrap(n: nat): nat { n % POW2_64 }

  /** `parse_req` on the bytes not yet consumed; sizes wrap at 64 bits as in the source. */
  function ParseReq(rest: string): (p: Parsed)
    ensures p.Complete? ==> 0 < p.total <= |rest|
  {
    var he := Find(rest, HEAD_END);
    if he < 0 then Incomplete else
    match ParseHead(rest[..he])
    case None => Malformed
    case Some(h) =>
      var len := if NeedsBody(h.verb) then h.length else 0;
      var total := Wrap(he + 4 + len);
      if |rest| < total || total == 0 then Incomplete
      else if total == SIZE_MAX then Malformed
      else Complete(h, he + 4, len, total)
  }

  function BodyLimit(path: string): nat {
    if Before(path, '?') == "/api/shorten/bulk" then MAX_BULK_BODY else MAX_BODY
  }

  /** The header loop and its locals. */
  method ScanHeaders(h0: Head, head: string, start: nat) returns (h: Head)
    requires start <= |head|
    ensures h == Headers(h0, head[start..])
  {
    hide HeaderLine;
    h := h0;
    var hp := start;
    while hp < |head|
      invariant start <= hp <= |head|
      invariant Headers(h, head[hp..]) == Headers(h0, head[start..])
    {
      var text := head[hp..];
      var eol := Find(text, CRLF);
      var line := if eol < 0 then text else text[..eol];
      assert eol >= 0 ==> text[eol + 2..] == head[hp + eol + 2..];
      assert head[|head|..] == "";
      hp := if eol < 0 then |head| else hp + eol + 2;
      h := HeaderLine(h, line);
    }
    assert head[hp..] == "";
  }

  method ParseRequest(buf: string, pos: nat) returns (p: Parsed)
    requires pos <= |buf|
    ensures p == ParseReq(buf[pos..])
  {
    hide Headers, Find;
    var rest := buf[pos..];
    var he := Find(rest, HEAD_END);
    if he < 0 { return Incomplete; }
    var head := rest[..he];
    var sp1 := Find(head, " ");
    if sp1 < 0 { return Malformed; }
    var sp2 := Find(head[sp1 + 1..], " ");
    if sp2 < 0 { return Malformed; }
    var vs := sp1 + 1 + sp2 + 1;
    var tail := head[vs..];
    assert head[sp1 + 1..][sp2 + 1..] == tail;
    var crlf := Find(tail, CRLF);
    var ver := if crlf < 0 then "" else tail[..crlf];
    var h := Head(head[..sp1], head[sp1 + 1..][..sp2], ver == "HTTP/1.1", "", "", 0);
    if crlf >= 0 {
      assert tail[crlf + 2..] == head[vs + crlf + 2..];
      h := ScanHeaders(h, head, vs + crlf + 2);
    }
    assert ParseHead(head) == Some(h);
    var len := if NeedsBody(h.verb) then h.length else 0;
    var total := Wrap(he + 4 + len);
    if |buf| - pos < total || total == 0 { return Incomplete; }
    if total == SIZE_MAX { return Malformed; }
    p := Complete(h, he + 4, len, total);
  }

  // ---------- a connection ----------

  /** One call of the request handler. */
  datatype Call = Call(verb: string, path: string, body: string, admin: string, xff: string)

  datatype Ending = Waiting(rest: string) | Dropped | TooLarge | Closed

  predicate Oversized(p: Parsed)
    requires p.Complete?
  {
    NeedsBody(p.head.verb) && p.bodyLen > BodyLimit(p.head.path)
  }

  /** The body bytes; an accepted length cannot wrap the size of a buffer that fits the address space. */
  function BodyOf(rest: string, p: Parsed): string
    requires p.Complete? && p == ParseReq(rest) && !Oversized(p)
  {
    if NeedsBody(p.head.verb) && p.total == p.bodyOff + p.bodyLen then rest[p.bodyOff..p.bodyOff + p.bodyLen] else ""
  }

  function CallOf(rest: string, p: Parsed): Call
    requires p.Complete? && p == ParseReq(rest) && !Oversized(p)
  {
    Call(p.head.verb, p.head.path, BodyOf(rest, p), p.head.admin, p.head.xff)
  }

  /** The reference: the requests of a whole byte stream, and how it ends. */
  function Serve(stream: string): (seq<Call>, Ending)
    decreases |stream|
  {
    var p := ParseReq(stream);
    if p.Incomplete? then ([], Waiting(stream))
    else if p.Malformed? then ([], Dropped)
    else if Oversized(p) then ([], TooLarge)
    else if !p.head.alive then ([CallOf(stream, p)], Closed)
    else
      var (calls, end) := Serve(stream[p.total..]);
      ([CallOf(stream, p)] + calls, end)
  }

  /** The inner loop: every complete request in the buffer. */
  method Drain(buf: string) returns (calls: seq<Call>, end: Ending)
    ensures (calls, end) == Serve(buf)
  {
    hide ParseReq, CallOf, Oversized;
    calls := [];
    var parsed := 0;
    assert buf[0..] == buf && [] + Serve(buf).0 == Serve(buf).0;
    while true
      invariant 0 <= parsed <= |buf|
      invariant Serve(buf) == (calls + Serve(buf[parsed..]).0, Serve(buf[parsed..]).1)
      decreases |buf| - parsed
    {
      var p := ParseRequest(buf, parsed);
      var rest := buf[parsed..];
      assert calls + [] == calls;
      if p.Incomplete? { return calls, Waiting(rest); }
      if p.Malformed? { return calls, Dropped; }
      if Oversized(p) { return calls, TooLarge; }
      assert calls + ([CallOf(rest, p)] + Serve(rest[p.total..]).0) == calls + [CallOf(rest, p)] + Serve(rest[p.total..]).0;
      calls := calls + [CallOf(rest, p)];
      if !p.head.alive { return calls, Closed; }
      assert rest[p.total..] == buf[parsed + p.total..];
      parsed := parsed + p.total;
    }
    end := Dropped;
  }

  /** `conn_loop`: what `recv` returns in turn is `chunks`, then end of stream. */
  method ConnLoop(chunks: seq<string>) returns (calls: seq<Call>, end: Ending)
    requires forall c <- chunks :: c != ""
    ensures (calls, end) == Serve(Concat(chunks))
  {
    hide Serve;
    calls := [];
    var buf, k := "", 0;
    assert chunks[0..] == chunks;
    assert "" + Concat(chunks) == Concat(chunks) && [] + Serve(Concat(chunks)).0 == Serve(Concat(chunks)).0;
    end := Waiting("");
    while true
      invariant 0 <= k <= |chunks|
      invariant Serve(Concat(chunks)) == (calls + Serve(buf + Concat(chunks[k..])).0, Serve(buf + Concat(chunks[k..])).1)
      decreases |chunks| - k
    {
      var eof := k == |chunks|;
      if eof && buf == "" {
        assert "" + Concat(chunks[k..]) == "";
        ServeEmpty();
        assert calls + [] == calls;
        return calls, Waiting("");
      }
      ghost var buf0, k0 := buf, k;
      if !eof {
        buf := buf + chunks[k];
        assert chunks[k..] == [chunks[k]] + chunks[k + 1..];
        k := k + 1;
        assert buf0 + Concat(chunks[k0..]) == buf + Concat(chunks[k..]);
      }
      var more;
      more, end := Drain(buf);
      ServeAppend(buf, Concat(chunks[k..]));
      ghost var calls0 := calls;
      calls := calls + more;
      if !end.Waiting? { return; }
      buf := end.rest;
      if eof {
        assert Concat(chunks[k..]) == "" && buf0 + "" == buf0;
        return;
      }
      assert calls0 + (more + Serve(buf + Concat(chunks[k..])).0) == calls + Serve(buf + Concat(chunks[k..])).0;
    }
  }

  lemma ServeEmpty()
    ensures Serve("") == ([], Waiting(""))
  {}

  // ---------- chunking independence ----------

  /** A decided parse is not changed by bytes that arrive later. */
  lemma ParseStable(rest: string, more: string)
    requires !ParseReq(rest).Incomplete?
    ensures ParseReq(rest + more) == ParseReq(rest)
  {
    hide ParseHead, Find;
    var he := Find(rest, HEAD_END);
    FindStable(rest, HEAD_END, more);
    assert (rest + more)[..he] == rest[..he];
  }

  lemma CallStable(rest: string, more: string)
    requires ParseReq(rest).Complete? && !Oversized(ParseReq(rest))
    requires ParseReq(rest + more) == ParseReq(rest)
    ensures CallOf(rest + more, ParseReq(rest)) == CallOf(rest, ParseReq(rest))
  {
    hide ParseHead, Find;
    var p := ParseReq(rest);
    if p.total == p.bodyOff + p.bodyLen {
      assert (rest + more)[p.bodyOff..p.total] == rest[p.bodyOff..p.total];
    }
  }

  /** Serving can resume at any byte from the bytes still waiting. */
  lemma {:induction false} ServeAppend(a: string, b: string)
    ensures var (calls, end) := Serve(a);
            Serve(a + b) == if end.Waiting? then (calls + Serve(end.rest + b).0, Serve(end.rest + b).1) else (calls, end)
    decreases |a|
  {
    hide ParseReq, CallOf, Oversized;
    var p := ParseReq(a);
    if p.Incomplete? {
      assert [] + Serve(a + b).0 == Serve(a + b).0;
    } else {
      ParseStable(a, b);
      if p.Complete? && !Oversized(p) {
        CallStable(a, b);
        if p.head.alive {
          ServeAppend(a[p.total..], b);
          assert (a + b)[p.total..] == a[p.total..] + b;
          var (calls, end) := Serve(a[p.total..]);
          if end.Waiting? {
            var more := Serve(end.rest + b).0;
            assert [CallOf(a, p)] + (calls + more) == [CallOf(a, p)] + calls + more;
          }
        }
      }
    }
  }

}
