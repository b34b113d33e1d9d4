/**
 Printed HTTP requests: a partner for the parser and the connection loop.
 */
module HttpPrint {
  import opened Bytes
  import opened Utf8
  import opened HttpText
  import opened HttpRequest
  import opened HttpLoop
  import Decimal

  // ---- text --------------------------------------------------------------------------------------

  datatype Spec = Spec(verb: Method, path: string, headers: seq<Header>, body: seq<byte>)

  function RequestLineText(s: Spec): string {
    (if s.verb.Get? then "GET" else "POST") + " " + (s.path + " " + "HTTP/1.1")
  }

  function HeaderText(h: Header): string {
    h.0 + [':'] + (" " + h.1)
  }

  /** Header lines and the blank line. */
  function BlockText(hs: seq<Header>): string {
    if hs == [] then "\r\n" else HeaderText(hs[0]) + "\r\n" + BlockText(hs[1..])
  }

  function HeadText(s: Spec): string {
    RequestLineText(s) + "\r\n" + BlockText(s.headers)
  }

  function Print(s: Spec): seq<byte> {
    Encode(HeadText(s)) + s.body
  }

  predicate PlainHeader(h: Header) {
    ':' !in h.0 && OneLine(h.0) && OneLine(h.1) && IsTrim(h.0) && IsTrim(h.1)
  }

  predicate PlainHeaders(hs: seq<Header>) {
    forall i | 0 <= i < |hs| :: PlainHeader(hs[i])
  }

  // ---- the blank line is where it was printed ------------------------------------------------------

  lemma {:induction false} OneLineBytes(s: string)
    requires OneLine(s)
    ensures 13 !in Encode(s) && (s != [] ==> Encode(s) != [])
  {
    if s != [] {
      assert s == [s[0]] + s[1..];
      OneLineBytes(s[1..]);
      NotReturn(s[0]);
    }
  }

  lemma NotReturn(c: char)
    requires c != '\r'
    ensures 13 !in EncodeChar(c)
  {
  }

  lemma {:induction false} SkipTo(buf: seq<byte>, p: nat, r: nat)
    requires p <= r <= |buf| && forall k | p <= k < r :: !TermAt(buf, k)
    ensures Terminator(buf, p) == Terminator(buf, r)
    decreases r - p
  {
    if p < r { SkipTo(buf, p + 1, r); }
  }

  /** One line and the break after it hold no blank line, unless another break follows. */
  lemma PastLine(buf: seq<byte>, p: nat, l: seq<byte>)
    requires At(buf, p, l + [13, 10]) && 13 !in l
    ensures var q := p + |l| + 2;
            && q <= |buf|
            && (q < |buf| && buf[q] != 13 ==> Terminator(buf, p) == Terminator(buf, q))
            && (q + 2 <= |buf| && buf[q] == 13 && buf[q + 1] == 10 ==> Terminator(buf, p) == Some(q + 2))
  {
    hide At, Terminator;
    var q := p + |l|;
    AtSplit(buf, p, l, [13, 10]);
    Room(buf, q, [13, 10]);
    AtByte(buf, q, [13, 10], 0);
    AtByte(buf, q, [13, 10], 1);
    Room(buf, p, l);
    forall k | p <= k < q
      ensures !TermAt(buf, k)
    {
      AtByte(buf, p, l, k - p);
    }
    if q + 2 < |buf| && buf[q + 2] != 13 {
      assert !TermAt(buf, q) && !TermAt(buf, q + 1);
      SkipTo(buf, p, q + 2);
    }
    SkipTo(buf, p, q);
    if TermAt(buf, q) { FoundHere(buf, q); }
  }

  lemma FoundHere(buf: seq<byte>, q: nat)
    requires TermAt(buf, q)
    ensures Terminator(buf, q) == Some(q + 4)
  {
  }

  lemma BreakBytes()
    ensures Encode("\r\n") == [13, 10]
  {
    EncodeAscii("\r\n");
  }

  lemma {:induction false} BlockEnds(buf: seq<byte>, p: nat, line: string, hs: seq<Header>)
    requires OneLine(line) && PlainHeaders(hs) && At(buf, p, Encode(line + "\r\n" + BlockText(hs)))
    ensures Terminator(buf, p) == Some(p + |Encode(line + "\r\n" + BlockText(hs))|)
    decreases |hs|
  {
    hide Encode, At, Terminator, HeaderText;
    var l := Encode(line);
    BreakBytes();
    EncodeConcat(line + "\r\n", BlockText(hs));
    EncodeConcat(line, "\r\n");
    AtSplit(buf, p, l + [13, 10], Encode(BlockText(hs)));
    OneLineBytes(line);
    PastLine(buf, p, l);
    var q := p + |l| + 2;
    if hs == [] {
      AtByte(buf, q, [13, 10], 0);
      AtByte(buf, q, [13, 10], 1);
      Room(buf, q, [13, 10]);
    } else {
      LineStarts(buf, q, hs);
      HeaderIsOneLine(hs[0]);
      BlockEnds(buf, q, HeaderText(hs[0]), hs[1..]);
    }
  }

  lemma Room(buf: seq<byte>, p: nat, e: seq<byte>)
    requires At(buf, p, e)
    ensures p + |e| <= |buf|
  {
  }

  lemma HeaderIsOneLine(h: Header)
    requires PlainHeader(h)
    ensures OneLine(HeaderText(h))
  {
  }

  lemma LineStarts(buf: seq<byte>, q: nat, hs: seq<Header>)
    requires hs != [] && PlainHeaders(hs) && At(buf, q, Encode(BlockText(hs)))
    ensures q < |buf| && buf[q] != 13
  {
    hide Encode, At;
    var t := HeaderText(hs[0]);
    EncodeConcat(t, "\r\n" + BlockText(hs[1..]));
    assert t + ("\r\n" + BlockText(hs[1..])) == BlockText(hs);
    AtSplit(buf, q, Encode(t), Encode("\r\n" + BlockText(hs[1..])));
    HeaderIsOneLine(hs[0]);
    OneLineBytes(t);
    AtByte(buf, q, Encode(t), 0);
    Room(buf, q, Encode(t));
  }

  // ---- the lines are read back ------------------------------------------------------------------------

  function HeaderLines(hs: seq<Header>): (ls: seq<string>)
    ensures |ls| == |hs|
  {
    seq(|hs|, i requires 0 <= i < |hs| => HeaderText(hs[i]))
  }

  lemma {:induction false} BlockLines(hs: seq<Header>)
    requires PlainHeaders(hs)
    ensures Lines(BlockText(hs)) == HeaderLines(hs) + ["", ""]
    decreases |hs|
  {
    hide HeaderText, Lines;
    if hs == [] {
      BlankLine();
      assert HeaderLines(hs) + ["", ""] == ["", ""];
    } else {
      HeaderIsOneLine(hs[0]);
      FirstLine(HeaderText(hs[0]), BlockText(hs[1..]));
      BlockLines(hs[1..]);
      assert [HeaderText(hs[0])] + (HeaderLines(hs[1..]) + ["", ""]) == HeaderLines(hs) + ["", ""];
    }
  }

  lemma BlankLine()
    ensures Lines("\r\n") == ["", ""]
  {
    assert FindCrLf("\r\n") == Some(0);
    assert "\r\n"[..0] == "" && "\r\n"[2..] == "";
    assert Lines("") == [""];
  }

  lemma HeaderReads(h: Header)
    requires PlainHeader(h)
    ensures HeaderText(h) != [] && SplitHeader(HeaderText(h)) == Ok(h)
  {
    hide Trim;
    var t := HeaderText(h);
    FindsFirst(h.0, ':', " " + h.1);
    assert t[..|h.0|] == h.0 && t[|h.0| + 1..] == " " + h.1;
    TrimKeeps(h.0);
    TrimSpace(h.1);
  }

  /** The header list taken in one header after the other. */
  function AddAll(f: Framing, hs: seq<Header>): Result<Framing, ParseError>
    decreases |hs|
  {
    if hs == [] then Ok(f)
    else
      var f :- AddHeader(f, hs[0]);
      AddAll(f, hs[1..])
  }

  lemma {:induction false} LinesRead(f: Framing, hs: seq<Header>)
    requires PlainHeaders(hs)
    ensures AddLines(f, HeaderLines(hs) + ["", ""]) == AddAll(f, hs)
    decreases |hs|
  {
    hide HeaderText, AddHeader, SplitHeader;
    var ls := HeaderLines(hs) + ["", ""];
    if hs == [] {
      assert ls[1..] == [""] && [""][1..] == [];
      assert AddLines(f, [""]) == Ok(f);
    } else {
      HeaderReads(hs[0]);
      assert ls[1..] == HeaderLines(hs[1..]) + ["", ""];
      var g := AddHeader(f, hs[0]);
      if g.Ok? { LinesRead(g.value, hs[1..]); }
    }
  }

  lemma RequestLineReads(s: Spec)
    requires IsKnownPath(s.path)
    ensures RequestLine(RequestLineText(s)) == Ok((s.verb, s.path)) && OneLine(RequestLineText(s))
  {
    hide RequestLine, IsKnownPath;
    var v := if s.verb.Get? then "GET" else "POST";
    PathIsPlain(s.path);
    WordsRead(v, s.path);
    assert OneLine(v) && OneLine("HTTP/1.1") && OneLine(" ");
  }

  lemma PathIsPlain(p: string)
    requires IsKnownPath(p)
    ensures ' ' !in p && OneLine(p)
  {
  }

  lemma WordsRead(v: string, p: string)
    requires ' ' !in v && ' ' !in p && (v == "GET" || v == "POST")
    ensures RequestLine(v + " " + (p + " " + "HTTP/1.1")) == Ok((if v == "GET" then Get else Post, p))
  {
    var rest := p + " " + "HTTP/1.1";
    var t := v + " " + rest;
    FindsFirst(v, ' ', rest);
    FindsFirst(p, ' ', "HTTP/1.1");
    hide Find;
    assert t[..|v|] == v && t[|v| + 1..] == rest;
    assert rest[..|p|] == p && rest[|p| + 1..] == "HTTP/1.1";
  }

  /** The header block of a printed request decides what its list of headers says. */
  lemma HeadReads(s: Spec, f: Framing)
    requires IsKnownPath(s.path) && PlainHeaders(s.headers)
    requires AddAll(NO_HEADERS, s.headers) == Ok(f) && CheckFraming(f) == None
    ensures HeadOf(Encode(HeadText(s))) == Ok(Head(s.verb, s.path, f))
  {
    hide RequestLine, RequestLineText, AddLines, AddAll, Lines, FromUtf8, CheckFraming, Encode;
    RoundTrip(HeadText(s));
    RequestLineReads(s);
    FirstLine(RequestLineText(s), BlockText(s.headers));
    BlockLines(s.headers);
    LinesRead(NO_HEADERS, s.headers);
    var ls := HeaderLines(s.headers) + ["", ""];
    assert ([RequestLineText(s)] + ls)[1..] == ls;
  }

  /** The headers are in order and name a host. */
  predicate Hosted(s: Spec) {
    AddAll(NO_HEADERS, s.headers).Ok? && AddAll(NO_HEADERS, s.headers).value.host.Some?
  }

  /** The headers are plain and frame the request without conflict. */
  ghost predicate Headed(s: Spec) {
    && IsKnownPath(s.path) && PlainHeaders(s.headers) && |Encode(HeadText(s))| <= MAX_HEADER_BYTES
    && AddAll(NO_HEADERS, s.headers).Ok?
    && CheckFraming(AddAll(NO_HEADERS, s.headers).value) == None
  }

  /** Whatever follows it, a printed header block is found and read. */
  lemma HeadFound(s: Spec, tail: seq<byte>)
    requires Headed(s)
    ensures Hosted(s)
    ensures var head, buf := Encode(HeadText(s)), Encode(HeadText(s)) + tail;
            && Terminator(buf, 0) == Some(|head|) && buf[..|head|] == head && buf[|head|..] == tail
            && HeadOf(head) == Ok(Head(s.verb, s.path, AddAll(NO_HEADERS, s.headers).value))
  {
    hide HeadOf, Terminator, AddAll, RequestLineText, BlockText, Encode, IsKnownPath;
    var head := Encode(HeadText(s));
    var buf := head + tail;
    assert At(buf, 0, head) by { assert buf[0..|head|] == head; }
    RequestLineReads(s);
    BlockEnds(buf, 0, RequestLineText(s), s.headers);
    HeadReads(s, AddAll(NO_HEADERS, s.headers).value);
  }

  // ---- whole requests -----------------------------------------------------------------------------------

  /** A request whose headers frame its body by length, or a GET without one. */
  ghost predicate Sendable(s: Spec, maxBody: nat) {
    && Headed(s)
    && var f := AddAll(NO_HEADERS, s.headers).value;
       && (s.verb.Get? ==> s.body == [])
       && (s.verb.Post? ==> !f.chunked && f.contentLength == Some(|s.body|) && |s.body| <= maxBody)
  }

  predicate AllHosted(ss: seq<Spec>) {
    forall i | 0 <= i < |ss| :: Hosted(ss[i])
  }

  lemma SendableHost(s: Spec, maxBody: nat)
    requires Sendable(s, maxBody)
    ensures Hosted(s)
  {
    hide AddAll;
  }

  /** The request a printed one is parsed as. */
  function RequestFor(s: Spec): Request
    requires Hosted(s)
  {
    RequestOf(Head(s.verb, s.path, AddAll(NO_HEADERS, s.headers).value), s.body, |Print(s)|)
  }

  /** A printed request is parsed back, header for header, and takes exactly its own bytes whatever follows. */
  lemma RequestRoundTrip(s: Spec, rest: seq<byte>, maxBody: nat)
    requires Sendable(s, maxBody)
    ensures Hosted(s)
    ensures ParseRequest(Print(s) + rest, maxBody) == Ok(RequestFor(s))
    ensures !ChunkedPost(Print(s) + rest)
  {
    hide HeadOf, Terminator, AddAll, HeadText, Encode, IsKnownPath, CheckFraming;
    HeadFound(s, s.body + rest);
    assert Print(s) + rest == Encode(HeadText(s)) + (s.body + rest);
    assert (s.body + rest)[..|s.body|] == s.body;
  }

  // ---- keep-alive sequences -----------------------------------------------------------------------------

  function PrintAll(ss: seq<Spec>): seq<byte> {
    if ss == [] then [] else Print(ss[0]) + PrintAll(ss[1..])
  }

  ghost predicate AllSendable(ss: seq<Spec>, c: Config) {
    forall i | 0 <= i < |ss| :: Sendable(ss[i], c.maxBody) && |Print(ss[i])| + READ_SIZE <= Limit(c) + 1
  }

  /** Serving a sequence of requests one by one. */
  function ServeEach(c: Config, ss: seq<Spec>, log: seq<Request>): Trace
    requires AllHosted(ss)
    decreases |ss|
  {
    if |log| >= c.maxRequests then Trace(log, CapReached)
    else if ss == [] then Trace(log, PeerClosed)
    else
      var req := RequestFor(ss[0]);
      match c.handle(|log|, req)
      case Broken => Trace(log + [req], WriteFailed)
      case Served(true) => Trace(log + [req], Closed)
      case Served(false) => ServeEach(c, ss[1..], log + [req])
  }

  lemma AllHaveHosts(ss: seq<Spec>, c: Config)
    requires AllSendable(ss, c)
    ensures AllHosted(ss)
  {
    hide Hosted, Sendable;
    forall i | 0 <= i < |ss|
      ensures Hosted(ss[i])
    {
      SendableHost(ss[i], c.maxBody);
    }
  }

  lemma {:induction false} PrintedIsSteady(c: Config, ss: seq<Spec>, log: seq<Request>)
    requires AllSendable(ss, c)
    ensures Steady(c, PrintAll(ss), log)
    ensures AllHosted(ss)
    ensures Whole(c, PrintAll(ss), log) == ServeEach(c, ss, log)
    decreases |ss|
  {
    AllHaveHosts(ss, c);
    hide ParseRequest, ChunkedPost, Needed, PrintAll, AllSendable, Hosted, RequestFor;
    if |log| < c.maxRequests {
      if ss == [] {
        NothingSent(c);
      } else {
        TailSendable(ss, c);
        FirstPrinted(c, ss);
        PrintedIsSteady(c, ss[1..], log + [RequestFor(ss[0])]);
      }
    }
  }

  /** The first of several printed requests is parsed first, with exactly its own bytes. */
  lemma FirstPrinted(c: Config, ss: seq<Spec>)
    requires ss != [] && AllSendable(ss, c)
    requires Hosted(ss[0])
    ensures var bytes := PrintAll(ss);
            && ParseRequest(bytes, c.maxBody) == Ok(RequestFor(ss[0]))
            && RequestFor(ss[0]).consumed <= |bytes|
            && bytes[RequestFor(ss[0]).consumed..] == PrintAll(ss[1..])
            && !ChunkedPost(bytes) && Needed(bytes, c.maxBody) + READ_SIZE <= Limit(c) + 1
  {
    hide ParseRequest, ChunkedPost, Needed, Print, Sendable, Hosted;
    var bytes := PrintAll(ss);
    RequestRoundTrip(ss[0], PrintAll(ss[1..]), c.maxBody);
    PrefixDecides(bytes, |bytes|, c.maxBody);
    assert bytes[..|bytes|] == bytes;
    Settled(bytes, c.maxBody);
    assert bytes[|Print(ss[0])|..] == PrintAll(ss[1..]);
  }

  lemma TailSendable(ss: seq<Spec>, c: Config)
    requires ss != [] && AllSendable(ss, c)
    ensures AllSendable(ss[1..], c)
  {
    hide Sendable, Print;
  }

  lemma NothingSent(c: Config)
    ensures PrintAll([]) == [] && ParseRequest([], c.maxBody) == Err(NoHeaderTerminator) && !ChunkedPost([])
  {
  }

  /**
   For every sequence of well-formed keep-alive requests that each leave room for one
   read, and every split of their bytes across reads, the loop parses exactly that
   sequence, up to the request cap or the first close.
   */
  lemma KeepAlive(c: Config, ss: seq<Spec>, pieces: seq<seq<byte>>)
    requires AllSendable(ss, c) && Readable(pieces) && Join(pieces) == PrintAll(ss)
    ensures AllHosted(ss)
    ensures Serve(c, [], pieces, []) == ServeEach(c, ss, [])
  {
    hide Hosted, Sendable, Steady, Whole, Serve;
    PrintedIsSteady(c, ss, []);
    assert [] + Join(pieces) == Join(pieces);
    NeedsSome(Join(pieces), c.maxBody);
    SplitDoesNotMatter(c, [], pieces, []);
  }

  // ---- ordinary requests are sendable ---------------------------------------------------------------------

  predicate IsFramingName(n: string) {
    || EqIgnoreCase(n, "host") || EqIgnoreCase(n, "content-length")
    || EqIgnoreCase(n, "transfer-encoding") || EqIgnoreCase(n, "expect")
  }

  /** Host, other headers, and for a POST the length of the body. */
  function Ordinary(verb: Method, path: string, host: string, others: seq<Header>, body: seq<byte>): Spec {
    Spec(verb, path, WithHost(host, others, if verb.Post? then [LengthHeader(body)] else []), body)
  }

  function LengthHeader(body: seq<byte>): Header {
    ("Content-Length", Decimal.Dec(|body|))
  }

  predicate Others(hs: seq<Header>) {
    PlainHeaders(hs) && forall i | 0 <= i < |hs| :: !IsFramingName(hs[i].0)
  }

  /** Other headers are only listed; one of them may set the media type. */
  lemma {:induction false} AddOthers(f: Framing, hs: seq<Header>, more: seq<Header>)
    requires Others(hs)
    ensures exists t :: AddAll(f, hs + more) == AddAll(f.(headers := f.headers + hs, contentType := t), more)
    decreases |hs|
  {
    hide Trim, Before, ParseU64, EqIgnoreCase, PlainHeaders;
    if hs == [] {
      assert hs + more == more && f.(headers := f.headers + hs, contentType := f.contentType) == f by {
        assert f.headers + [] == f.headers;
      }
    } else {
      var h := hs[0];
      var g := AddHeader(f, h).value;
      assert (hs + more)[1..] == hs[1..] + more && (hs + more)[0] == h;
      assert !IsFramingName(h.0);
      assert Others(hs[1..]) by { TailOthers(hs); }
      AddOthers(g, hs[1..], more);
      var t :| AddAll(g, hs[1..] + more) == AddAll(g.(headers := g.headers + hs[1..], contentType := t), more);
      assert g.headers + hs[1..] == f.headers + hs;
    }
  }

  lemma TailOthers(hs: seq<Header>)
    requires Others(hs) && hs != []
    ensures Others(hs[1..])
  {
  }

  lemma AddHost(host: string)
    requires host == [] || host[0] != '['
    ensures AddHeader(NO_HEADERS, ("Host", host)) == Ok(NO_HEADERS.(host := Some(host), headers := [("Host", host)]))
  {
    assert EqIgnoreCase("Host", "host");
    assert NO_HEADERS.headers + [("Host", host)] == [("Host", host)];
  }

  lemma AddLength(f: Framing, n: nat)
    requires f.contentLength.None? && n < TWO64
    ensures AddHeader(f, ("Content-Length", Decimal.Dec(n)))
         == Ok(f.(contentLength := Some(n), headers := f.headers + [("Content-Length", Decimal.Dec(n))]))
  {
    hide ParseU64;
    ParsesDec(n);
    assert EqIgnoreCase("Content-Length", "content-length");
  }

  /** A host and other headers before the ones in `more`. */
  function WithHost(host: string, others: seq<Header>, more: seq<Header>): seq<Header> {
    [("Host", host)] + others + more
  }

  /** What a host and other headers add up to. */
  lemma HostAndOthers(host: string, others: seq<Header>, more: seq<Header>) returns (t: Option<string>)
    requires (host == [] || host[0] != '[') && Others(others)
    ensures AddAll(NO_HEADERS, WithHost(host, others, more))
         == AddAll(Framing(Some(host), t, None, false, WithHost(host, others, [])), more)
  {
    hide AddHeader, Others;
    var h, hs := ("Host", host), WithHost(host, others, more);
    AddHost(host);
    var f := NO_HEADERS.(host := Some(host), headers := [h]);
    assert hs[0] == h && hs[1..] == others + more;
    AddOthers(f, others, more);
    t :| AddAll(f, others + more) == AddAll(f.(headers := f.headers + others, contentType := t), more);
    assert f.headers + others == WithHost(host, others, []);
  }

  /** One more header behind them. */
  lemma OneMore(host: string, others: seq<Header>, last: Header) returns (t: Option<string>)
    requires (host == [] || host[0] != '[') && Others(others)
    ensures AddAll(NO_HEADERS, WithHost(host, others, [last]))
         == AddHeader(Framing(Some(host), t, None, false, WithHost(host, others, [])), last)
  {
    hide AddHeader, Others;
    t := HostAndOthers(host, others, [last]);
    assert [last][1..] == [];
  }

  /** What the headers of an ordinary request add up to. */
  lemma OrdinaryFraming(verb: Method, path: string, host: string, others: seq<Header>, body: seq<byte>)
    returns (t: Option<string>)
    requires (host == [] || host[0] != '[') && Others(others) && |body| < TWO64
    ensures AddAll(NO_HEADERS, Ordinary(verb, path, host, others, body).headers)
         == Ok(Framing(Some(host), t, if verb.Post? then Some(|body|) else None, false,
                       Ordinary(verb, path, host, others, body).headers))
  {
    hide AddHeader, Others, AddAll;
    if verb.Post? {
      t := OneMore(host, others, LengthHeader(body));
      AddLength(Framing(Some(host), t, None, false, WithHost(host, others, [])), |body|);
      assert WithHost(host, others, []) + [LengthHeader(body)] == WithHost(host, others, [LengthHeader(body)]);
    } else {
      t := HostAndOthers(host, others, []);
      NoMore(Framing(Some(host), t, None, false, WithHost(host, others, [])));
    }
  }

  lemma NoMore(f: Framing)
    ensures AddAll(f, []) == Ok(f)
  {
  }

  lemma LengthHeaderIsPlain(body: seq<byte>)
    ensures PlainHeader(LengthHeader(body))
  {
    var d := Decimal.Dec(|body|);
    assert Decimal.IsDigit(d[0]) && Decimal.IsDigit(d[|d| - 1]);
    assert OneLine(d);
  }

  /** Apart from `more`, no header expects anything, and all are plain. */
  lemma ListIsPlain(host: string, others: seq<Header>, more: seq<Header>)
    requires OneLine(host) && IsTrim(host) && Others(others) && PlainHeaders(more)
    requires forall i | 0 <= i < |more| :: !EqIgnoreCase(more[i].0, "expect")
    ensures var hs := WithHost(host, others, more);
            PlainHeaders(hs) && forall i | 0 <= i < |hs| :: !Expects(hs[i])
  {
    var hs := WithHost(host, others, more);
    assert !EqIgnoreCase("Host", "expect") && PlainHeader(("Host", host));
    hide EqIgnoreCase, PlainHeader;
    forall i | 0 <= i < |hs|
      ensures PlainHeader(hs[i]) && !Expects(hs[i])
    {
      if 1 <= i <= |others| { assert hs[i] == others[i - 1]; }
      if i > |others| { assert hs[i] == more[i - 1 - |others|]; }
    }
  }

  /** Every GET without a body and every POST with its length, with whatever other headers, is such a request. */
  lemma OrdinaryIsSendable(
      verb: Method, path: string, host: string, others: seq<Header>, body: seq<byte>, maxBody: nat)
    requires IsKnownPath(path) && OneLine(host) && IsTrim(host) && (host == [] || host[0] != '[')
    requires Others(others) && |body| < TWO64 && |body| <= maxBody && (verb.Get? ==> body == [])
    requires |Encode(HeadText(Ordinary(verb, path, host, others, body)))| <= MAX_HEADER_BYTES
    ensures Sendable(Ordinary(verb, path, host, others, body), maxBody)
  {
    LengthHeaderIsPlain(body);
    assert !EqIgnoreCase("Content-Length", "expect");
    ListIsPlain(host, others, if verb.Post? then [LengthHeader(body)] else []);
    hide AddAll, Encode, PlainHeaders, Others, IsKnownPath, Expects;
    var t := OrdinaryFraming(verb, path, host, others, body);
  }

  // ---- a GET that declares a body -----------------------------------------------------------------------

  /** A GET whose headers give the length of a body, and the body. */
  function GetWithBody(path: string, host: string, others: seq<Header>, body: seq<byte>): Spec {
    Spec(Get, path, WithHost(host, others, [LengthHeader(body)]), body)
  }

  /** It is accepted without its body, which stays in the stream for the next request to start with. */
  lemma GetLeavesBody(path: string, host: string, others: seq<Header>, body: seq<byte>, rest: seq<byte>, maxBody: nat)
    requires IsKnownPath(path) && OneLine(host) && IsTrim(host) && (host == [] || host[0] != '[')
    requires Others(others) && 0 < |body| < TWO64
    requires |Encode(HeadText(GetWithBody(path, host, others, body)))| <= MAX_HEADER_BYTES
    ensures var buf := Print(GetWithBody(path, host, others, body)) + rest;
            && ParseRequest(buf, maxBody).Ok?
            && var r := ParseRequest(buf, maxBody).value;
               && r.contentLength == Some(|body|) && r.body == [] && buf[r.consumed..] == body + rest
               && Terminator(buf, 0).Some? && !TakesDeclaredBody(buf, r, maxBody)
  {
    LengthHeaderIsPlain(body);
    assert !EqIgnoreCase("Content-Length", "expect");
    ListIsPlain(host, others, [LengthHeader(body)]);
    var s := GetWithBody(path, host, others, body);
    var t := OneMore(host, others, LengthHeader(body));
    AddLength(Framing(Some(host), t, None, false, WithHost(host, others, [])), |body|);
    hide AddAll, AddHeader, Encode, HeadText, PlainHeaders, Others, IsKnownPath, Expects, HeadOf, Terminator;
    assert WithHost(host, others, []) + [LengthHeader(body)] == s.headers;
    HeadFound(s, body + rest);
    assert Print(s) + rest == Encode(HeadText(s)) + (body + rest);
  }
}
