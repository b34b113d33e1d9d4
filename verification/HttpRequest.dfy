/**
 One HTTP/1.1 request: request line, headers and body framing (RFC 9112), as far
 as the bytes received allow.
 */
module HttpRequest {
  import opened Bytes
  import opened Utf8
  import opened HttpText

  const MAX_HEADER_BYTES: nat := 0x1_0000

  datatype Method = Get | Post

  datatype ParseError =
    | BadRequestLine
    | MethodNotAllowed
    | NotFound
    | MissingHost
    | Ipv6LiteralHost
    | LengthRequired
    | BadHeaderValue(what: string, text: string)
    | NoHeaderTerminator
    | HeaderTooLarge
    | ShortBody
    | BodyTooLarge
    | ConflictingFraming
    | DuplicateHost
    | DuplicateContentLength
    | BadChunk(detail: string)
    | UnsupportedTransferEncoding(token: string)
    | ExpectationFailed

  // ---- the header block ------------------------------------------------------------------------

  /** A blank line starts at this place. */
  predicate TermAt(buf: seq<byte>, k: nat) {
    k + 4 <= |buf| && buf[k] == 13 && buf[k + 1] == 10 && buf[k + 2] == 13 && buf[k + 3] == 10
  }

  /** The place just past the first blank line. */
  function Terminator(buf: seq<byte>, i: nat): (r: Option<nat>)
    ensures r.Some? ==> i + 4 <= r.value <= |buf| && TermAt(buf, r.value - 4)
    ensures r.Some? ==> forall k | i <= k < r.value - 4 :: !TermAt(buf, k)
    ensures r.None? ==> forall k | i <= k :: !TermAt(buf, k)
    decreases if i <= |buf| then |buf| - i + 1 else 0
  {
    if i + 4 > |buf| then None
    else if TermAt(buf, i) then Some(i + 4)
    else Terminator(buf, i + 1)
  }

  predicate IsKnownPath(p: string) {
    p == "/v1/sql" || p == "/v1/op" || p == "/v1/health" || p == "/v1/metrics" || p == "/v1/ws"
  }

  function RequestLine(line: string): Result<(Method, string), ParseError> {
    match Find(line, ' ')
    case None => Err(BadRequestLine)
    case Some(i) =>
      match Find(line[i + 1..], ' ')
      case None => Err(BadRequestLine)
      case Some(j) =>
        var m, p, v := line[..i], line[i + 1..][..j], line[i + 1..][j + 1..];
        if v != "HTTP/1.1" then Err(BadRequestLine)
        else if m == "GET" then Ok((Get, p))
        else if m == "POST" then Ok((Post, p))
        else Err(MethodNotAllowed)
  }

  type Header = (string, string)

  /** What the headers say so far. */
  datatype Framing = Framing(
    host: Option<string>,
    contentType: Option<string>,
    contentLength: Option<nat>,
    chunked: bool,
    headers: seq<Header>)

  const NO_HEADERS: Framing := Framing(None, None, None, false, [])

  function SplitHeader(line: string): Result<Header, ParseError> {
    match Find(line, ':')
    case None => Err(BadHeaderValue("missing colon", line))
    case Some(k) => Ok((Trim(line[..k]), Trim(line[k + 1..])))
  }

  function AddHeader(f: Framing, h: Header): Result<Framing, ParseError> {
    var (name, value) := h;
    var g := f.(headers := f.headers + [h]);
    if EqIgnoreCase(name, "host") then
      if f.host.Some? then Err(DuplicateHost)
      else if value != [] && value[0] == '[' then Err(Ipv6LiteralHost)
      else Ok(g.(host := Some(value)))
    else if EqIgnoreCase(name, "content-type") then
      Ok(g.(contentType := Some(Trim(Before(value, ';')))))
    else if EqIgnoreCase(name, "content-length") then
      match ParseU64(value)
      case None => Err(BadHeaderValue("Content-Length", value))
      case Some(n) =>
        if f.contentLength.Some? && f.contentLength.value != n then Err(DuplicateContentLength)
        else Ok(g.(contentLength := Some(n)))
    else if EqIgnoreCase(name, "transfer-encoding") then
      if EqIgnoreCase(value, "chunked") then Ok(g.(chunked := true))
      else Err(UnsupportedTransferEncoding(value))
    else Ok(g)
  }

  function AddLines(f: Framing, lines: seq<string>): Result<Framing, ParseError>
    decreases |lines|
  {
    if lines == [] then Ok(f)
    else if lines[0] == [] then AddLines(f, lines[1..])
    else
      var h :- SplitHeader(lines[0]);
      var f :- AddHeader(f, h);
      AddLines(f, lines[1..])
  }

  predicate Expects(h: Header) {
    EqIgnoreCase(h.0, "expect") && EqIgnoreCase(h.1, "100-continue")
  }

  predicate HasBody(f: Framing) {
    (f.contentLength.Some? && f.contentLength.value > 0) || f.chunked
  }

  /** What the whole header block decides. */
  datatype Head = Head(verb: Method, path: string, framing: Framing)

  function CheckFraming(f: Framing): Option<ParseError> {
    if f.host.None? then Some(MissingHost)
    else if f.chunked && f.contentLength.Some? then Some(ConflictingFraming)
    else if HasBody(f) && exists i :: 0 <= i < |f.headers| && Expects(f.headers[i]) then Some(ExpectationFailed)
    else None
  }

  function HeadOf(block: seq<byte>): Result<Head, ParseError> {
    match FromUtf8(block)
    case None => Err(BadRequestLine)
    case Some(text) =>
      var lines := Lines(text);
      var (verb, path) :- RequestLine(lines[0]);
      if !IsKnownPath(path) then Err(NotFound)
      else
        var f :- AddLines(NO_HEADERS, lines[1..]);
        match CheckFraming(f)
        case Some(e) => Err(e)
        case None => Ok(Head(verb, path, f))
  }

  method ReadHeaders(lines: seq<string>) returns (r: Result<Framing, ParseError>)
    ensures r == AddLines(NO_HEADERS, lines)
  {
    hide SplitHeader, AddHeader;
    var f := NO_HEADERS;
    assert lines[0..] == lines;
    for i := 0 to |lines|
      invariant AddLines(f, lines[i..]) == AddLines(NO_HEADERS, lines)
    {
      assert lines[i..][1..] == lines[i + 1..];
      if lines[i] != [] {
        var h := SplitHeader(lines[i]);
        if h.Err? { return Err(h.error); }
        var g := AddHeader(f, h.value);
        if g.Err? { return Err(g.error); }
        f := g.value;
      }
    }
    r := Ok(f);
  }

  method ExpectsContinue(hs: seq<Header>) returns (r: bool)
    ensures r == exists i :: 0 <= i < |hs| && Expects(hs[i])
  {
    for i := 0 to |hs|
      invariant forall k | 0 <= k < i :: !Expects(hs[k])
    {
      if Expects(hs[i]) { return true; }
    }
    r := false;
  }

  // ---- chunked bodies -----------------------------------------------------------------------------

  /** The first CR LF at or after a place. */
  function CrLfFrom(b: seq<byte>, i: nat): (r: Option<nat>)
    ensures r.Some? ==> i <= r.value && r.value + 2 <= |b| && b[r.value] == 13 && b[r.value + 1] == 10
    ensures r.Some? ==> forall k | i <= k < r.value :: !(b[k] == 13 && b[k + 1] == 10)
    decreases if i <= |b| then |b| - i + 1 else 0
  {
    if i + 2 > |b| then None
    else if b[i] == 13 && b[i + 1] == 10 then Some(i)
    else CrLfFrom(b, i + 1)
  }

  function ChunkSize(line: seq<byte>): Result<nat, ParseError> {
    match FromUtf8(line)
    case None => Err(BadChunk("chunk-size not ASCII"))
    case Some(text) =>
      match ParseHex(Trim(Before(text, ';')))
      case None => Err(BadChunk("bad chunk size"))
      case Some(n) => Ok(n)
  }

  datatype Chunk = LastChunk(end: nat) | Chunk(data: seq<byte>, end: nat)

  /** One chunk, or the end of the stream with its blank line if it is there. */
  function ChunkAt(b: seq<byte>, i: nat): (r: Result<Chunk, ParseError>)
    requires i <= |b|
    ensures r.Ok? ==> i < r.value.end <= |b|
  {
    match CrLfFrom(b, i)
    case None => Err(BadChunk("missing chunk-size CRLF"))
    case Some(nl) =>
      var size :- ChunkSize(b[i..nl]);
      var p := nl + 2;
      if size == 0 then Ok(LastChunk(if p + 2 <= |b| && b[p] == 13 && b[p + 1] == 10 then p + 2 else p))
      else if size + 2 >= TWO64 then Err(BodyTooLarge)
      else if |b| - p < size + 2 then Err(BadChunk("short chunk-data or missing trailing CRLF"))
      else Ok(Chunk(b[p..p + size], p + size + 2))
  }

  /** The decoded body and the place after the chunk stream. */
  function DechunkFrom(b: seq<byte>, i: nat, out: seq<byte>, maxBody: nat): (r: Result<(seq<byte>, nat), ParseError>)
    requires i <= |b|
    ensures r.Ok? ==> i < r.value.1 <= |b|
    decreases |b| - i
  {
    var c :- ChunkAt(b, i);
    match c
    case LastChunk(end) => Ok((out, end))
    case Chunk(data, end) =>
      if |out| + |data| > maxBody then Err(BodyTooLarge)
      else DechunkFrom(b, end, out + data, maxBody)
  }

  method ReadChunk(b: seq<byte>, i: nat) returns (r: Result<Chunk, ParseError>)
    requires i <= |b|
    ensures r == ChunkAt(b, i)
  {
    hide ChunkSize;
    var nl := CrLfFrom(b, i);
    if nl.None? { return Err(BadChunk("missing chunk-size CRLF")); }
    var size := ChunkSize(b[i..nl.value]);
    if size.Err? { return Err(size.error); }
    var p, n := nl.value + 2, size.value;
    if n == 0 {
      if p + 2 <= |b| && b[p] == 13 && b[p + 1] == 10 { p := p + 2; }
      return Ok(LastChunk(p));
    }
    if n + 2 >= TWO64 { return Err(BodyTooLarge); }
    if |b| - p < n + 2 { return Err(BadChunk("short chunk-data or missing trailing CRLF")); }
    r := Ok(Chunk(b[p..p + n], p + n + 2));
  }

  method Dechunk(b: seq<byte>, maxBody: nat) returns (r: Result<(seq<byte>, nat), ParseError>)
    ensures r == DechunkFrom(b, 0, [], maxBody)
  {
    hide ChunkAt;
    var i: nat, out: seq<byte> := 0, [];
    while true
      invariant i <= |b| && DechunkFrom(b, i, out, maxBody) == DechunkFrom(b, 0, [], maxBody)
      decreases |b| - i
    {
      var c := ReadChunk(b, i);
      if c.Err? { return Err(c.error); }
      if c.value.LastChunk? { return Ok((out, c.value.end)); }
      if |out| + |c.value.data| > maxBody { return Err(BodyTooLarge); }
      out := out + c.value.data;
      i := c.value.end;
    }
  }

  // ---- requests -----------------------------------------------------------------------------------------

  datatype Request = Request(
    verb: Method,
    path: string,
    host: string,
    contentType: Option<string>,
    contentLength: Option<nat>,
    chunked: bool,
    body: seq<byte>,
    consumed: nat,
    headers: seq<Header>)

  function DecodeBody(rest: seq<byte>, contentLength: Option<nat>, chunked: bool, maxBody: nat)
    : (r: Result<(seq<byte>, nat), ParseError>)
    ensures r.Ok? ==> r.value.1 <= |rest|
  {
    if contentLength.Some? then
      var n := contentLength.value;
      if chunked then Err(ConflictingFraming)
      else if n > maxBody then Err(BodyTooLarge)
      else if |rest| < n then Err(ShortBody)
      else Ok((rest[..n], n))
    else if chunked then DechunkFrom(rest, 0, [], maxBody)
    else Err(LengthRequired)
  }

  function RequestOf(h: Head, body: seq<byte>, consumed: nat): Request
    requires h.framing.host.Some?
  {
    var f := h.framing;
    Request(h.verb, h.path, f.host.value, f.contentType, f.contentLength, f.chunked, body, consumed, f.headers)
  }

  function WithBody(h: Head, rest: seq<byte>, end: nat, maxBody: nat): (r: Result<Request, ParseError>)
    requires h.framing.host.Some?
    ensures r.Ok? ==> end <= r.value.consumed <= end + |rest|
  {
    match h.verb
    case Get => Ok(RequestOf(h, [], end))
    case Post =>
      var (body, n) :- DecodeBody(rest, h.framing.contentLength, h.framing.chunked, maxBody);
      Ok(RequestOf(h, body, end + n))
  }

  lemma HeadHasHost(block: seq<byte>)
    requires HeadOf(block).Ok?
    ensures HeadOf(block).value.framing.host.Some?
  {
  }

  lemma HeadFramedOnce(block: seq<byte>)
    requires HeadOf(block).Ok?
    ensures !(HeadOf(block).value.framing.chunked && HeadOf(block).value.framing.contentLength.Some?)
  {
  }

  function ParseRequest(buf: seq<byte>, maxBody: nat): (r: Result<Request, ParseError>)
    ensures r.Ok? ==> 0 < r.value.consumed <= |buf|
  {
    match Terminator(buf, 0)
    case None => Err(NoHeaderTerminator)
    case Some(end) =>
      if end > MAX_HEADER_BYTES then Err(HeaderTooLarge)
      else
        var h :- HeadOf(buf[..end]);
        HeadHasHost(buf[..end]);
        WithBody(h, buf[end..], end, maxBody)
  }

  method Parse(buf: seq<byte>, maxBody: nat) returns (r: Result<Request, ParseError>)
    ensures r == ParseRequest(buf, maxBody)
  {
    hide AddLines, RequestLine, Lines, FromUtf8;
    var end := Terminator(buf, 0);
    if end.None? { return Err(NoHeaderTerminator); }
    if end.value > MAX_HEADER_BYTES { return Err(HeaderTooLarge); }
    var text := FromUtf8(buf[..end.value]);
    if text.None? { return Err(BadRequestLine); }
    var lines := Lines(text.value);
    var line := RequestLine(lines[0]);
    if line.Err? { return Err(line.error); }
    if !IsKnownPath(line.value.1) { return Err(NotFound); }
    var f := ReadHeaders(lines[1..]);
    if f.Err? { return Err(f.error); }
    if f.value.host.None? { return Err(MissingHost); }
    if f.value.chunked && f.value.contentLength.Some? { return Err(ConflictingFraming); }
    if HasBody(f.value) {
      var expects := ExpectsContinue(f.value.headers);
      if expects { return Err(ExpectationFailed); }
    }
    var h := Head(line.value.0, line.value.1, f.value);
    r := WithBody(h, buf[end.value..], end.value, maxBody);
  }

  // ---- what an accepted request guarantees ------------------------------------------------------------

  function CountHosts(hs: seq<Header>): nat {
    if hs == [] then 0 else CountHosts(hs[..|hs| - 1]) + (if EqIgnoreCase(hs[|hs| - 1].0, "host") then 1 else 0)
  }

  /** The recorded host is the only one in the list. */
  ghost predicate HostAgrees(f: Framing) {
    && CountHosts(f.headers) == (if f.host.Some? then 1 else 0)
    && forall h | h in f.headers && EqIgnoreCase(h.0, "host") :: f.host == Some(h.1)
  }

  /** The recorded length is what every length header in the list says. */
  ghost predicate LengthAgrees(f: Framing) {
    && (forall h | h in f.headers && EqIgnoreCase(h.0, "content-length") ::
          f.contentLength.Some? && ParseU64(h.1) == f.contentLength)
    && (f.contentLength.Some? ==> exists h :: h in f.headers && EqIgnoreCase(h.0, "content-length"))
  }

  /** The body is chunked exactly when the list says so, and says nothing else. */
  ghost predicate EncodingAgrees(f: Framing) {
    && (forall h | h in f.headers && EqIgnoreCase(h.0, "transfer-encoding") ::
          f.chunked && EqIgnoreCase(h.1, "chunked"))
    && (f.chunked ==> exists h :: h in f.headers && EqIgnoreCase(h.0, "transfer-encoding"))
  }

  lemma AddKeepsHost(f: Framing, h: Header)
    requires HostAgrees(f) && AddHeader(f, h).Ok?
    ensures HostAgrees(AddHeader(f, h).value)
  {
    hide ParseU64, Trim, Before, EqIgnoreCase;
    var g := AddHeader(f, h).value;
    CountMore(f.headers, h);
    if f.host.None? { NoHosts(f.headers); }
    hide CountHosts;
  }

  lemma CountMore(hs: seq<Header>, h: Header)
    ensures CountHosts(hs + [h]) == CountHosts(hs) + if EqIgnoreCase(h.0, "host") then 1 else 0
  {
    hide EqIgnoreCase;
    assert (hs + [h])[..|hs|] == hs;
  }

  lemma {:induction false} NoHosts(hs: seq<Header>)
    requires CountHosts(hs) == 0
    ensures forall h | h in hs :: !EqIgnoreCase(h.0, "host")
  {
    hide EqIgnoreCase;
    if hs != [] {
      NoHosts(hs[..|hs| - 1]);
      assert hs == hs[..|hs| - 1] + [hs[|hs| - 1]];
    }
  }

  lemma AddKeepsLength(f: Framing, h: Header)
    requires LengthAgrees(f) && AddHeader(f, h).Ok?
    ensures LengthAgrees(AddHeader(f, h).value)
  {
    hide ParseU64, Trim, Before;
    var g := AddHeader(f, h).value;
    assert g.headers == f.headers + [h];
    if f.contentLength.Some? {
      var k :| k in f.headers && EqIgnoreCase(k.0, "content-length");
      assert k in g.headers;
    }
    assert h in g.headers;
  }

  lemma AddKeepsEncoding(f: Framing, h: Header)
    requires EncodingAgrees(f) && AddHeader(f, h).Ok?
    ensures EncodingAgrees(AddHeader(f, h).value)
  {
    hide ParseU64, Trim, Before;
    var g := AddHeader(f, h).value;
    assert g.headers == f.headers + [h];
    if f.chunked {
      var k :| k in f.headers && EqIgnoreCase(k.0, "transfer-encoding");
      assert k in g.headers;
    }
    assert h in g.headers;
  }

  lemma {:induction false} LinesAgree(f: Framing, lines: seq<string>)
    requires HostAgrees(f) && LengthAgrees(f) && EncodingAgrees(f) && AddLines(f, lines).Ok?
    ensures var g := AddLines(f, lines).value; HostAgrees(g) && LengthAgrees(g) && EncodingAgrees(g)
    decreases |lines|
  {
    hide HostAgrees, LengthAgrees, EncodingAgrees, AddHeader, SplitHeader;
    if lines != [] {
      if lines[0] == [] {
        LinesAgree(f, lines[1..]);
      } else {
        var h := SplitHeader(lines[0]).value;
        AddKeepsHost(f, h);
        AddKeepsLength(f, h);
        AddKeepsEncoding(f, h);
        LinesAgree(AddHeader(f, h).value, lines[1..]);
      }
    }
  }

  /** The framing an accepted request came with. */
  function FramingOf(r: Request): Framing {
    Framing(Some(r.host), r.contentType, r.contentLength, r.chunked, r.headers)
  }

  /**
   An accepted request has exactly one Host header, its Content-Length headers
   all agree, and it is never framed both by length and by chunks.
   */
  lemma AcceptedIsUnambiguous(buf: seq<byte>, maxBody: nat)
    requires ParseRequest(buf, maxBody).Ok?
    ensures var r := ParseRequest(buf, maxBody).value;
            && CountHosts(r.headers) == 1
            && HostAgrees(FramingOf(r)) && LengthAgrees(FramingOf(r)) && EncodingAgrees(FramingOf(r))
            && !(r.chunked && r.contentLength.Some?)
  {
    var end := Terminator(buf, 0).value;
    HeadAgrees(buf[..end]);
    hide HeadOf, HostAgrees, LengthAgrees, EncodingAgrees, DecodeBody;
    var f := HeadOf(buf[..end]).value.framing;
    assert FramingOf(ParseRequest(buf, maxBody).value) == f;
    OneHost(f);
  }

  /** The bytes taken are the header block and the body the headers declare. */
  ghost predicate TakesDeclaredBody(buf: seq<byte>, r: Request, maxBody: nat)
    requires Terminator(buf, 0).Some?
  {
    var end := Terminator(buf, 0).value;
    if r.contentLength.Some? then r.consumed == end + r.contentLength.value
    else if r.chunked then
      var d := DechunkFrom(buf[end..], 0, [], maxBody);
      d.Ok? && r.consumed == end + d.value.1
    else r.consumed == end
  }

  /**
   An accepted request takes the body it declares if and only if it is a POST or
   declares none: whatever a GET declares is left in the stream.
   */
  lemma BodyTaken(buf: seq<byte>, maxBody: nat)
    requires ParseRequest(buf, maxBody).Ok?
    ensures Terminator(buf, 0).Some?
    ensures var r := ParseRequest(buf, maxBody).value;
            TakesDeclaredBody(buf, r, maxBody) <==> r.verb.Post? || !HasBody(FramingOf(r))
    ensures var r := ParseRequest(buf, maxBody).value;
            r.verb.Get? ==> r.body == [] && r.consumed == Terminator(buf, 0).value
  {
    hide HeadOf, Terminator, DechunkFrom;
    var end := Terminator(buf, 0).value;
    HeadFramedOnce(buf[..end]);
  }

  lemma OneHost(f: Framing)
    requires HostAgrees(f) && f.host.Some?
    ensures CountHosts(f.headers) == 1
  {
  }

  lemma HeadAgrees(block: seq<byte>)
    requires HeadOf(block).Ok?
    ensures var f := HeadOf(block).value.framing;
            && f.host.Some? && HostAgrees(f) && LengthAgrees(f) && EncodingAgrees(f)
            && !(f.chunked && f.contentLength.Some?)
  {
    hide AddLines, RequestLine, Lines, FromUtf8, HasBody;
    LinesAgree(NO_HEADERS, Lines(FromUtf8(block).value)[1..]);
  }
}
