/**
 The keep-alive connection loop: parse what is buffered, serve, drain, read more,
 and exactly when what it serves does not depend on how the bytes arrive.
 */
module HttpLoop {
  import opened Bytes
  import opened Utf8
  import opened HttpText
  import opened HttpRequest

  const READ_SIZE: nat := 8192

  // ---- how much of a stream decides its first request ----------------------------------------------

  /** More bytes may still complete the request. */
  predicate Retry(e: ParseError) {
    e == NoHeaderTerminator || e == ShortBody
  }

  /** The bytes needed before the outcome of parsing is settled. */
  function Needed(bytes: seq<byte>, maxBody: nat): nat {
    match Terminator(bytes, 0)
    case None => |bytes| + 1
    case Some(end) =>
      if end > MAX_HEADER_BYTES then end
      else
        match HeadOf(bytes[..end])
        case Err(_) => end
        case Ok(h) =>
          var n := h.framing.contentLength;
          if h.verb.Post? && n.Some? && !h.framing.chunked && n.value <= maxBody then end + n.value else end
  }

  /** The stream starts with the header block of a chunked POST. */
  predicate ChunkedPost(bytes: seq<byte>) {
    match Terminator(bytes, 0)
    case None => false
    case Some(end) =>
      && end <= MAX_HEADER_BYTES
      && var h := HeadOf(bytes[..end]);
         h.Ok? && h.value.verb.Post? && h.value.framing.chunked
  }

  lemma TermPrefix(bytes: seq<byte>, k: nat)
    requires k <= |bytes|
    ensures var t := Terminator(bytes, 0);
            Terminator(bytes[..k], 0) == if t.Some? && t.value <= k then t else None
  {
    var s := bytes[..k];
    var t, u := Terminator(bytes, 0), Terminator(s, 0);
    if u.Some? {
      assert TermAt(bytes, u.value - 4);
      if t.value < u.value { assert TermAt(s, t.value - 4); }
    } else if t.Some? && t.value <= k {
      assert TermAt(s, t.value - 4);
    }
  }

  /** A prefix settles the request as the whole stream does, or asks for more bytes. */
  lemma PrefixDecides(bytes: seq<byte>, k: nat, maxBody: nat)
    requires k <= |bytes| && !ChunkedPost(bytes)
    ensures if Needed(bytes, maxBody) <= k then ParseRequest(bytes[..k], maxBody) == ParseRequest(bytes, maxBody)
            else ParseRequest(bytes[..k], maxBody).Err? && Retry(ParseRequest(bytes[..k], maxBody).error)
  {
    TermPrefix(bytes, k);
    hide HeadOf, Terminator;
    var t := Terminator(bytes, 0);
    if t.Some? && t.value <= k {
      var end := t.value;
      assert bytes[..k][..end] == bytes[..end];
      if end <= MAX_HEADER_BYTES && HeadOf(bytes[..end]).Ok? {
        HeadHasHost(bytes[..end]);
        BodyPrefix(HeadOf(bytes[..end]).value, bytes, end, k, maxBody);
      }
    }
  }

  lemma BodyPrefix(h: Head, bytes: seq<byte>, end: nat, k: nat, maxBody: nat)
    requires h.framing.host.Some? && end <= k <= |bytes| && !(h.verb.Post? && h.framing.chunked)
    ensures var n := h.framing.contentLength;
            var counted := h.verb.Post? && n.Some? && !h.framing.chunked && n.value <= maxBody;
            var needed := if counted then end + n.value else end;
            if needed <= k then WithBody(h, bytes[..k][end..], end, maxBody) == WithBody(h, bytes[end..], end, maxBody)
            else WithBody(h, bytes[..k][end..], end, maxBody) == Err(ShortBody)
  {
    var n := h.framing.contentLength;
    if h.verb.Post? && n.Some? && n.value <= maxBody && end + n.value <= k {
      assert bytes[..k][end..][..n.value] == bytes[end..][..n.value];
    }
  }

  /** Once enough bytes are there, the parser does not ask for more, and takes no more than those. */
  lemma Settled(bytes: seq<byte>, maxBody: nat)
    requires !ChunkedPost(bytes) && Needed(bytes, maxBody) <= |bytes|
    ensures match ParseRequest(bytes, maxBody)
            case Ok(r) => r.consumed == Needed(bytes, maxBody)
            case Err(e) => !Retry(e)
  {
    hide Terminator, HeadOf;
    var end := Terminator(bytes, 0).value;
    if end <= MAX_HEADER_BYTES {
      if HeadOf(bytes[..end]).Ok? { HeadHasHost(bytes[..end]); } else { HeadErrors(bytes[..end]); }
    }
  }

  /** Errors of the header block never ask for more bytes. */
  lemma HeadErrors(block: seq<byte>)
    requires HeadOf(block).Err?
    ensures !Retry(HeadOf(block).error)
  {
    hide Lines, FromUtf8, AddLines;
    if FromUtf8(block).Some? {
      var lines := Lines(FromUtf8(block).value);
      if AddLines(NO_HEADERS, lines[1..]).Err? { LineErrors(NO_HEADERS, lines[1..]); }
    }
  }

  lemma {:induction false} LineErrors(f: Framing, lines: seq<string>)
    requires AddLines(f, lines).Err?
    ensures !Retry(AddLines(f, lines).error)
    decreases |lines|
  {
    hide ParseU64, Trim, Before, EqIgnoreCase;
    if lines[0] == [] {
      LineErrors(f, lines[1..]);
    } else if SplitHeader(lines[0]).Ok? {
      var g := AddHeader(f, SplitHeader(lines[0]).value);
      if g.Ok? { LineErrors(g.value, lines[1..]); }
    }
  }

  /**
   A complete request can be cut short anywhere, with the parser asking for more, if and only if it is not a
   chunked POST.
   */
  lemma CutAnywhere(bytes: seq<byte>, maxBody: nat)
    requires ParseRequest(bytes, maxBody).Ok?
    ensures !ChunkedPost(bytes) <==>
            forall k | 0 <= k < ParseRequest(bytes, maxBody).value.consumed ::
              ParseRequest(bytes[..k], maxBody).Err? && Retry(ParseRequest(bytes[..k], maxBody).error)
  {
    hide ParseRequest, Needed;
    var n := ParseRequest(bytes, maxBody).value.consumed;
    if ChunkedPost(bytes) {
      var k := HeaderOnly(bytes, maxBody);
    } else {
      PrefixDecides(bytes, |bytes|, maxBody);
      assert bytes[..|bytes|] == bytes;
      Settled(bytes, maxBody);
      forall k | 0 <= k < n
        ensures ParseRequest(bytes[..k], maxBody).Err? && Retry(ParseRequest(bytes[..k], maxBody).error)
      {
        PrefixDecides(bytes, k, maxBody);
      }
    }
  }

  /** With only its header block there, a chunked POST is rejected for good. */
  lemma HeaderOnly(bytes: seq<byte>, maxBody: nat) returns (k: nat)
    requires ChunkedPost(bytes) && ParseRequest(bytes, maxBody).Ok?
    ensures k < ParseRequest(bytes, maxBody).value.consumed && k <= |bytes|
    ensures ParseRequest(bytes[..k], maxBody) == Err(BadChunk("missing chunk-size CRLF"))
  {
    k := Needed(bytes, maxBody);
    ChunkedTakesMore(bytes, maxBody);
    hide ParseRequest, ChunkedPost, Needed;
    ChunkedNeeds(bytes, maxBody);
    NoBytesNoBreak(bytes[k..k]);
    NoChunkYet(bytes, k, maxBody);
  }

  lemma ChunkedTakesMore(bytes: seq<byte>, maxBody: nat)
    requires ChunkedPost(bytes) && ParseRequest(bytes, maxBody).Ok?
    ensures Needed(bytes, maxBody) < ParseRequest(bytes, maxBody).value.consumed
  {
    hide HeadOf, Terminator, DechunkFrom;
    HeadFramedOnce(bytes[..Terminator(bytes, 0).value]);
  }

  // ---- the loop ----------------------------------------------------------------------------------------

  datatype Reply = Served(close: bool) | Broken

  /** What the routes do with a request, given how many came before it on the connection. */
  type Handler = (nat, Request) -> Reply

  datatype Config = Config(maxBody: nat, maxRequests: nat, handle: Handler)

  datatype Outcome = CapReached | Closed | WriteFailed | Rejected(e: ParseError) | PeerClosed | PayloadTooLarge

  /** The requests handed to the routes, and how the connection ended. */
  datatype Trace = Trace(log: seq<Request>, outcome: Outcome)

  function Limit(c: Config): nat {
    MAX_HEADER_BYTES + c.maxBody
  }

  /** The loop, with `raw` buffered, `pieces` still to come and `log` already served. */
  function Serve(c: Config, raw: seq<byte>, pieces: seq<seq<byte>>, log: seq<Request>): Trace
    decreases |pieces|, if |log| <= c.maxRequests then c.maxRequests - |log| else 0
  {
    if |log| >= c.maxRequests then Trace(log, CapReached)
    else
      match ParseRequest(raw, c.maxBody)
      case Ok(req) =>
        (match c.handle(|log|, req)
         case Broken => Trace(log + [req], WriteFailed)
         case Served(true) => Trace(log + [req], Closed)
         case Served(false) => Serve(c, raw[req.consumed..], pieces, log + [req]))
      case Err(e) =>
        if !Retry(e) then Trace(log, Rejected(e))
        else if pieces == [] || pieces[0] == [] then Trace(log, PeerClosed)
        else if |raw + pieces[0]| > Limit(c) then Trace(log, PayloadTooLarge)
        else Serve(c, raw + pieces[0], pieces[1..], log)
  }

  /** What a connection amounts to, request by request, when its split does not matter. */
  function Whole(c: Config, bytes: seq<byte>, log: seq<Request>): Trace
    decreases if |log| <= c.maxRequests then c.maxRequests - |log| else 0
  {
    if |log| >= c.maxRequests then Trace(log, CapReached)
    else if |bytes| > Limit(c) && Needed(bytes, c.maxBody) > Limit(c) then Trace(log, PayloadTooLarge)
    else if ChunkedPost(bytes) then Trace(log, Rejected(BadChunk("missing chunk-size CRLF")))
    else
      match ParseRequest(bytes, c.maxBody)
      case Ok(req) =>
        (match c.handle(|log|, req)
         case Broken => Trace(log + [req], WriteFailed)
         case Served(true) => Trace(log + [req], Closed)
         case Served(false) => Whole(c, bytes[req.consumed..], log + [req]))
      case Err(e) => Trace(log, if Retry(e) then PeerClosed else Rejected(e))
  }

  /** The furthest the buffer can reach when the request that needs `needed` bytes is first settled. */
  function Reach(bytes: seq<byte>, needed: nat): nat {
    if needed + READ_SIZE > |bytes| then |bytes| else needed + READ_SIZE - 1
  }

  /**
   The first request of the stream meets the same fate however it is split.  A chunked
   POST is refused in any case if no chunk size can be there in time.  Any other request
   is settled within the buffer limit, or beyond it, in any case.
   */
  ghost predicate SteadyFirst(c: Config, bytes: seq<byte>) {
    var needed := Needed(bytes, c.maxBody);
    var reach := Reach(bytes, needed);
    if ChunkedPost(bytes) then
      reach <= Limit(c) && needed <= reach && CrLfFrom(bytes[needed..reach], 0).None?
    else
      |bytes| <= Limit(c) || needed > Limit(c) || needed + READ_SIZE <= Limit(c) + 1
  }

  /** The same for every request the connection comes to. */
  ghost predicate Steady(c: Config, bytes: seq<byte>, log: seq<Request>)
    decreases if |log| <= c.maxRequests then c.maxRequests - |log| else 0
  {
    |log| < c.maxRequests ==>
      && SteadyFirst(c, bytes)
      && (Continues(c, bytes, log) ==>
            var req := ParseRequest(bytes, c.maxBody).value;
            Steady(c, bytes[req.consumed..], log + [req]))
  }

  /** The first request is served and the connection kept. */
  ghost predicate Continues(c: Config, bytes: seq<byte>, log: seq<Request>) {
    && !(|bytes| > Limit(c) && Needed(bytes, c.maxBody) > Limit(c))
    && !ChunkedPost(bytes)
    && ParseRequest(bytes, c.maxBody).Ok?
    && c.handle(|log|, ParseRequest(bytes, c.maxBody).value) == Served(false)
  }

  function Join(pieces: seq<seq<byte>>): seq<byte> {
    if pieces == [] then [] else pieces[0] + Join(pieces[1..])
  }

  ghost predicate Readable(pieces: seq<seq<byte>>) {
    forall i | 0 <= i < |pieces| :: 1 <= |pieces[i]| <= READ_SIZE
  }

  // ---- steady streams: the split does not matter ----------------------------------------------------

  /** Before a request is settled the parser asks for more. */
  lemma Unsettled(bytes: seq<byte>, k: nat, maxBody: nat)
    requires k <= |bytes| && k < Needed(bytes, maxBody)
    ensures ParseRequest(bytes[..k], maxBody).Err? && Retry(ParseRequest(bytes[..k], maxBody).error)
  {
    if ChunkedPost(bytes) {
      TermPrefix(bytes, k);
      hide HeadOf, Terminator;
    } else {
      hide ParseRequest, Needed, ChunkedPost;
      PrefixDecides(bytes, k, maxBody);
    }
  }

  /** Once the header block of a chunked POST is there, the chunk stream decides. */
  lemma ChunksDecide(bytes: seq<byte>, k: nat, maxBody: nat)
    requires ChunkedPost(bytes) && Needed(bytes, maxBody) <= k <= |bytes|
    ensures match DechunkFrom(bytes[Needed(bytes, maxBody)..k], 0, [], maxBody)
            case Ok(_) => ParseRequest(bytes[..k], maxBody).Ok?
            case Err(e) => ParseRequest(bytes[..k], maxBody) == Err(e)
  {
    TermPrefix(bytes, k);
    hide HeadOf, Terminator, DechunkFrom;
    var end := Terminator(bytes, 0).value;
    assert bytes[..k][..end] == bytes[..end];
    HeadHasHost(bytes[..end]);
    HeadFramedOnce(bytes[..end]);
    assert bytes[..k][end..] == bytes[end..k];
  }

  /** With its header block and no chunk size there, a chunked POST is rejected for good. */
  lemma NoChunkYet(bytes: seq<byte>, k: nat, maxBody: nat)
    requires ChunkedPost(bytes) && Needed(bytes, maxBody) <= k <= |bytes|
    requires CrLfFrom(bytes[Needed(bytes, maxBody)..k], 0).None?
    ensures ParseRequest(bytes[..k], maxBody) == Err(BadChunk("missing chunk-size CRLF"))
  {
    hide ParseRequest, ChunkedPost, Needed, CrLfFrom;
    ChunksDecide(bytes, k, maxBody);
  }

  lemma ChunkedNeeds(bytes: seq<byte>, maxBody: nat)
    requires ChunkedPost(bytes)
    ensures 4 <= Needed(bytes, maxBody) <= |bytes| && Needed(bytes, maxBody) <= MAX_HEADER_BYTES
  {
    hide HeadOf;
  }

  lemma NeedsSome(bytes: seq<byte>, maxBody: nat)
    ensures Needed(bytes, maxBody) > 0
  {
    hide HeadOf;
  }

  /** A stretch without CR LF has none in its front. */
  lemma {:induction false} NoBreakInFront(b: seq<byte>, i: nat, k: nat)
    requires i <= k <= |b| && CrLfFrom(b, i).None?
    ensures CrLfFrom(b[..k], i).None?
    decreases k - i
  {
    if i < k {
      if i + 2 <= k {
        NoBreakInFront(b, i + 1, k);
      }
    }
  }

  /** However the bytes are split across reads, a steady connection goes the same way. */
  lemma {:induction false} SplitDoesNotMatter(c: Config, raw: seq<byte>, pieces: seq<seq<byte>>, log: seq<Request>)
    requires Readable(pieces) && Steady(c, raw + Join(pieces), log)
    requires |raw| <= Limit(c) && |raw| < Needed(raw + Join(pieces), c.maxBody) + READ_SIZE
    ensures Serve(c, raw, pieces, log) == Whole(c, raw + Join(pieces), log)
    decreases |pieces|, if |log| <= c.maxRequests then c.maxRequests - |log| else 0
  {
    hide ParseRequest, Needed, ChunkedPost;
    if |log| < c.maxRequests {
      var bytes := raw + Join(pieces);
      assert bytes[..|raw|] == raw;
      if Needed(bytes, c.maxBody) > |raw| {
        Unsettled(bytes, |raw|, c.maxBody);
        if pieces == [] {
          assert bytes == raw;
          if ChunkedPost(bytes) { ChunkedNeeds(bytes, c.maxBody); }
        } else {
          assert raw + pieces[0] + Join(pieces[1..]) == bytes;
          RoomForRead(c, bytes, |raw|, |raw + pieces[0]|);
          if |raw + pieces[0]| <= Limit(c) { SplitDoesNotMatter(c, raw + pieces[0], pieces[1..], log); }
        }
      } else if ChunkedPost(bytes) {
        ChunkedSettled(c, bytes, |raw|);
      } else {
        PrefixDecides(bytes, |raw|, c.maxBody);
        PrefixDecides(bytes, |bytes|, c.maxBody);
        assert bytes[..|bytes|] == bytes;
        Settled(bytes, c.maxBody);
        match ParseRequest(bytes, c.maxBody) {
          case Ok(req) =>
            if c.handle(|log|, req) == Served(false) {
              assert raw[req.consumed..] + Join(pieces) == bytes[req.consumed..];
              NeedsSome(bytes[req.consumed..], c.maxBody);
              SplitDoesNotMatter(c, raw[req.consumed..], pieces, log + [req]);
            }
          case Err(_) =>
        }
      }
    }
  }

  lemma ChunkedSettled(c: Config, bytes: seq<byte>, k: nat)
    requires ChunkedPost(bytes) && SteadyFirst(c, bytes)
    requires Needed(bytes, c.maxBody) <= k <= |bytes| && k < Needed(bytes, c.maxBody) + READ_SIZE
    ensures ParseRequest(bytes[..k], c.maxBody) == Err(BadChunk("missing chunk-size CRLF"))
    ensures Needed(bytes, c.maxBody) <= Limit(c)
  {
    hide ChunkedPost, Needed, ParseRequest;
    var end := Needed(bytes, c.maxBody);
    var reach := Reach(bytes, end);
    NoBreakInFront(bytes[end..reach], 0, k - end);
    assert bytes[end..reach][..k - end] == bytes[end..k];
    NoChunkYet(bytes, k, c.maxBody);
  }

  /** One read past an unsettled buffer stays within the limit, or the request is beyond it anyway. */
  lemma RoomForRead(c: Config, bytes: seq<byte>, n: nat, m: nat)
    requires SteadyFirst(c, bytes) && n < Needed(bytes, c.maxBody) && n <= m <= n + READ_SIZE && m <= |bytes|
    ensures m <= Limit(c) || Needed(bytes, c.maxBody) > Limit(c)
  {
    hide ChunkedPost, Needed, CrLfFrom;
  }

  // ---- unsteady streams: two splits that differ -----------------------------------------------------

  /** Reads of one byte each. */
  function Crumbs(b: seq<byte>): (ps: seq<seq<byte>>)
    ensures |ps| == |b|
  {
    seq(|b|, i requires 0 <= i < |b| => [b[i]])
  }

  lemma {:induction false} JoinCrumbs(b: seq<byte>)
    ensures Readable(Crumbs(b)) && Join(Crumbs(b)) == b
    decreases |b|
  {
    if b != [] {
      JoinCrumbs(b[1..]);
      assert Crumbs(b)[1..] == Crumbs(b[1..]);
    }
  }

  lemma {:induction false} JoinConcat(a: seq<seq<byte>>, b: seq<seq<byte>>)
    ensures Join(a + b) == Join(a) + Join(b)
    decreases |a|
  {
    if a == [] {
      assert a + b == b;
    } else {
      assert (a + b)[1..] == a[1..] + b;
      JoinConcat(a[1..], b);
    }
  }

  /** Byte by byte the loop reaches every buffer that is within the limit and not past the request. */
  lemma {:induction false} Feed(c: Config, bytes: seq<byte>, i: nat, k: nat, more: seq<seq<byte>>, log: seq<Request>)
    requires i <= k <= |bytes| && k <= Needed(bytes, c.maxBody) && k <= Limit(c) && |log| < c.maxRequests
    ensures Serve(c, bytes[..i], Crumbs(bytes[i..k]) + more, log) == Serve(c, bytes[..k], more, log)
    decreases k - i
  {
    hide ParseRequest, Needed;
    var ps := Crumbs(bytes[i..k]) + more;
    if i == k {
      assert ps == more;
    } else {
      Unsettled(bytes, i, c.maxBody);
      assert ps[0] == [bytes[i]] && ps[1..] == Crumbs(bytes[i + 1..k]) + more by {
        assert bytes[i..k][1..] == bytes[i + 1..k];
      }
      assert bytes[..i] + ps[0] == bytes[..i + 1];
      Feed(c, bytes, i + 1, k, more, log);
    }
  }

  /** Byte by byte up to one place, one read up to another, and byte by byte again. */
  function Leap(bytes: seq<byte>, i: nat, k: nat): seq<seq<byte>>
    requires i < k <= |bytes|
  {
    Crumbs(bytes[..i]) + ([bytes[i..k]] + Crumbs(bytes[k..]))
  }

  lemma LeapIsSplit(bytes: seq<byte>, i: nat, k: nat)
    requires i < k <= |bytes| && k - i <= READ_SIZE
    ensures Readable(Leap(bytes, i, k)) && Join(Leap(bytes, i, k)) == bytes
  {
    JoinCrumbs(bytes[..i]);
    JoinCrumbs(bytes[k..]);
    hide Crumbs;
    var front, more := Crumbs(bytes[..i]), [bytes[i..k]] + Crumbs(bytes[k..]);
    JoinConcat(front, more);
    assert more[1..] == Crumbs(bytes[k..]);
    assert Join(more) == bytes[i..k] + bytes[k..];
    assert Readable(more);
    hide Join, Readable;
    ReadableConcat(front, more);
    assert bytes[..i] + (bytes[i..k] + bytes[k..]) == bytes;
  }

  /** A leap from an unsettled buffer: the limit is looked at first, then the parser. */
  lemma LeapServes(c: Config, bytes: seq<byte>, i: nat, k: nat, log: seq<Request>)
    requires i < k <= |bytes| && i < Needed(bytes, c.maxBody) && i <= Limit(c) && |log| < c.maxRequests
    ensures Serve(c, [], Leap(bytes, i, k), log)
         == if k > Limit(c) then Trace(log, PayloadTooLarge) else Serve(c, bytes[..k], Crumbs(bytes[k..]), log)
  {
    hide ParseRequest, Needed, Crumbs;
    var more := [bytes[i..k]] + Crumbs(bytes[k..]);
    assert bytes[0..i] == bytes[..i] && bytes[..0] == [];
    Feed(c, bytes, 0, i, more, log);
    Unsettled(bytes, i, c.maxBody);
    assert more[0] == bytes[i..k] && more[1..] == Crumbs(bytes[k..]);
    assert bytes[..i] + bytes[i..k] == bytes[..k];
  }

  /** The log only grows. */
  lemma {:induction false} LogGrows(c: Config, raw: seq<byte>, pieces: seq<seq<byte>>, log: seq<Request>)
    ensures |Serve(c, raw, pieces, log).log| >= |log|
    decreases |pieces|, if |log| <= c.maxRequests then c.maxRequests - |log| else 0
  {
    hide ParseRequest;
    if |log| < c.maxRequests {
      match ParseRequest(raw, c.maxBody)
      case Ok(req) =>
        if c.handle(|log|, req) == Served(false) { LogGrows(c, raw[req.consumed..], pieces, log + [req]); }
      case Err(e) =>
        if Retry(e) && pieces != [] { LogGrows(c, raw + pieces[0], pieces[1..], log); }
    }
  }

  /** Once settled, a buffer leads to a longer log or to its own error. */
  lemma SettledServes(c: Config, raw: seq<byte>, pieces: seq<seq<byte>>, log: seq<Request>)
    requires |log| < c.maxRequests
    ensures match ParseRequest(raw, c.maxBody)
            case Ok(_) => |Serve(c, raw, pieces, log).log| > |log|
            case Err(e) => !Retry(e) ==> Serve(c, raw, pieces, log) == Trace(log, Rejected(e))
  {
    hide ParseRequest;
    match ParseRequest(raw, c.maxBody)
    case Ok(req) =>
      if c.handle(|log|, req) == Served(false) { LogGrows(c, raw[req.consumed..], pieces, log + [req]); }
    case Err(_) =>
  }

  /** A chunked POST whose first size line is just complete meets another fate than one without it. */
  lemma SizeLineThere(bytes: seq<byte>, k: nat, maxBody: nat)
    requires ChunkedPost(bytes) && Needed(bytes, maxBody) + 2 <= k <= |bytes|
    requires CrLfFrom(bytes[Needed(bytes, maxBody)..k], 0) == Some(k - Needed(bytes, maxBody) - 2)
    ensures var r := ParseRequest(bytes[..k], maxBody);
            r.Ok? || (!Retry(r.error) && r.error != BadChunk("missing chunk-size CRLF"))
  {
    hide ParseRequest, ChunkedPost, Needed, CrLfFrom, DechunkFrom;
    ChunksDecide(bytes, k, maxBody);
    OneSizeLine(bytes[Needed(bytes, maxBody)..k], maxBody);
  }

  lemma OneSizeLine(b: seq<byte>, maxBody: nat)
    requires |b| >= 2 && CrLfFrom(b, 0) == Some(|b| - 2)
    ensures var r := DechunkFrom(b, 0, [], maxBody);
            r.Ok? || (!Retry(r.error) && r.error != BadChunk("missing chunk-size CRLF"))
  {
    hide CrLfFrom;
  }

  /** The first break of a stretch ends a front of it. */
  lemma {:induction false} BreakInFront(b: seq<byte>, i: nat)
    requires CrLfFrom(b, i).Some?
    ensures CrLfFrom(b[..CrLfFrom(b, i).value + 2], i) == CrLfFrom(b, i)
    decreases |b| - i
  {
    if !(b[i] == 13 && b[i + 1] == 10) { BreakInFront(b, i + 1); }
  }

  /** Where the second of two differing splits leaps to: past the limit, or behind the first size line. */
  ghost function LeapTo(c: Config, bytes: seq<byte>): nat {
    var n := Needed(bytes, c.maxBody);
    var reach := Reach(bytes, n);
    if ChunkedPost(bytes) && reach <= Limit(c) && n <= reach && CrLfFrom(bytes[n..reach], 0).Some?
    then n + CrLfFrom(bytes[n..reach], 0).value + 2
    else Limit(c) + 1
  }

  lemma LeapInReach(c: Config, bytes: seq<byte>)
    requires !SteadyFirst(c, bytes)
    ensures var n := Needed(bytes, c.maxBody); 0 < n <= Limit(c) && n < LeapTo(c, bytes) <= |bytes|
    ensures LeapTo(c, bytes) < Needed(bytes, c.maxBody) + READ_SIZE
  {
    NeedsSome(bytes, c.maxBody);
    if ChunkedPost(bytes) { ChunkedNeeds(bytes, c.maxBody); }
    hide Needed, ChunkedPost, CrLfFrom;
  }

  /** Two splits of a stream whose first request is not steady that the loop tells apart. */
  lemma FirstSplitsDiffer(c: Config, bytes: seq<byte>, log: seq<Request>)
    returns (p: seq<seq<byte>>, p': seq<seq<byte>>)
    requires |log| < c.maxRequests && !SteadyFirst(c, bytes)
    ensures Readable(p) && Readable(p') && Join(p) == Join(p') == bytes
    ensures Serve(c, [], p, log) != Serve(c, [], p', log)
  {
    hide *;
    var n, k := Needed(bytes, c.maxBody), LeapTo(c, bytes);
    LeapInReach(c, bytes);
    p, p' := Leap(bytes, n - 1, n), Leap(bytes, n - 1, k);
    LeapIsSplit(bytes, n - 1, n);
    LeapIsSplit(bytes, n - 1, k);
    LeapServes(c, bytes, n - 1, n, log);
    LeapServes(c, bytes, n - 1, k, log);
    FatesDiffer(c, bytes, log);
  }

  lemma FatesDiffer(c: Config, bytes: seq<byte>, log: seq<Request>)
    requires |log| < c.maxRequests && !SteadyFirst(c, bytes)
    requires var n := Needed(bytes, c.maxBody); n <= Limit(c) && n < LeapTo(c, bytes) <= |bytes|
    ensures var n, k := Needed(bytes, c.maxBody), LeapTo(c, bytes);
            Serve(c, bytes[..n], Crumbs(bytes[n..]), log) !=
            if k > Limit(c) then Trace(log, PayloadTooLarge) else Serve(c, bytes[..k], Crumbs(bytes[k..]), log)
  {
    hide ParseRequest, Needed, ChunkedPost, CrLfFrom, Serve, SteadyFirst, Crumbs;
    var n, k := Needed(bytes, c.maxBody), LeapTo(c, bytes);
    SettledServes(c, bytes[..n], Crumbs(bytes[n..]), log);
    if ChunkedPost(bytes) {
      NoBytesNoBreak(bytes[n..n]);
      NoChunkYet(bytes, n, c.maxBody);
      if k <= Limit(c) {
        var reach := Reach(bytes, n);
        BreakInFront(bytes[n..reach], 0);
        assert bytes[n..reach][..k - n] == bytes[n..k];
        SizeLineThere(bytes, k, c.maxBody);
        SettledServes(c, bytes[..k], Crumbs(bytes[k..]), log);
      }
    } else {
      FrontSettled(bytes, n, c.maxBody);
    }
  }

  lemma NoBytesNoBreak(b: seq<byte>)
    requires b == []
    ensures CrLfFrom(b, 0).None?
  {
  }

  lemma FrontSettled(bytes: seq<byte>, n: nat, maxBody: nat)
    requires !ChunkedPost(bytes) && n == Needed(bytes, maxBody) <= |bytes|
    ensures ParseRequest(bytes[..n], maxBody) == ParseRequest(bytes, maxBody)
    ensures match ParseRequest(bytes, maxBody)
            case Ok(r) => r.consumed == n
            case Err(e) => !Retry(e)
  {
    hide ParseRequest, Needed, ChunkedPost;
    PrefixDecides(bytes, n, maxBody);
    Settled(bytes, maxBody);
  }

  /** The same for any unsteady connection: the requests before the unsteady one are read exactly. */
  lemma {:induction false} SplitsDiffer(c: Config, bytes: seq<byte>, log: seq<Request>)
    returns (p: seq<seq<byte>>, p': seq<seq<byte>>)
    requires !Steady(c, bytes, log)
    ensures Readable(p) && Readable(p') && Join(p) == Join(p') == bytes
    ensures Serve(c, [], p, log) != Serve(c, [], p', log)
    decreases if |log| <= c.maxRequests then c.maxRequests - |log| else 0
  {
    hide ParseRequest, Needed, ChunkedPost, SteadyFirst, Continues;
    if !SteadyFirst(c, bytes) {
      p, p' := FirstSplitsDiffer(c, bytes, log);
    } else {
      ContinuesExactly(c, bytes, log);
      var req := ParseRequest(bytes, c.maxBody).value;
      var n := req.consumed;
      var q, q' := SplitsDiffer(c, bytes[n..], log + [req]);
      p, p' := Crumbs(bytes[..n]) + q, Crumbs(bytes[..n]) + q';
      hide Steady, Readable, Join;
      ServesFirst(c, bytes, q, log);
      ServesFirst(c, bytes, q', log);
    }
  }

  lemma ContinuesExactly(c: Config, bytes: seq<byte>, log: seq<Request>)
    requires Continues(c, bytes, log)
    ensures ParseRequest(bytes, c.maxBody).Ok?
    ensures Needed(bytes, c.maxBody) == ParseRequest(bytes, c.maxBody).value.consumed <= Limit(c)
  {
    hide ParseRequest, Needed, ChunkedPost;
    PrefixDecides(bytes, |bytes|, c.maxBody);
    assert bytes[..|bytes|] == bytes;
    Settled(bytes, c.maxBody);
  }

  lemma ServesFirst(c: Config, bytes: seq<byte>, q: seq<seq<byte>>, log: seq<Request>)
    requires |log| < c.maxRequests && Continues(c, bytes, log) && Readable(q)
    requires var req := ParseRequest(bytes, c.maxBody).value; Join(q) == bytes[req.consumed..]
    ensures var req := ParseRequest(bytes, c.maxBody).value;
            var p := Crumbs(bytes[..req.consumed]) + q;
            && Readable(p) && Join(p) == bytes
            && Serve(c, [], p, log) == Serve(c, [], q, log + [req])
  {
    hide ParseRequest, Needed, ChunkedPost, Crumbs, Join, Readable;
    var req := ParseRequest(bytes, c.maxBody).value;
    var n := req.consumed;
    ContinuesExactly(c, bytes, log);
    FrontSettled(bytes, n, c.maxBody);
    assert bytes[0..n] == bytes[..n] && bytes[..0] == [];
    Feed(c, bytes, 0, n, q, log);
    assert bytes[..n][n..] == [];
    JoinCrumbs(bytes[..n]);
    JoinConcat(Crumbs(bytes[..n]), q);
    assert bytes[..n] + bytes[n..] == bytes;
    ReadableConcat(Crumbs(bytes[..n]), q);
  }

  lemma ReadableConcat(a: seq<seq<byte>>, b: seq<seq<byte>>)
    requires Readable(a) && Readable(b)
    ensures Readable(a + b)
  {
  }

  /** Every split of these bytes gives the same requests and the same end. */
  ghost predicate SplitIndependent(c: Config, bytes: seq<byte>) {
    forall p, p' | Readable(p) && Readable(p') && Join(p) == bytes && Join(p') == bytes ::
      Serve(c, [], p, []) == Serve(c, [], p', [])
  }

  /** The bytes of a connection are served alike however they are split if and only if they are steady. */
  lemma SegmentationIndependence(c: Config, bytes: seq<byte>)
    ensures SplitIndependent(c, bytes) <==> Steady(c, bytes, [])
  {
    hide Serve, Steady, Readable, Join;
    if Steady(c, bytes, []) {
      forall p, p' | Readable(p) && Readable(p') && Join(p) == bytes && Join(p') == bytes
        ensures Serve(c, [], p, []) == Serve(c, [], p', [])
      {
        assert [] + bytes == bytes;
        NeedsSome(bytes, c.maxBody);
        SplitDoesNotMatter(c, [], p, []);
        SplitDoesNotMatter(c, [], p', []);
      }
    } else {
      var p, p' := SplitsDiffer(c, bytes, []);
    }
  }

  method HandleOneStream(c: Config, pieces: seq<seq<byte>>) returns (t: Trace)
    ensures t == Serve(c, [], pieces, [])
  {
    hide ParseRequest;
    var raw: seq<byte>, log: seq<Request>, next := [], [], 0;
    assert pieces[0..] == pieces;
    while true
      invariant next <= |pieces|
      invariant Serve(c, raw, pieces[next..], log) == Serve(c, [], pieces, [])
      decreases |pieces| - next, if |log| <= c.maxRequests then c.maxRequests - |log| else 0
    {
      if |log| >= c.maxRequests { return Trace(log, CapReached); }
      var parsed := Parse(raw, c.maxBody);
      if parsed.Ok? {
        var req := parsed.value;
        var reply := c.handle(|log|, req);
        log := log + [req];
        if reply.Broken? { return Trace(log, WriteFailed); }
        if reply.close { return Trace(log, Closed); }
        raw := raw[req.consumed..];
      } else {
        if !Retry(parsed.error) { return Trace(log, Rejected(parsed.error)); }
        if next == |pieces| || pieces[next] == [] { return Trace(log, PeerClosed); }
        assert pieces[next..][1..] == pieces[next + 1..];
        raw := raw + pieces[next];
        next := next + 1;
        if |raw| > Limit(c) { return Trace(log, PayloadTooLarge); }
      }
    }
  }
}
