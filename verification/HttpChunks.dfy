/**
 Printed chunk streams (section 7.1 of RFC 9112), decoded back, and whole requests
 with such a body.
 */
module HttpChunks {
  import opened Bytes
  import opened Utf8
  import opened HttpText
  import opened HttpRequest
  import opened HttpLoop
  import opened HttpPrint

  const BREAK: seq<byte> := [13, 10]

  function SizeLine(n: nat): seq<byte> {
    Encode(Hex(n)) + BREAK
  }

  /** A chunk and the two bytes behind its data. */
  datatype Piece = Piece(data: seq<byte>, closing: seq<byte>)

  function PrintPieces(ps: seq<Piece>): seq<byte> {
    if ps == [] then SizeLine(0) + BREAK
    else SizeLine(|ps[0].data|) + (ps[0].data + (ps[0].closing + PrintPieces(ps[1..])))
  }

  function Data(ps: seq<Piece>): seq<byte> {
    if ps == [] then [] else ps[0].data + Data(ps[1..])
  }

  ghost predicate Sizes(ps: seq<Piece>) {
    forall i | 0 <= i < |ps| :: 0 < |ps[i].data| < TWO64 - 2 && |ps[i].closing| == 2
  }

  /** Chunks as the standard has them: a line break behind each. */
  function Closed(chunks: seq<seq<byte>>): (ps: seq<Piece>)
    ensures |ps| == |chunks|
  {
    seq(|chunks|, i requires 0 <= i < |chunks| => Piece(chunks[i], BREAK))
  }

  function PrintChunks(chunks: seq<seq<byte>>): seq<byte> {
    PrintPieces(Closed(chunks))
  }

  lemma {:induction false} CrLfAt(b: seq<byte>, i: nat, j: nat)
    requires i <= j && j + 2 <= |b| && b[j] == 13 && b[j + 1] == 10 && forall k | i <= k < j :: b[k] != 13
    ensures CrLfFrom(b, i) == Some(j)
    decreases j - i
  {
    if i < j { CrLfAt(b, i + 1, j); }
  }

  predicate IsHexText(s: string) {
    forall i | 0 <= i < |s| :: HexDigit(s[i]).Some?
  }

  lemma HexIsPlain(s: string)
    requires IsHexText(s)
    ensures IsAscii(s) && ';' !in s && IsTrim(s) && '\r' !in s
  {
    assert forall i | 0 <= i < |s| ::
        HexDigit(s[i]).Some? && s[i] != ';' && s[i] != '\r' && !IsWhite(s[i]) && s[i] as int < 0x80;
  }

  lemma SizeReads(n: nat)
    requires n < TWO64
    ensures ChunkSize(Encode(Hex(n))) == Ok(n)
  {
    hide Hex, Trim, ParseHex, FromUtf8, Encode;
    var t := Hex(n);
    RoundTrip(t);
    HexIsPlain(t);
    assert Before(t, ';') == t;
    TrimKeeps(t);
    ParsesHex(n);
  }

  /** A size line is read, and the reader stands behind its break. */
  lemma SizeLineReads(b: seq<byte>, i: nat, n: nat)
    requires n < TWO64 && At(b, i, SizeLine(n))
    ensures i + |SizeLine(n)| <= |b|
    ensures CrLfFrom(b, i) == Some(i + |SizeLine(n)| - 2)
    ensures ChunkSize(b[i..i + |SizeLine(n)| - 2]) == Ok(n)
  {
    hide Hex, CrLfFrom, ChunkSize;
    var t := Hex(n);
    HexIsPlain(t);
    EncodeAscii(t);
    var e := Encode(t);
    AtSplit(b, i, e, BREAK);
    var j := i + |e|;
    AtByte(b, j, BREAK, 0);
    AtByte(b, j, BREAK, 1);
    forall k | i <= k < j
      ensures b[k] != 13
    {
      AtByte(b, i, e, k - i);
    }
    CrLfAt(b, i, j);
    SizeReads(n);
  }

  lemma {:induction false} PiecesRead(b: seq<byte>, i: nat, ps: seq<Piece>, out: seq<byte>, maxBody: nat)
    requires Sizes(ps) && At(b, i, PrintPieces(ps)) && |out| + |Data(ps)| <= maxBody
    ensures i <= |b| && DechunkFrom(b, i, out, maxBody) == Ok((out + Data(ps), i + |PrintPieces(ps)|))
    decreases |ps|
  {
    hide At, SizeLine, CrLfFrom, ChunkSize, ChunkAt;
    if ps == [] {
      LastReads(b, i);
      assert out + [] == out;
    } else {
      var c, more := ps[0], PrintPieces(ps[1..]);
      PieceReads(b, i, c, more);
      PiecesRead(b, i + |SizeLine(|c.data|)| + |c.data| + 2, ps[1..], out + c.data, maxBody);
      assert out + c.data + Data(ps[1..]) == out + Data(ps);
    }
  }

  lemma LastReads(b: seq<byte>, i: nat)
    requires At(b, i, SizeLine(0) + BREAK)
    ensures i <= |b| && ChunkAt(b, i) == Ok(LastChunk(i + |SizeLine(0)| + 2))
  {
    hide At, SizeLine, CrLfFrom, ChunkSize;
    AtSplit(b, i, SizeLine(0), BREAK);
    SizeLineReads(b, i, 0);
    var p := i + |SizeLine(0)|;
    AtByte(b, p, BREAK, 0);
    AtByte(b, p, BREAK, 1);
    Fits(b, p, BREAK);
  }

  lemma Fits(b: seq<byte>, p: nat, e: seq<byte>)
    requires At(b, p, e)
    ensures p + |e| <= |b| && b[p..p + |e|] == e
  {
  }

  lemma PieceReads(b: seq<byte>, i: nat, c: Piece, more: seq<byte>)
    requires 0 < |c.data| < TWO64 - 2 && |c.closing| == 2
    requires At(b, i, SizeLine(|c.data|) + (c.data + (c.closing + more)))
    ensures var end := i + |SizeLine(|c.data|)| + |c.data| + 2;
            i <= |b| && ChunkAt(b, i) == Ok(Chunk(c.data, end)) && At(b, end, more)
  {
    hide At, SizeLine, CrLfFrom, ChunkSize;
    var l := SizeLine(|c.data|);
    AtSplit(b, i, l, c.data + (c.closing + more));
    SizeLineReads(b, i, |c.data|);
    var p := i + |l|;
    AtSplit(b, p, c.data, c.closing + more);
    AtSplit(b, p + |c.data|, c.closing, more);
    Fits(b, p, c.data);
    Fits(b, p + |c.data|, c.closing);
  }

  /**
   Any body within the cap, cut into chunks in any way, is decoded with exactly the
   bytes of its stream, whatever two bytes stand behind each chunk: they are not read.
   */
  lemma ChunkRoundTrip(ps: seq<Piece>, rest: seq<byte>, maxBody: nat)
    requires Sizes(ps) && |Data(ps)| <= maxBody
    ensures DechunkFrom(PrintPieces(ps) + rest, 0, [], maxBody) == Ok((Data(ps), |PrintPieces(ps)|))
  {
    hide PrintPieces, DechunkFrom;
    var b := PrintPieces(ps) + rest;
    assert b[0..|PrintPieces(ps)|] == PrintPieces(ps);
    PiecesRead(b, 0, ps, [], maxBody);
    assert [] + Data(ps) == Data(ps);
  }

  // ---- the line break behind a chunk ------------------------------------------------------------------

  /** Every chunk read from this place on ends in a line break. */
  ghost predicate Closes(b: seq<byte>, i: nat)
    requires i <= |b|
    decreases |b| - i
  {
    match ChunkAt(b, i)
    case Ok(Chunk(data, end)) => end >= 2 && b[end - 2..end] == BREAK && Closes(b, end)
    case _ => true
  }

  lemma PieceCloses(c: Piece)
    requires 0 < |c.data| < TWO64 - 2 && |c.closing| == 2
    ensures Closes(PrintPieces([c]), 0) <==> c.closing == BREAK
  {
    hide SizeLine, CrLfFrom, ChunkSize, ChunkAt;
    var b, more := PrintPieces([c]), SizeLine(0) + BREAK;
    assert [c][1..] == [] && PrintPieces([]) == more;
    assert b[0..|b|] == b == SizeLine(|c.data|) + (c.data + (c.closing + more));
    PieceReads(b, 0, c, more);
    var end := |SizeLine(|c.data|)| + |c.data| + 2;
    LastReads(b, end);
    assert b[end - 2..end] == c.closing;
  }

  /**
   A missing line break behind a chunk is never noticed: only streams with all of them
   are accepted if and only if no chunk with data is accepted at all.
   */
  lemma OnlyClosedAccepted(maxBody: nat)
    ensures (forall b | DechunkFrom(b, 0, [], maxBody).Ok? :: Closes(b, 0)) <==> maxBody == 0
  {
    hide SizeLine, CrLfFrom, ChunkSize;
    if maxBody == 0 {
      forall b | DechunkFrom(b, 0, [], maxBody).Ok?
        ensures Closes(b, 0)
      {
        assert ChunkAt(b, 0).Ok?;
      }
    } else {
      hide DechunkFrom, ChunkAt, PrintPieces, Closes;
      var b := Unclosed(maxBody);
    }
  }

  /** One chunk of one byte with other bytes behind it. */
  lemma Unclosed(maxBody: nat) returns (b: seq<byte>)
    requires maxBody > 0
    ensures DechunkFrom(b, 0, [], maxBody).Ok? && !Closes(b, 0)
  {
    hide PrintPieces, DechunkFrom, Closes;
    var c := Piece([65], [66, 66]);
    b := PrintPieces([c]);
    assert Data([c]) == [65] by { assert [c][1..] == [] && Data([]) == []; }
    ChunkRoundTrip([c], [], maxBody);
    assert b + [] == b;
    PieceCloses(c);
  }

  // ---- whole requests ---------------------------------------------------------------------------------

  /** A POST whose headers announce chunks, with its body printed in chunks. */
  ghost predicate ChunkSendable(s: Spec, chunks: seq<seq<byte>>, maxBody: nat) {
    && Headed(s) && s.verb.Post? && AddAll(NO_HEADERS, s.headers).value.chunked
    && Sizes(Closed(chunks)) && |Data(Closed(chunks))| <= maxBody && s.body == PrintChunks(chunks)
  }

  /** The whole request, head and chunks, is parsed back with exactly its own bytes. */
  lemma ChunkedRequestRoundTrip(s: Spec, chunks: seq<seq<byte>>, rest: seq<byte>, maxBody: nat)
    requires ChunkSendable(s, chunks, maxBody)
    ensures Hosted(s) && ChunkedPost(Print(s) + rest)
    ensures ParseRequest(Print(s) + rest, maxBody)
         == Ok(RequestOf(Head(Post, s.path, AddAll(NO_HEADERS, s.headers).value), Data(Closed(chunks)), |Print(s)|))
  {
    hide HeadOf, Terminator, AddAll, HeadText, Encode, IsKnownPath, PrintPieces, DechunkFrom, Closed, Data, Sizes;
    HeadFound(s, s.body + rest);
    HeadFramedOnce(Encode(HeadText(s)));
    assert Print(s) + rest == Encode(HeadText(s)) + (s.body + rest);
    ChunkRoundTrip(Closed(chunks), rest, maxBody);
  }

  /** Such a stream is its header block, which is all the parser waits for, and the rest. */
  lemma ChunkedHead(s: Spec, chunks: seq<seq<byte>>, rest: seq<byte>, maxBody: nat)
    requires ChunkSendable(s, chunks, maxBody)
    ensures var head, buf := Encode(HeadText(s)), Print(s) + rest;
            && ChunkedPost(buf) && Needed(buf, maxBody) == |head| && buf == head + (PrintChunks(chunks) + rest)
            && ParseRequest(buf, maxBody).Ok?
  {
    hide HeadOf, Terminator, AddAll, HeadText, Encode, Headed, PrintChunks, ParseRequest, Closed, Data, Sizes;
    ChunkedRequestRoundTrip(s, chunks, rest, maxBody);
    HeadFound(s, s.body + rest);
    assert Print(s) + rest == Encode(HeadText(s)) + (s.body + rest);
    HeadNeeded(Print(s) + rest, maxBody);
  }

  lemma HeadNeeded(buf: seq<byte>, maxBody: nat)
    requires ChunkedPost(buf)
    ensures Terminator(buf, 0) == Some(Needed(buf, maxBody))
  {
    hide HeadOf, Terminator;
  }

  /** Cut behind its header block, a chunked POST is refused for good. */
  lemma CutBehindHead(s: Spec, chunks: seq<seq<byte>>, rest: seq<byte>, maxBody: nat)
    requires ChunkSendable(s, chunks, maxBody)
    ensures Encode(HeadText(s)) <= Print(s) + rest && ParseRequest(Print(s) + rest, maxBody).Ok?
    ensures ParseRequest(Encode(HeadText(s)), maxBody) == Err(BadChunk("missing chunk-size CRLF"))
  {
    hide *;
    var head, buf := Encode(HeadText(s)), Print(s) + rest;
    ChunkedHead(s, chunks, rest, maxBody);
    NoBytesNoBreak(buf[|head|..|head|]);
    NoChunkYet(buf, |head|, maxBody);
    assert buf[..|head|] == head;
  }

  /** The size of a chunk takes at most sixteen digits. */
  lemma {:induction false} HexLength(n: nat, k: nat)
    requires k > 0 && n < Pow256(k)
    ensures |Hex(n)| <= 2 * k
    decreases k
  {
    if n >= 256 {
      assert n / 256 < Pow256(k - 1);
      HexLength(n / 256, k - 1);
      assert n / 16 / 16 == n / 256;
    }
  }

  /** A front of a chunk stream that is long enough has its first size line. */
  lemma FrontHasSize(chunks: seq<seq<byte>>, rest: seq<byte>, x: seq<byte>)
    requires Sizes(Closed(chunks)) && x <= PrintChunks(chunks) + rest
    requires |x| >= 18 || x == PrintChunks(chunks) + rest
    ensures CrLfFrom(x, 0).Some?
  {
    hide SizeLine, CrLfFrom;
    var n := if chunks == [] then 0 else |chunks[0]|;
    if chunks != [] { assert Closed(chunks)[0].data == chunks[0]; }
    var l, all := SizeLine(n), PrintChunks(chunks) + rest;
    assert |l| <= |all| && all[..|l|] == l;
    SizeLineShort(n);
    assert x[0..|l|] == all[..|l|];
    SizeLineReads(x, 0, n);
  }

  lemma SizeLineShort(n: nat)
    requires n < TWO64
    ensures |SizeLine(n)| <= 18
  {
    hide Hex, Pow256;
    Pow256Small();
    HexLength(n, 8);
    HexIsPlain(Hex(n));
    EncodeAscii(Hex(n));
  }

  /** No printed chunked POST is served alike under every split of its bytes. */
  lemma ChunkedIsUnsteady(c: Config, s: Spec, chunks: seq<seq<byte>>, rest: seq<byte>)
    requires ChunkSendable(s, chunks, c.maxBody) && c.maxRequests > 0
    ensures !SplitIndependent(c, Print(s) + rest)
  {
    hide *;
    var head, buf := Encode(HeadText(s)), Print(s) + rest;
    ChunkedHead(s, chunks, rest, c.maxBody);
    SegmentationIndependence(c, buf);
    SizesOf(s, chunks, c.maxBody);
    SizeInReach(c, buf, |head|, chunks, rest);
    NotSteady(c, buf);
  }

  lemma SizesOf(s: Spec, chunks: seq<seq<byte>>, maxBody: nat)
    requires ChunkSendable(s, chunks, maxBody)
    ensures Sizes(Closed(chunks))
  {
    hide Headed, AddAll;
  }

  lemma NotSteady(c: Config, bytes: seq<byte>)
    requires !SteadyFirst(c, bytes) && c.maxRequests > 0
    ensures !Steady(c, bytes, [])
  {
    hide SteadyFirst;
  }

  lemma SizeInReach(c: Config, buf: seq<byte>, end: nat, chunks: seq<seq<byte>>, rest: seq<byte>)
    requires ChunkedPost(buf) && Needed(buf, c.maxBody) == end <= |buf| && Sizes(Closed(chunks))
    requires buf[end..] == PrintChunks(chunks) + rest
    ensures !SteadyFirst(c, buf)
  {
    hide ChunkedPost, Needed, CrLfFrom, PrintChunks, Sizes;
    var reach := Reach(buf, end);
    assert buf[end..reach] == buf[end..][..reach - end];
    FrontHasSize(chunks, rest, buf[end..reach]);
  }

  // ---- such requests exist ------------------------------------------------------------------------------

  const CHUNKED: Header := ("Transfer-Encoding", "chunked")

  function ChunkedSpec(path: string, host: string, others: seq<Header>, chunks: seq<seq<byte>>): Spec {
    Spec(Post, path, WithHost(host, others, [CHUNKED]), PrintChunks(chunks))
  }

  lemma AddChunked(f: Framing)
    ensures AddHeader(f, CHUNKED) == Ok(f.(chunked := true, headers := f.headers + [CHUNKED]))
  {
    assert !EqIgnoreCase("Transfer-Encoding", "host") && !EqIgnoreCase("Transfer-Encoding", "content-type");
    assert EqIgnoreCase("Transfer-Encoding", "transfer-encoding") && EqIgnoreCase("chunked", "chunked");
  }

  /** Every POST with a host and whatever other plain headers can be sent in chunks. */
  lemma OrdinaryIsChunkSendable(
      path: string, host: string, others: seq<Header>, chunks: seq<seq<byte>>, maxBody: nat)
    requires IsKnownPath(path) && OneLine(host) && IsTrim(host) && (host == [] || host[0] != '[') && Others(others)
    requires Sizes(Closed(chunks)) && |Data(Closed(chunks))| <= maxBody
    requires |Encode(HeadText(ChunkedSpec(path, host, others, chunks)))| <= MAX_HEADER_BYTES
    ensures ChunkSendable(ChunkedSpec(path, host, others, chunks), chunks, maxBody)
  {
    var s := ChunkedSpec(path, host, others, chunks);
    ChunkedHeader();
    ListIsPlain(host, others, [CHUNKED]);
    hide AddAll, AddHeader, Encode, HeadText, PlainHeader, Others, IsKnownPath, Expects, Closed, Data, PrintPieces,
         EqIgnoreCase, Sizes;
    var t := OneMore(host, others, CHUNKED);
    AddChunked(Framing(Some(host), t, None, false, WithHost(host, others, [])));
    assert WithHost(host, others, []) + [CHUNKED] == s.headers;
  }

  lemma ChunkedHeader()
    ensures PlainHeader(CHUNKED) && !EqIgnoreCase(CHUNKED.0, "expect")
  {
    assert PlainHeader(CHUNKED);
    hide PlainHeader;
  }
}
