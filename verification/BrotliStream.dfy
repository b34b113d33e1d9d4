/**
 The Brotli decoder proper: the loop of a compressed metablock over the shared
 reader, output buffer and distance ring, and whole streams.
 */
module BrotliStream {
  import opened Bytes
  import opened BitReading
  import opened Brotli
  import opened Lz77
  import opened Distances
  import Commands
  import opened Huffman
  import opened Metablock
  import BrotliPrint

  method NextSymbol(es: seq<Entry>, r: BitReader) returns (res: Result<nat, MetaError>)
    modifies r
    ensures match Symbol(es, r.buf, old(r.bitPos))
            case Ok((x, p)) => res == Ok(x) && r.bitPos == p
            case Err(e) => res == Err(e)
  {
    hide SymbolAt;
    var s := DecodeSymbol(es, r);
    match s
    case Ok(x) => res := Ok(x);
    case Err(e) => res := Err(Prefix(e));
  }

  method InsertLiterals(
      es: seq<Entry>, r: BitReader, out: OutputBuffer, n: nat, target: nat) returns (res: Result<(), MetaError>)
    modifies r, out
    ensures match LiteralsFrom(es, r.buf, old(r.bitPos), old(out.out), n, target)
            case Ok((x, p)) => res == Ok(()) && out.out == x && r.bitPos == p
            case Err(e) => res == Err(e)
  {
    hide Symbol;
    ghost var want := LiteralsFrom(es, r.buf, r.bitPos, out.out, n, target);
    for i := 0 to n
      invariant want == LiteralsFrom(es, r.buf, r.bitPos, out.out, n - i, target)
    {
      var sym := NextSymbol(es, r);
      if sym.Err? { return Err(sym.error); }
      if sym.value >= 256 { return Err(Prefix(SymbolOutOfRange(sym.value, 256))); }
      out.AppendByte(sym.value);
      if |out.out| >= target { return Ok(()); }
    }
    res := Ok(());
  }

  method CopyBytes(
      codes: Codes, r: BitReader, out: OutputBuffer, ring: DistanceRing, implicit: bool, length: nat, target: nat)
    returns (res: Result<(), MetaError>)
    requires |out.out| < target
    modifies r, out, ring
    ensures match CopyFrom(codes, r.buf, State(old(out.out), old(ring.slots), old(r.bitPos)),
                           implicit, length, target, out.windowSize)
            case Ok(s) => res == Ok(()) && out.out == s.out && ring.slots == s.slots && r.bitPos == s.pos
            case Err(e) => res == Err(e)
  {
    hide Symbol, DistanceAt, Copied;
    var distance: nat;
    if implicit {
      distance := ring.slots[0];
    } else {
      var sym := NextSymbol(codes.distance, r);
      if sym.Err? { return Err(sym.error); }
      var d := DecodeDistance(r, sym.value, ring);
      if d.Err? { return Err(BadDistance(d.error)); }
      distance := d.value;
    }
    if distance > out.windowSize { return Err(DictionaryDistanceNotSupported(distance, |out.out|)); }
    var cur := |out.out|;
    var n := if cur + length > target then target - cur else length;
    var done := out.CopyMatchWithPrestreamZeros(distance, n);
    if done.Err? { return Err(OutputError(done.error)); }
    res := Ok(());
  }

  method RunCommand(
      codes: Codes, r: BitReader, out: OutputBuffer, ring: DistanceRing, target: nat)
    returns (res: Result<(), MetaError>)
    requires |out.out| < target
    modifies r, out, ring
    ensures match CommandFrom(codes, r.buf, State(old(out.out), old(ring.slots), old(r.bitPos)), target, out.windowSize)
            case Ok(s) => res == Ok(()) && out.out == s.out && ring.slots == s.slots && r.bitPos == s.pos
            case Err(e) => res == Err(e)
  {
    hide Symbol, LiteralsFrom, CopyFrom, Commands.Decompose, Commands.InsertLengthAt, Commands.CopyLengthAt;
    var sym := NextSymbol(codes.command, r);
    if sym.Err? { return Err(sym.error); }
    var c := Commands.Decompose(sym.value);
    if c.Err? { return Err(Command(c.error)); }
    var insert := Commands.DecodeInsertLength(r, c.value.insertCode);
    if insert.Err? { return Err(Command(insert.error)); }
    var copy := Commands.DecodeCopyLength(r, c.value.copyCode);
    if copy.Err? { return Err(Command(copy.error)); }
    var literals := InsertLiterals(codes.literal, r, out, insert.value, target);
    if literals.Err? { return Err(literals.error); }
    if |out.out| >= target { return Ok(()); }
    res := CopyBytes(codes, r, out, ring, c.value.distanceImplicit, copy.value, target);
  }

  method DecodeCompressedMetablock(r: BitReader, mlen: nat, out: OutputBuffer) returns (res: Result<(), MetaError>)
    requires r.bitPos <= BitLen(r.buf)
    modifies r, out
    ensures match MetablockAt(r.buf, old(r.bitPos), mlen, old(out.out), out.windowSize)
            case Ok((x, p)) => res == Ok(()) && out.out == x && r.bitPos == p
            case Err(e) => res == Err(e)
  {
    hide PreambleAt, CommandFrom, UsableCodes;
    ghost var pos, start := r.bitPos, out.out;
    var codes := ReadPreamble(r);
    if codes.Err? { return Err(codes.error); }
    var target := |out.out| + mlen;
    var ring := new DistanceRing();
    while |out.out| < target
      invariant r.bitPos <= BitLen(r.buf)
      invariant match BodyFrom(codes.value, r.buf, State(out.out, ring.slots, r.bitPos), target, out.windowSize)
                case Ok(s) => MetablockAt(r.buf, pos, mlen, start, out.windowSize) == Ok((s.out, s.pos))
                case Err(e) => MetablockAt(r.buf, pos, mlen, start, out.windowSize) == Err(e)
      decreases target - |out.out|
    {
      ghost var st := State(out.out, ring.slots, r.bitPos);
      var step := RunCommand(codes.value, r, out, ring, target);
      if step.Err? { return Err(step.error); }
      CommandAdvances(codes.value, r.buf, st, target, out.windowSize);
    }
    res := Ok(());
  }

  // ---- whole streams ----------------------------------------------------------------------------

  /** The rest of the decoding, from bit `pos` with `out` already produced. */
  function Outer(buf: seq<byte>, pos: nat, out: seq<byte>, window: nat): Result<seq<byte>, MetaError>
    requires pos <= BitLen(buf)
    decreases BitLen(buf) - pos
  {
    var (h, p) :- Framed(HeaderAt(buf, pos));
    HeaderAdvances(buf, pos);
    if h.isLastEmpty then Ok(out)
    else if h.mlen == 0 then if h.isLast then Ok(out) else Outer(buf, p, out, window)
    else
      var (next, q) :- BlockAt(buf, p, h, out, window);
      BlockAdvances(buf, p, h, out, window);
      if h.isLast then Ok(next) else Outer(buf, q, next, window)
  }

  /** The output after one metablock of either kind. */
  function BlockAt(buf: seq<byte>, pos: nat, h: Header, out: seq<byte>, window: nat): MetaRead<seq<byte>>
    requires pos <= BitLen(buf)
  {
    if h.isUncompressed then
      var (body, p) :- Framed(RawBytes(buf, Aligned(pos), h.mlen));
      if |out| + |body| > MAX_DECOMP then Err(Framing(DecompressionBomb(|out| + |body|, MAX_DECOMP)))
      else Ok((out + body, p))
    else
      var (next, p) :- MetablockAt(buf, pos, h.mlen, out, window);
      if |next| > MAX_DECOMP then Err(Framing(DecompressionBomb(|next|, MAX_DECOMP))) else Ok((next, p))
  }

  /** Either kind of metablock adds exactly its declared length, within the cap. */
  lemma BlockAdvances(buf: seq<byte>, pos: nat, h: Header, out: seq<byte>, window: nat)
    requires pos <= BitLen(buf) && BlockAt(buf, pos, h, out, window).Ok?
    ensures var (r, p) := BlockAt(buf, pos, h, out, window).value;
            && |r| == |out| + h.mlen && out <= r && |r| <= MAX_DECOMP
            && pos <= p <= BitLen(buf)
  {
    hide MetablockAt, BytesAt;
    if h.isUncompressed {
      BytesAdvance(buf, Aligned(pos), h.mlen);
    } else {
      MetablockExact(buf, pos, h.mlen, out, window);
    }
  }

  function WindowSize(wbits: nat): nat {
    var size := Pow2(wbits);
    if size >= 16 then size - 16 else 0
  }

  function SizedMeta(r: Result<seq<byte>, MetaError>, expected: Option<nat>): Result<seq<byte>, MetaError> {
    if r.Ok? && expected.Some? && |r.value| != expected.value
    then Err(Framing(SizeMismatch(expected.value, |r.value|)))
    else r
  }

  function OuterResult(buf: seq<byte>, expected: Option<nat>): Result<seq<byte>, MetaError> {
    if Declared(expected).Some? then Err(Framing(Declared(expected).value))
    else
      var (wbits, p) :- Framed(StreamHeaderAt(buf, 0));
      StreamHeaderAdvances(buf);
      SizedMeta(Outer(buf, p, [], WindowSize(wbits)), expected)
  }

  method DecompressCompressed(input: seq<byte>, expected: Option<nat>) returns (res: Result<seq<byte>, MetaError>)
    ensures res == OuterResult(input, expected)
  {
    hide HeaderAt, StreamHeaderAt, BytesAt, MetablockAt;
    if expected.Some? && expected.value > MAX_DECOMP {
      return Err(Framing(DecompressionBomb(expected.value, MAX_DECOMP)));
    }
    var r := new BitReader(input);
    var hdr := ReadStreamHeader(r);
    if hdr.Err? { return Err(Framing(hdr.error)); }
    StreamHeaderAdvances(input);
    var out := new OutputBuffer(WindowSize(hdr.value));
    ghost var want := Outer(input, r.bitPos, [], out.windowSize);
    var done := false;
    while !done
      invariant r.buf == input && r.bitPos <= BitLen(input)
      invariant if done then want == Ok(out.out) else want == Outer(input, r.bitPos, out.out, out.windowSize)
      decreases !done, BitLen(input) - r.bitPos
    {
      ghost var pos := r.bitPos;
      var mb := ReadHeader(r);
      if mb.Err? { return Err(Framing(mb.error)); }
      HeaderAdvances(input, pos);
      var h := mb.value;
      if h.isLastEmpty {
        done := true;
      } else if h.mlen == 0 {
        done := h.isLast;
      } else {
        ghost var at, had := r.bitPos, out.out;
        if h.isUncompressed {
          r.AlignToByte();
          var body := r.ReadAlignedBytes(h.mlen);
          if body.Err? { return Err(Framing(BitErr(body.error))); }
          if |out.out| + |body.value| > MAX_DECOMP {
            return Err(Framing(DecompressionBomb(|out.out| + |body.value|, MAX_DECOMP)));
          }
          out.AppendSlice(body.value);
        } else {
          var body := DecodeCompressedMetablock(r, h.mlen, out);
          if body.Err? { return Err(body.error); }
          if |out.out| > MAX_DECOMP { return Err(Framing(DecompressionBomb(|out.out|, MAX_DECOMP))); }
        }
        BlockAdvances(input, at, h, had, out.windowSize);
        done := h.isLast;
      }
    }
    if expected.Some? && |out.out| != expected.value {
      return Err(Framing(SizeMismatch(expected.value, |out.out|)));
    }
    res := Ok(out.out);
  }

  // ---- the two decoders agree ----------------------------------------------------------------------

  lemma {:induction false} OuterExtendsInner(buf: seq<byte>, pos: nat, out: seq<byte>, window: nat)
    requires pos <= BitLen(buf) && Brotli.Inner(buf, pos, out).Ok?
    ensures Outer(buf, pos, out, window) == Ok(Brotli.Inner(buf, pos, out).value)
    decreases BitLen(buf) - pos
  {
    hide HeaderAt, BytesAt;
    HeaderAdvances(buf, pos);
    var (h, p) := HeaderAt(buf, pos).value;
    if !h.isLastEmpty && !(h.mlen == 0 && h.isLast) {
      if h.mlen == 0 {
        OuterExtendsInner(buf, p, out, window);
      } else {
        var (body, q) := RawBytes(buf, Aligned(p), h.mlen).value;
        BlockAdvances(buf, p, h, out, window);
        if !h.isLast { OuterExtendsInner(buf, q, out + body, window); }
      }
    }
  }

  /** On every stream the decoder for uncompressed metablocks accepts, both give the same bytes. */
  lemma OuterAgrees(buf: seq<byte>, expected: Option<nat>)
    requires InnerResult(buf, expected).Ok?
    ensures OuterResult(buf, expected) == Ok(InnerResult(buf, expected).value)
  {
    hide StreamHeaderAt, Brotli.Inner, Outer;
    StreamHeaderAdvances(buf);
    var (wbits, p) := StreamHeaderAt(buf, 0).value;
    OuterExtendsInner(buf, p, [], WindowSize(wbits));
  }

  /** So printing any bytes as uncompressed metablocks round trips through the full decoder. */
  lemma OuterRoundTrip(blocks: seq<seq<byte>>, expected: Option<nat>)
    requires BrotliPrint.Printables(blocks)
    requires |BrotliPrint.Join(blocks)| <= MAX_DECOMP
    requires expected.Some? ==> expected.value == |BrotliPrint.Join(blocks)|
    ensures OuterResult(BrotliPrint.Print(blocks), expected) == Ok(BrotliPrint.Join(blocks))
  {
    BrotliPrint.InnerRoundTrip(blocks, expected);
    OuterAgrees(BrotliPrint.Print(blocks), expected);
  }

  // ---- what any accepted stream produced ----------------------------------------------------------------

  /** The declared lengths of the metablocks that were decoded, added up. */
  function DeclaredLength(buf: seq<byte>, pos: nat, out: seq<byte>, window: nat): nat
    requires pos <= BitLen(buf) && Outer(buf, pos, out, window).Ok?
    decreases BitLen(buf) - pos
  {
    HeaderAdvances(buf, pos);
    var (h, p) := HeaderAt(buf, pos).value;
    if h.isLastEmpty then 0
    else if h.mlen == 0 then if h.isLast then 0 else DeclaredLength(buf, p, out, window)
    else
      BlockAdvances(buf, p, h, out, window);
      var (next, q) := BlockAt(buf, p, h, out, window).value;
      h.mlen + if h.isLast then 0 else DeclaredLength(buf, q, next, window)
  }

  /** The output is as long as the headers say, starts with what was there, and respects the cap. */
  lemma {:induction false} OuterLength(buf: seq<byte>, pos: nat, out: seq<byte>, window: nat)
    requires pos <= BitLen(buf) && Outer(buf, pos, out, window).Ok? && |out| <= MAX_DECOMP
    ensures var r := Outer(buf, pos, out, window).value;
            && |r| == |out| + DeclaredLength(buf, pos, out, window)
            && out <= r && |r| <= MAX_DECOMP
    decreases BitLen(buf) - pos
  {
    hide HeaderAt, BlockAt;
    HeaderAdvances(buf, pos);
    var (h, p) := HeaderAt(buf, pos).value;
    if !h.isLastEmpty && !(h.mlen == 0 && h.isLast) {
      if h.mlen == 0 {
        OuterLength(buf, p, out, window);
      } else {
        BlockAdvances(buf, p, h, out, window);
        var (next, q) := BlockAt(buf, p, h, out, window).value;
        if !h.isLast {
          OuterLength(buf, q, next, window);
          PrefixTransitive(out, next, Outer(buf, q, next, window).value);
        }
      }
    }
  }
}
