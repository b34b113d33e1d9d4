/**
 Brotli stream framing: the metablock headers of section 9.2 of RFC 7932 and
 the decoder for streams of uncompressed metablocks.
 */
module Brotli {
  import opened Bytes
  import opened BitReading

  const MAX_DECOMP: nat := 0x1000_0000

  datatype BrotliError =
    | BitErr(inner: BitError)
    | ReservedWbits(n: nat)
    | CompressedNotSupported(mlen: nat)
    | DecompressionBomb(decoded: nat, cap: nat)
    | SizeMismatch(expected: nat, actual: nat)
    | ReservedBit

  type Read<+T> = Result<(T, nat), BrotliError>

  function Bits(buf: seq<byte>, pos: nat, n: nat): Read<nat> {
    match ReadAt(buf, pos, n)
    case Ok(x) => Ok(x)
    case Err(e) => Err(BitErr(e))
  }

  function RawBytes(buf: seq<byte>, pos: nat, n: nat): Read<seq<byte>> {
    match BytesAt(buf, pos, n)
    case Ok(x) => Ok(x)
    case Err(e) => Err(BitErr(e))
  }

  // ---- headers ---------------------------------------------------------------------

  /** Window size exponent. */
  function StreamHeaderAt(buf: seq<byte>, pos: nat): Read<nat> {
    var (b0, p) :- Bits(buf, pos, 1);
    if b0 == 0 then Ok((16, p))
    else
      var (n3, p) :- Bits(buf, p, 3);
      if n3 != 0 then Ok((17 + n3, p))
      else
        var (n3b, p) :- Bits(buf, p, 3);
        if n3b == 6 then Err(ReservedWbits(n3b))
        else Ok((if n3b == 7 then 17 else 10 + n3b, p))
  }

  /** The window exponent by the table of section 9.1 of RFC 7932. */
  function RfcStreamHeaderAt(buf: seq<byte>, pos: nat): Read<nat> {
    var (b0, p) :- Bits(buf, pos, 1);
    if b0 == 0 then Ok((16, p))
    else
      var (n3, p) :- Bits(buf, p, 3);
      if n3 != 0 then Ok((17 + n3, p))
      else
        var (n3b, p) :- Bits(buf, p, 3);
        if n3b == 1 then Err(ReservedWbits(n3b))
        else Ok((if n3b == 0 then 17 else 8 + n3b, p))
  }

  /** The descriptor takes all seven bits. */
  predicate LongDescriptor(buf: seq<byte>, pos: nat) {
    match Bits(buf, pos, 1)
    case Err(_) => false
    case Ok((b0, p)) =>
      b0 != 0
      && match Bits(buf, p, 3)
         case Err(_) => false
         case Ok((n3, q)) => n3 == 0 && Bits(buf, q, 3).Ok?
  }

  /** The descriptor is read as section 9.1 has it if and only if it does not take seven bits. */
  lemma WindowAgreement(buf: seq<byte>, pos: nat)
    ensures StreamHeaderAt(buf, pos) == RfcStreamHeaderAt(buf, pos) <==> !LongDescriptor(buf, pos)
  {
    hide Bits;
  }

  /** The shortest stream on which they differ: exponent 17 in the standard, 10 here. */
  lemma WindowDiffers()
    ensures StreamHeaderAt([1], 0) == Ok((10, 7)) && RfcStreamHeaderAt([1], 0) == Ok((17, 7))
  {
    SetThenClear();
    hide BitsValue, Bit;
  }

  lemma SetThenClear()
    ensures BitsValue([1], 0, 1) == 1 && BitsValue([1], 1, 3) == 0 && BitsValue([1], 4, 3) == 0
  {
    forall k | 0 <= k < 7
      ensures Bit([1], k) == if k == 0 then 1 else 0
    {
      if k > 0 { ZeroBits(k - 1); }
    }
    hide Bit;
    assert BitsValue([1], 3, 1) == 0 && BitsValue([1], 2, 2) == 0;
    assert BitsValue([1], 6, 1) == 0 && BitsValue([1], 5, 2) == 0;
  }

  datatype Header = Header(isLast: bool, isLastEmpty: bool, isUncompressed: bool, mlen: nat)

  function HeaderAt(buf: seq<byte>, pos: nat): Read<Header> {
    var (last, p) :- Bits(buf, pos, 1);
    if last != 0 then
      var (empty, p) :- Bits(buf, p, 1);
      if empty != 0 then Ok((Header(true, true, false, 0), p)) else HeaderRest(buf, p, true)
    else HeaderRest(buf, p, false)
  }

  function HeaderRest(buf: seq<byte>, pos: nat, isLast: bool): Read<Header> {
    var (code, p) :- Bits(buf, pos, 2);
    if code == 3 then SkipRegion(buf, p, isLast)
    else
      var (mlen1, p) :- Bits(buf, p, 4 * (4 + code));
      if isLast then Ok((Header(true, false, false, mlen1 + 1), p))
      else
        var (unc, p) :- Bits(buf, p, 1);
        Ok((Header(false, false, unc != 0, mlen1 + 1), p))
  }

  /** A metablock without data: its bytes are stepped over. */
  function SkipRegion(buf: seq<byte>, pos: nat, isLast: bool): Read<Header> {
    var (reserved, p) :- Bits(buf, pos, 1);
    if reserved != 0 then Err(ReservedBit)
    else
      var (skipLen, p) :- Bits(buf, p, 2);
      var (skip, p) :- if skipLen == 0 then Ok((0, p)) else SkipCount(buf, p, skipLen);
      var (_, p) :- RawBytes(buf, Aligned(p), skip);
      Ok((Header(isLast, false, true, 0), p))
  }

  function SkipCount(buf: seq<byte>, pos: nat, skipLen: nat): Read<nat> {
    var (n, p) :- Bits(buf, pos, 8 * skipLen);
    Ok((n + 1, p))
  }

  /** Reading moves forward and stays within the stream. */
  lemma BitsAdvance(buf: seq<byte>, pos: nat, n: nat)
    requires pos <= BitLen(buf) && Bits(buf, pos, n).Ok?
    ensures pos + n == Bits(buf, pos, n).value.1 <= BitLen(buf)
    ensures Bits(buf, pos, n).value.0 < Pow2(n)
  {
  }

  /** Every metablock header takes at least two bits. */
  lemma HeaderAdvances(buf: seq<byte>, pos: nat)
    requires pos <= BitLen(buf) && HeaderAt(buf, pos).Ok?
    ensures pos + 2 <= HeaderAt(buf, pos).value.1 <= BitLen(buf)
    ensures HeaderAt(buf, pos).value.0.mlen <= 0x100_0000
  {
    hide BitsValue;
    assert Pow2(24) == 0x100_0000 by { Pow2Sixteen(); }
    var p := Bits(buf, pos, 1).value.1;
    if Bits(buf, pos, 1).value.0 != 0 {
      var p' := Bits(buf, p, 1).value.1;
      if Bits(buf, p, 1).value.0 == 0 { RestAdvances(buf, p', true); }
    } else {
      RestAdvances(buf, p, false);
    }
  }

  lemma Pow2Sixteen()
    ensures Pow2(16) == 0x1_0000 && Pow2(20) == 0x10_0000 && Pow2(24) == 0x100_0000
    ensures Pow2(2) == 4
  {
    assert Pow2(4) == 16;
    assert Pow2(8) == 256;
    assert Pow2(12) == 4096;
  }

  lemma RestAdvances(buf: seq<byte>, pos: nat, isLast: bool)
    requires pos <= BitLen(buf) && HeaderRest(buf, pos, isLast).Ok?
    ensures pos + 2 <= HeaderRest(buf, pos, isLast).value.1 <= BitLen(buf)
    ensures HeaderRest(buf, pos, isLast).value.0.mlen <= 0x100_0000
  {
    hide Bits, SkipRegion, Pow2;
    Pow2Sixteen();
    BitsAdvance(buf, pos, 2);
    var (code, p) := Bits(buf, pos, 2).value;
    if code == 3 {
      SkipAdvances(buf, p, isLast);
    } else {
      SmallCode(code);
      BitsAdvance(buf, p, 4 * (4 + code));
      if !isLast { BitsAdvance(buf, p + 4 * (4 + code), 1); }
    }
  }

  lemma SmallCode(code: nat)
    requires code < Pow2(2) && code != 3
    ensures Pow2(4 * (4 + code)) <= Pow2(24)
  {
    assert Pow2(2) == 4;
    Pow2Monotone(4 * (4 + code), 24);
  }

  lemma SkipAdvances(buf: seq<byte>, pos: nat, isLast: bool)
    requires pos <= BitLen(buf) && SkipRegion(buf, pos, isLast).Ok?
    ensures pos <= SkipRegion(buf, pos, isLast).value.1 <= BitLen(buf)
    ensures SkipRegion(buf, pos, isLast).value.0.mlen == 0
  {
    hide BitsValue;
  }

  method ReadHeader(r: BitReader) returns (h: Result<Header, BrotliError>)
    modifies r
    ensures match HeaderAt(r.buf, old(r.bitPos))
            case Ok((x, p)) => h == Ok(x) && r.bitPos == p
            case Err(e) => h == Err(e)
  {
    hide ReadAt, BytesAt;
    var last := Take(r, 1);
    if last.Err? { return Err(last.error); }
    if last.value != 0 {
      var empty := Take(r, 1);
      if empty.Err? { return Err(empty.error); }
      if empty.value != 0 {
        return Ok(Header(true, true, false, 0));
      }
    }
    var isLast := last.value != 0;
    var code := Take(r, 2);
    if code.Err? { return Err(code.error); }
    if code.value == 3 {
      var reserved := Take(r, 1);
      if reserved.Err? { return Err(reserved.error); }
      if reserved.value != 0 { return Err(ReservedBit); }
      var skipLen := Take(r, 2);
      if skipLen.Err? { return Err(skipLen.error); }
      var skip := 0;
      if skipLen.value != 0 {
        var n := Take(r, 8 * skipLen.value);
        if n.Err? { return Err(n.error); }
        skip := n.value + 1;
      }
      r.AlignToByte();
      var ignored := r.ReadAlignedBytes(skip);
      if ignored.Err? { return Err(BitErr(ignored.error)); }
      return Ok(Header(isLast, false, true, 0));
    }
    var mlen1 := Take(r, 4 * (4 + code.value));
    if mlen1.Err? { return Err(mlen1.error); }
    if isLast {
      return Ok(Header(true, false, false, mlen1.value + 1));
    }
    var unc := Take(r, 1);
    if unc.Err? { return Err(unc.error); }
    return Ok(Header(false, false, unc.value != 0, mlen1.value + 1));
  }

  method Take(r: BitReader, n: nat) returns (v: Result<nat, BrotliError>)
    modifies r
    ensures match Bits(r.buf, old(r.bitPos), n)
            case Ok((x, p)) => v == Ok(x) && r.bitPos == p
            case Err(e) => v == Err(e)
  {
    var b := r.ReadBits(n);
    match b
    case Ok(x) => v := Ok(x);
    case Err(e) => v := Err(BitErr(e));
  }

  method ReadStreamHeader(r: BitReader) returns (h: Result<nat, BrotliError>)
    modifies r
    ensures match StreamHeaderAt(r.buf, old(r.bitPos))
            case Ok((x, p)) => h == Ok(x) && r.bitPos == p
            case Err(e) => h == Err(e)
  {
    hide ReadAt;
    var b0 := Take(r, 1);
    if b0.Err? { return Err(b0.error); }
    if b0.value == 0 { return Ok(16); }
    var n3 := Take(r, 3);
    if n3.Err? { return Err(n3.error); }
    if n3.value != 0 { return Ok(17 + n3.value); }
    var n3b := Take(r, 3);
    if n3b.Err? { return Err(n3b.error); }
    if n3b.value == 6 { return Err(ReservedWbits(n3b.value)); }
    return Ok(if n3b.value == 7 then 17 else 10 + n3b.value);
  }

  // ---- streams of uncompressed metablocks -------------------------------------------------

  /** The rest of the decoding, from bit `pos` with `out` already produced. */
  function Inner(buf: seq<byte>, pos: nat, out: seq<byte>): Result<seq<byte>, BrotliError>
    requires pos <= BitLen(buf)
    decreases BitLen(buf) - pos
  {
    var (h, p) :- HeaderAt(buf, pos);
    HeaderAdvances(buf, pos);
    if h.isLastEmpty then Ok(out)
    else if h.mlen == 0 then if h.isLast then Ok(out) else Inner(buf, p, out)
    else if !h.isUncompressed then Err(CompressedNotSupported(h.mlen))
    else
      var (body, p) :- RawBytes(buf, Aligned(p), h.mlen);
      if |out| + |body| > MAX_DECOMP then Err(DecompressionBomb(|out| + |body|, MAX_DECOMP))
      else if h.isLast then Ok(out + body)
      else Inner(buf, p, out + body)
  }

  /** The caller's declared size is checked before and after decoding. */
  function Declared(expected: Option<nat>): Option<BrotliError> {
    if expected.Some? && expected.value > MAX_DECOMP then Some(DecompressionBomb(expected.value, MAX_DECOMP)) else None
  }

  function Sized(r: Result<seq<byte>, BrotliError>, expected: Option<nat>): Result<seq<byte>, BrotliError> {
    if r.Ok? && expected.Some? && |r.value| != expected.value
    then Err(SizeMismatch(expected.value, |r.value|))
    else r
  }

  function InnerResult(buf: seq<byte>, expected: Option<nat>): Result<seq<byte>, BrotliError> {
    if Declared(expected).Some? then Err(Declared(expected).value)
    else
      var (_, p) :- StreamHeaderAt(buf, 0);
      StreamHeaderAdvances(buf);
      Sized(Inner(buf, p, []), expected)
  }

  lemma StreamHeaderAdvances(buf: seq<byte>)
    requires StreamHeaderAt(buf, 0).Ok?
    ensures 1 <= StreamHeaderAt(buf, 0).value.1 <= BitLen(buf)
    ensures 10 <= StreamHeaderAt(buf, 0).value.0 <= 24
  {
    hide BitsValue;
    assert Pow2(3) == 8;
  }

  method DecompressInner(input: seq<byte>, expected: Option<nat>) returns (res: Result<seq<byte>, BrotliError>)
    ensures res == InnerResult(input, expected)
  {
    hide HeaderAt, StreamHeaderAt, BytesAt;
    if expected.Some? && expected.value > MAX_DECOMP {
      return Err(DecompressionBomb(expected.value, MAX_DECOMP));
    }
    var r := new BitReader(input);
    var hdr := ReadStreamHeader(r);
    if hdr.Err? { return Err(hdr.error); }
    StreamHeaderAdvances(input);
    var out: seq<byte> := [];
    ghost var want := Inner(input, r.bitPos, []);
    var done := false;
    while !done
      invariant r.buf == input && r.bitPos <= BitLen(input)
      invariant if done then want == Ok(out) else want == Inner(input, r.bitPos, out)
      decreases !done, BitLen(input) - r.bitPos
    {
      ghost var pos := r.bitPos;
      var mb := ReadHeader(r);
      if mb.Err? { return Err(mb.error); }
      HeaderAdvances(input, pos);
      var h := mb.value;
      if h.isLastEmpty {
        done := true;
      } else if h.mlen == 0 {
        done := h.isLast;
      } else {
        if !h.isUncompressed { return Err(CompressedNotSupported(h.mlen)); }
        r.AlignToByte();
        var body := r.ReadAlignedBytes(h.mlen);
        if body.Err? { return Err(BitErr(body.error)); }
        BytesAdvance(input, Aligned(HeaderAt(input, pos).value.1), h.mlen);
        if |out| + |body.value| > MAX_DECOMP {
          return Err(DecompressionBomb(|out| + |body.value|, MAX_DECOMP));
        }
        out := out + body.value;
        done := h.isLast;
      }
    }
    if expected.Some? && |out| != expected.value {
      return Err(SizeMismatch(expected.value, |out|));
    }
    res := Ok(out);
  }

  lemma BytesAdvance(buf: seq<byte>, pos: nat, n: nat)
    requires BytesAt(buf, pos, n).Ok?
    ensures pos <= BytesAt(buf, pos, n).value.1 <= BitLen(buf)
    ensures |BytesAt(buf, pos, n).value.0| == n
  {
  }
}
