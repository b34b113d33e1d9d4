/**
 The Brotli bit reader: bits are taken from each byte least significant first
 (section 1.5.1 of RFC 7932) and the reader works in chunks of up to a byte.
 */
module BitReading {
  import opened Bytes

  datatype BitError = UnexpectedEof | TooManyBits(n: nat)

  // ---- the stream as bits ------------------------------------------------------------

  function BitLen(buf: seq<byte>): nat {
    8 * |buf|
  }

  function Bit(buf: seq<byte>, k: nat): (b: nat)
    requires k < BitLen(buf)
    ensures b <= 1
  {
    if BitOf(buf[k / 8], k % 8) then 1 else 0
  }

  /** The next `n` bits weighted by powers of two, first bit lightest. */
  function BitsValue(buf: seq<byte>, pos: nat, n: nat): (v: nat)
    requires pos + n <= BitLen(buf)
    ensures v < Pow2(n)
    decreases n
  {
    if n == 0 then 0 else Bit(buf, pos) + 2 * BitsValue(buf, pos + 1, n - 1)
  }

  /** What a read of `n` bits at `pos` gives, with the position after it. */
  function ReadAt(buf: seq<byte>, pos: nat, n: nat): Result<(nat, nat), BitError> {
    if n > 32 then Err(TooManyBits(n))
    else if n == 0 then Ok((0, pos))
    else if pos + n > BitLen(buf) then Err(UnexpectedEof)
    else Ok((BitsValue(buf, pos, n), pos + n))
  }

  /** A reader that takes one bit at a time. */
  function BitByBit(buf: seq<byte>, pos: nat, n: nat): Option<(nat, nat)>
    decreases n
  {
    if n == 0 then Some((0, pos))
    else if pos >= BitLen(buf) then None
    else match BitByBit(buf, pos + 1, n - 1)
      case None => None
      case Some((v, p)) => Some((Bit(buf, pos) + 2 * v, p))
  }

  lemma {:induction false} ReadIsBitByBit(buf: seq<byte>, pos: nat, n: nat)
    requires n <= 32 && pos <= BitLen(buf)
    ensures match ReadAt(buf, pos, n)
            case Ok(x) => BitByBit(buf, pos, n) == Some(x)
            case Err(e) => e == UnexpectedEof && BitByBit(buf, pos, n) == None
    decreases n
  {
    if n > 0 && pos < BitLen(buf) {
      ReadIsBitByBit(buf, pos + 1, n - 1);
    }
  }

  lemma {:induction false} BitsSplit(buf: seq<byte>, pos: nat, a: nat, b: nat)
    requires pos + a + b <= BitLen(buf)
    ensures BitsValue(buf, pos, a + b) == BitsValue(buf, pos, a) + Pow2(a) * BitsValue(buf, pos + a, b)
    decreases a
  {
    hide Bit;
    if a > 0 {
      BitsSplit(buf, pos + 1, a - 1, b);
      var low, high := BitsValue(buf, pos + 1, a - 1), BitsValue(buf, pos + a, b);
      assert BitsValue(buf, pos, a + b) == Bit(buf, pos) + 2 * (low + Pow2(a - 1) * high);
      assert BitsValue(buf, pos, a) == Bit(buf, pos) + 2 * low;
      MulAssoc(2, Pow2(a - 1), high);
    }
  }

  lemma NoBits(buf: seq<byte>, pos: nat)
    requires pos <= BitLen(buf)
    ensures BitsValue(buf, pos, 0) == 0
  {
  }

  /** Reading a bits and then b bits is reading a + b bits and splitting the number. */
  lemma TwoReads(buf: seq<byte>, pos: nat, a: nat, b: nat)
    requires a + b <= 32 && ReadAt(buf, pos, a + b).Ok?
    ensures ReadAt(buf, pos, a).Ok? && ReadAt(buf, pos + a, b).Ok?
    ensures var v := ReadAt(buf, pos, a + b).value.0;
            && ReadAt(buf, pos, a).value.0 == v % Pow2(a)
            && ReadAt(buf, pos + a, b).value.0 == v / Pow2(a)
            && ReadAt(buf, pos + a, b).value.1 == ReadAt(buf, pos, a + b).value.1
  {
    if a + b > 0 {
      BitsSplit(buf, pos, a, b);
      ModUnique(BitsValue(buf, pos, a + b), Pow2(a), BitsValue(buf, pos + a, b), BitsValue(buf, pos, a));
    }
  }

  // ---- word operations ------------------------------------------------------------------

  /** `x >> k` */
  function Shr(x: nat, k: nat): nat
    decreases k
  {
    if k == 0 then x else Shr(x / 2, k - 1)
  }

  /** `x & ((1 << k) - 1)` */
  function Low(x: nat, k: nat): (r: nat)
    ensures r < Pow2(k)
    decreases k
  {
    if k == 0 then 0 else x % 2 + 2 * Low(x / 2, k - 1)
  }

  /** `x << k` */
  function Shl(x: nat, k: nat): nat {
    Pow2(k) * x
  }

  /** `x | y` */
  function Or(x: nat, y: nat): nat
    decreases x + y
  {
    if x == 0 then y
    else if y == 0 then x
    else (if x % 2 == 1 || y % 2 == 1 then 1 else 0) + 2 * Or(x / 2, y / 2)
  }

  lemma {:induction false} OrDisjoint(x: nat, y: nat, k: nat)
    requires x < Pow2(k)
    ensures Or(x, Shl(y, k)) == x + Shl(y, k)
    decreases k
  {
    var z := Shl(y, k);
    if x > 0 && z > 0 {
      MulAssoc(2, Pow2(k - 1), y);
      OrDisjoint(x / 2, y, k - 1);
    }
  }

  lemma {:induction false} ShrStep(x: nat, k: nat)
    ensures Shr(x, k) / 2 == Shr(x, k + 1)
    ensures (Shr(x, k) % 2 == 1) == BitOf(x, k)
    decreases k
  {
    if k > 0 { ShrStep(x / 2, k - 1); }
  }

  lemma NextInByte(pos: nat)
    requires pos % 8 < 7
    ensures (pos + 1) / 8 == pos / 8 && (pos + 1) % 8 == pos % 8 + 1
  {
  }

  /** Bits that lie within one byte. */
  lemma {:induction false} BitsInByte(buf: seq<byte>, pos: nat, n: nat)
    requires pos + n <= BitLen(buf) && n > 0 && pos % 8 + n <= 8
    ensures BitsValue(buf, pos, n) == Low(Shr(buf[pos / 8], pos % 8), n)
    decreases n
  {
    hide Shr, BitOf, Pow2;
    ShrStep(buf[pos / 8], pos % 8);
    if n > 1 {
      NextInByte(pos);
      BitsInByte(buf, pos + 1, n - 1);
    }
  }

  // ---- the reader --------------------------------------------------------------------------

  class BitReader {
    const buf: seq<byte>
    var bitPos: nat

    constructor (b: seq<byte>)
      ensures buf == b && bitPos == 0
    {
      buf := b;
      bitPos := 0;
    }

    method ReadBits(n: nat) returns (r: Result<nat, BitError>)
      modifies this
      ensures match ReadAt(buf, old(bitPos), n)
              case Ok((v, p)) => r == Ok(v) && bitPos == p
              case Err(e) => r == Err(e) && bitPos == old(bitPos)
    {
      hide BitsValue, Or, Shr, Low, Pow2;
      if n > 32 {
        return Err(TooManyBits(n));
      }
      if n == 0 {
        return Ok(0);
      }
      if bitPos + n > BitLen(buf) {
        return Err(UnexpectedEof);
      }
      ghost var start := bitPos;
      var value, taken := 0, 0;
      NoBits(buf, start);
      while taken < n
        invariant 0 <= taken <= n && bitPos == start + taken && start + n <= BitLen(buf)
        invariant value == BitsValue(buf, start, taken)
      {
        var b := buf[bitPos / 8];
        var bitInByte := bitPos % 8;
        var avail := 8 - bitInByte;
        var take := if avail < n - taken then avail else n - taken;
        var chunk := Low(Shr(b, bitInByte), take);
        BitsInByte(buf, bitPos, take);
        BitsSplit(buf, start, taken, take);
        OrDisjoint(value, chunk, taken);
        value := Or(value, Shl(chunk, taken));
        taken := taken + take;
        bitPos := bitPos + take;
      }
      r := Ok(value);
    }

    method AlignToByte()
      modifies this
      ensures bitPos == Aligned(old(bitPos))
    {
      var rem := bitPos % 8;
      if rem != 0 {
        bitPos := bitPos + (8 - rem);
      }
    }

    method ReadAlignedBytes(n: nat) returns (r: Result<seq<byte>, BitError>)
      modifies this
      ensures match BytesAt(buf, old(bitPos), n)
              case Ok((s, p)) => r == Ok(s) && bitPos == p
              case Err(e) => r == Err(e) && bitPos == old(bitPos)
    {
      if bitPos % 8 != 0 {
        return Err(UnexpectedEof);
      }
      var start := bitPos / 8;
      if start + n > |buf| {
        return Err(UnexpectedEof);
      }
      bitPos := 8 * (start + n);
      r := Ok(buf[start..start + n]);
    }
  }

  /** The next byte boundary. */
  function Aligned(pos: nat): (p: nat)
    ensures p >= pos && p % 8 == 0 && p < pos + 8
  {
    if pos % 8 == 0 then pos else pos + (8 - pos % 8)
  }

  function BytesAt(buf: seq<byte>, pos: nat, n: nat): Result<(seq<byte>, nat), BitError> {
    if pos % 8 != 0 || pos / 8 + n > |buf| then Err(UnexpectedEof)
    else Ok((buf[pos / 8..pos / 8 + n], 8 * (pos / 8 + n)))
  }
}
