/**
 Printing bytes as a Brotli stream of uncompressed metablocks (section 9.2 of
 RFC 7932), as a partner for the decoder.
 */
module BrotliPrint {
  import opened Bytes
  import opened BitReading
  import opened Brotli

  // ---- bit strings -----------------------------------------------------------------

  function NatOf(bits: seq<bool>): (v: nat)
    ensures v < Pow2(|bits|)
  {
    if bits == [] then 0 else (if bits[0] then 1 else 0) + 2 * NatOf(bits[1..])
  }

  function BitsOf(v: nat, n: nat): (bits: seq<bool>)
    ensures |bits| == n
    decreases n
  {
    if n == 0 then [] else [v % 2 == 1] + BitsOf(v / 2, n - 1)
  }

  lemma {:induction false} NatOfBitsOf(v: nat, n: nat)
    requires v < Pow2(n)
    ensures NatOf(BitsOf(v, n)) == v
    decreases n
  {
    if n > 0 {
      NatOfBitsOf(v / 2, n - 1);
      assert BitsOf(v, n)[1..] == BitsOf(v / 2, n - 1);
    }
  }

  lemma {:induction false} BitOfNatOf(bits: seq<bool>, k: nat)
    requires k < |bits|
    ensures BitOf(NatOf(bits), k) == bits[k]
    decreases k
  {
    if k > 0 {
      BitOfNatOf(bits[1..], k - 1);
      assert NatOf(bits) / 2 == NatOf(bits[1..]);
    }
  }

  function PackByte(bits: seq<bool>): byte
    requires |bits| <= 8
  {
    Pow2Monotone(|bits|, 8);
    NatOf(bits)
  }

  /** Bits packed into bytes, the last byte filled with zeros. */
  function Pack(bits: seq<bool>): (s: seq<byte>)
    ensures |s| == (|bits| + 7) / 8
  {
    if |bits| <= 8 then (if bits == [] then [] else [PackByte(bits)])
    else [PackByte(bits[..8])] + Pack(bits[8..])
  }

  lemma {:induction false} PackedBit(bits: seq<bool>, k: nat)
    requires k < |bits|
    ensures k / 8 < |Pack(bits)| && BitOf(Pack(bits)[k / 8], k % 8) == bits[k]
    decreases |bits|
  {
    if |bits| <= 8 {
      BitOfNatOf(bits, k);
    } else if k < 8 {
      BitOfNatOf(bits[..8], k);
    } else {
      PackedBit(bits[8..], k - 8);
      assert Pack(bits)[k / 8] == Pack(bits[8..])[k / 8 - 1];
      assert (k - 8) / 8 == k / 8 - 1 && (k - 8) % 8 == k % 8;
    }
  }

  /** The bits found from bit `pos` of a stream on. */
  ghost predicate BitsAt(buf: seq<byte>, pos: nat, bits: seq<bool>) {
    && pos + |bits| <= BitLen(buf)
    && forall k | 0 <= k < |bits| :: (Bit(buf, pos + k) == 1) == bits[k]
  }

  lemma PackedAt(done: seq<byte>, bits: seq<bool>, rest: seq<byte>)
    ensures BitsAt(done + Pack(bits) + rest, 8 * |done|, bits)
  {
    var buf := done + Pack(bits) + rest;
    forall k | 0 <= k < |bits|
      ensures (Bit(buf, 8 * |done| + k) == 1) == bits[k]
    {
      PackedBit(bits, k);
      assert (8 * |done| + k) / 8 == |done| + k / 8 && (8 * |done| + k) % 8 == k % 8;
      assert buf[|done| + k / 8] == Pack(bits)[k / 8];
    }
  }

  lemma BitsAtDrop(buf: seq<byte>, pos: nat, bits: seq<bool>, n: nat)
    requires BitsAt(buf, pos, bits) && n <= |bits|
    ensures BitsAt(buf, pos + n, bits[n..])
  {
    forall k | 0 <= k < |bits[n..]|
      ensures (Bit(buf, pos + n + k) == 1) == bits[n..][k]
    {
      assert (Bit(buf, pos + (n + k)) == 1) == bits[n + k];
    }
  }

  lemma {:induction false} ValueOfBits(buf: seq<byte>, pos: nat, bits: seq<bool>, n: nat)
    requires BitsAt(buf, pos, bits) && n <= |bits|
    ensures pos + n <= BitLen(buf) && BitsValue(buf, pos, n) == NatOf(bits[..n])
    decreases n
  {
    if n > 0 {
      assert (Bit(buf, pos + 0) == 1) == bits[0];
      BitsAtDrop(buf, pos, bits, 1);
      ValueOfBits(buf, pos + 1, bits[1..], n - 1);
      assert bits[..n][1..] == bits[1..][..n - 1];
    }
  }

  /** Reading a number that was printed with `n` bits. */
  lemma ReadNumber(buf: seq<byte>, pos: nat, v: nat, n: nat, more: seq<bool>)
    requires v < Pow2(n) && 0 < n <= 32 && BitsAt(buf, pos, BitsOf(v, n) + more)
    ensures Bits(buf, pos, n) == Ok((v, pos + n)) && BitsAt(buf, pos + n, more)
  {
    var bits := BitsOf(v, n) + more;
    ValueOfBits(buf, pos, bits, n);
    assert bits[..n] == BitsOf(v, n);
    NatOfBitsOf(v, n);
    BitsAtDrop(buf, pos, bits, n);
    assert bits[n..] == more;
  }

  // ---- printed streams ---------------------------------------------------------------------

  predicate Printable(block: seq<byte>) {
    0 < |block| <= 0x100_0000
  }

  predicate Printables(blocks: seq<seq<byte>>) {
    forall i | 0 <= i < |blocks| :: Printable(blocks[i])
  }

  function NibbleCode(mlen: nat): (c: nat)
    requires 0 < mlen <= 0x100_0000
    ensures c <= 2
  {
    if mlen <= 0x1_0000 then 0 else if mlen <= 0x10_0000 then 1 else 2
  }

  /** Not last, size of the length, length less one, uncompressed or not. */
  function HeaderBits(mlen: nat, raw: bool): seq<bool>
    requires 0 < mlen <= 0x100_0000
  {
    var c := NibbleCode(mlen);
    BitsOf(0, 1) + (BitsOf(c, 2) + (BitsOf(mlen - 1, 4 * (4 + c)) + (BitsOf(if raw then 1 else 0, 1) + [])))
  }

  /** Last, and empty. */
  function EndBits(): seq<bool> {
    BitsOf(1, 1) + (BitsOf(1, 1) + [])
  }

  /** The smallest window descriptor. */
  function WindowBits(): seq<bool> {
    BitsOf(0, 1)
  }

  /** Blocks printed after some bits that precede the first header in its byte. */
  function PrintFrom(lead: seq<bool>, blocks: seq<seq<byte>>): seq<byte>
    requires Printables(blocks)
    decreases |blocks|
  {
    if blocks == [] then Pack(lead + EndBits())
    else Pack(lead + HeaderBits(|blocks[0]|, true)) + (blocks[0] + PrintFrom([], blocks[1..]))
  }

  /** A whole stream: window size 16, then the blocks, then the empty last metablock. */
  function Print(blocks: seq<seq<byte>>): seq<byte>
    requires Printables(blocks)
  {
    PrintFrom(WindowBits(), blocks)
  }

  function Join(blocks: seq<seq<byte>>): seq<byte> {
    if blocks == [] then [] else blocks[0] + Join(blocks[1..])
  }

  /** Decoding a printed header. */
  lemma ReadPrintedHeader(buf: seq<byte>, pos: nat, mlen: nat, raw: bool)
    requires 0 < mlen <= 0x100_0000 && BitsAt(buf, pos, HeaderBits(mlen, raw))
    ensures HeaderAt(buf, pos) == Ok((Header(false, false, raw, mlen), pos + |HeaderBits(mlen, raw)|))
  {
    hide BitsOf, BitsAt, Bits;
    var c := NibbleCode(mlen);
    var w, u := 4 * (4 + c), if raw then 1 else 0;
    Pow2Sixteen();
    assert Pow2(1) == 2;
    ReadNumber(buf, pos, 0, 1, BitsOf(c, 2) + (BitsOf(mlen - 1, w) + (BitsOf(u, 1) + [])));
    ReadNumber(buf, pos + 1, c, 2, BitsOf(mlen - 1, w) + (BitsOf(u, 1) + []));
    ReadNumber(buf, pos + 3, mlen - 1, w, BitsOf(u, 1) + []);
    ReadNumber(buf, pos + 3 + w, u, 1, []);
  }

  lemma ReadPrintedEnd(buf: seq<byte>, pos: nat)
    requires BitsAt(buf, pos, EndBits())
    ensures HeaderAt(buf, pos) == Ok((Header(true, true, false, 0), pos + 2))
  {
    hide BitsOf, BitsAt, Bits;
    assert Pow2(1) == 2;
    ReadNumber(buf, pos, 1, 1, BitsOf(1, 1) + []);
    ReadNumber(buf, pos + 1, 1, 1, []);
  }

  /** Where the bytes behind a packed header start. */
  lemma HeaderEnds(done: seq<byte>, lead: seq<bool>, bits: seq<bool>)
    ensures Aligned(8 * |done| + |lead| + |bits|) == 8 * |done + Pack(lead + bits)|
  {
  }

  /** Packed bits are found behind the bits that lead them. */
  lemma LedBits(done: seq<byte>, lead: seq<bool>, bits: seq<bool>, rest: seq<byte>, buf: seq<byte>)
    requires buf == done + Pack(lead + bits) + rest
    ensures 8 * |done| + |lead| + |bits| <= BitLen(buf)
    ensures BitsAt(buf, 8 * |done| + |lead|, bits)
  {
    PackedAt(done, lead + bits, rest);
    hide Pack, Bit;
    BitsAtDrop(buf, 8 * |done|, lead + bits, |lead|);
    assert (lead + bits)[|lead|..] == bits;
  }

  /** One printed header and its block, read back by one step of the decoder. */
  lemma StepReadsBlock(done: seq<byte>, lead: seq<bool>, b: seq<byte>, more: seq<byte>)
    requires Printable(b)
    ensures var head := done + Pack(lead + HeaderBits(|b|, true));
            var buf := head + (b + more);
            var pos := 8 * |done| + |lead|;
            && pos <= BitLen(buf)
            && HeaderAt(buf, pos) == Ok((Header(false, false, true, |b|), pos + |HeaderBits(|b|, true)|))
            && Aligned(pos + |HeaderBits(|b|, true)|) == 8 * |head|
            && RawBytes(buf, 8 * |head|, |b|) == Ok((b, 8 * |head + b|))
  {
    hide BitsAt, HeaderAt, HeaderBits, BitsOf, Pack;
    var bits := HeaderBits(|b|, true);
    var head := done + Pack(lead + bits);
    var buf := head + (b + more);
    var pos := 8 * |done| + |lead|;
    LedBits(done, lead, bits, b + more, buf);
    ReadPrintedHeader(buf, pos, |b|, true);
    HeaderEnds(done, lead, bits);
    assert buf[|head|..|head| + |b|] == b;
  }

  /** The printed end of the stream. */
  lemma StepReadsEnd(done: seq<byte>, lead: seq<bool>, buf: seq<byte>)
    requires buf == done + Pack(lead + EndBits())
    ensures var pos := 8 * |done| + |lead|;
            && pos <= BitLen(buf)
            && HeaderAt(buf, pos) == Ok((Header(true, true, false, 0), pos + 2))
  {
    hide *;
    assert buf == done + Pack(lead + EndBits()) + [];
    LedBits(done, lead, EndBits(), [], buf);
    ReadPrintedEnd(buf, 8 * |done| + |lead|);
  }

  lemma {:induction false} InnerReadsPrinted(done: seq<byte>, lead: seq<bool>, blocks: seq<seq<byte>>, out: seq<byte>)
    requires Printables(blocks)
    requires |out| + |Join(blocks)| <= MAX_DECOMP
    ensures var buf := done + PrintFrom(lead, blocks);
            && 8 * |done| + |lead| <= BitLen(buf)
            && Inner(buf, 8 * |done| + |lead|, out) == Ok(out + Join(blocks))
    decreases |blocks|
  {
    hide HeaderAt, HeaderBits, EndBits, Pack, RawBytes, Aligned;
    if blocks == [] {
      StepReadsEnd(done, lead, done + PrintFrom(lead, blocks));
      assert out + Join(blocks) == out;
    } else {
      var b, more := blocks[0], PrintFrom([], blocks[1..]);
      var head := done + Pack(lead + HeaderBits(|b|, true));
      StepReadsBlock(done, lead, b, more);
      assert head + (b + more) == done + PrintFrom(lead, blocks);
      assert head + (b + more) == (head + b) + more;
      InnerReadsPrinted(head + b, [], blocks[1..], out + b);
      assert (out + b) + Join(blocks[1..]) == out + Join(blocks);
    }
  }

  /**
   Any byte string within the cap, cut into blocks in any way and printed as
   uncompressed metablocks, decodes to itself.
   */
  lemma InnerRoundTrip(blocks: seq<seq<byte>>, expected: Option<nat>)
    requires Printables(blocks)
    requires |Join(blocks)| <= MAX_DECOMP
    requires expected.Some? ==> expected.value == |Join(blocks)|
    ensures InnerResult(Print(blocks), expected) == Ok(Join(blocks))
  {
    hide *;
    PrintedInner(blocks);
    ReadPrintedWindow(blocks);
    InnerByParts(Print(blocks), expected, Join(blocks));
  }

  lemma PrintedInner(blocks: seq<seq<byte>>)
    requires Printables(blocks) && |Join(blocks)| <= MAX_DECOMP
    ensures |WindowBits()| == 1 <= BitLen(Print(blocks)) && Inner(Print(blocks), 1, []) == Ok(Join(blocks))
  {
    hide PrintFrom, Inner, Join;
    var lead := WindowBits();
    assert [] + PrintFrom(lead, blocks) == Print(blocks);
    assert [] + Join(blocks) == Join(blocks);
    InnerReadsPrinted([], lead, blocks, []);
  }

  lemma InnerByParts(buf: seq<byte>, expected: Option<nat>, out: seq<byte>)
    requires StreamHeaderAt(buf, 0) == Ok((16, 1)) && 1 <= BitLen(buf) && Inner(buf, 1, []) == Ok(out)
    requires expected.Some? ==> expected.value == |out| <= MAX_DECOMP
    ensures InnerResult(buf, expected) == Ok(out)
  {
    hide Inner, StreamHeaderAt;
  }

  /** The first bit of a printed stream selects the 16-bit window. */
  lemma ReadPrintedWindow(blocks: seq<seq<byte>>)
    requires Printables(blocks)
    ensures StreamHeaderAt(Print(blocks), 0) == Ok((16, |WindowBits()|))
  {
    LeadBits(blocks);
    hide Print, BitsAt, BitsOf, Bits;
    assert Pow2(1) == 2;
    ReadNumber(Print(blocks), 0, 0, 1, []);
  }

  lemma LeadBits(blocks: seq<seq<byte>>)
    requires Printables(blocks)
    ensures BitsAt(Print(blocks), 0, BitsOf(0, 1) + [])
  {
    hide BitsOf, HeaderBits, EndBits, Pack, Bit;
    var lead := WindowBits();
    var tail := if blocks == [] then EndBits() else HeaderBits(|blocks[0]|, true);
    var rest := if blocks == [] then [] else blocks[0] + PrintFrom([], blocks[1..]);
    PackedAt([], lead + tail, rest);
    assert [] + Pack(lead + tail) + rest == Print(blocks);
    BitsAtTake(Print(blocks), 0, lead + tail, |lead|);
    assert (lead + tail)[..|lead|] == lead + [];
  }

  lemma BitsAtTake(buf: seq<byte>, pos: nat, bits: seq<bool>, n: nat)
    requires BitsAt(buf, pos, bits) && n <= |bits|
    ensures BitsAt(buf, pos, bits[..n])
  {
    assert forall k | 0 <= k < n :: bits[..n][k] == bits[k];
  }
}
