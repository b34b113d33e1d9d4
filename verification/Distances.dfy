/**
 Brotli distance codes without postfix bits or direct codes: the four recent
 distances and the ranges of section 4 of RFC 7932.
 */
module Distances {
  import opened Bytes
  import opened BitReading
  import opened Brotli
  import opened Commands

  const RING_INIT: seq<nat> := [4, 11, 15, 16]
  const SHORT_CODE_RING_INDEX: seq<nat> := [0, 1, 2, 3, 0, 0, 0, 0, 0, 0, 1, 1, 1, 1, 1, 1]
  const SHORT_CODE_VALUE_OFFSET: seq<int> := [0, 0, 0, 0, -1, 1, -2, 2, -3, 3, -1, 1, -2, 2, -3, 3]
  const NUM_DISTANCE_CODES: nat := 64

  datatype DistanceError =
    | Inner(error: BrotliError)
    | DistanceSymbolOutOfRange(sym: nat)
    | InvalidShortDistance(sym: nat, computed: int)

  /** The recent distances, most recent first. */
  type Recent = s: seq<nat> | |s| == 4 witness RING_INIT

  function Pushed(slots: Recent, d: nat): Recent {
    [d, slots[0], slots[1], slots[2]]
  }

  function ShortDistance(sym: nat, slots: Recent): (r: Result<(nat, bool), DistanceError>)
    ensures r.Ok? ==> r.value.0 >= 1
  {
    if sym >= 16 then Err(DistanceSymbolOutOfRange(sym))
    else
      var computed := slots[SHORT_CODE_RING_INDEX[sym]] + SHORT_CODE_VALUE_OFFSET[sym];
      if computed <= 0 then Err(InvalidShortDistance(sym, computed)) else Ok((computed, sym != 0))
  }

  // ---- direct codes ----------------------------------------------------------------------

  function DirectBits(c: nat): nat {
    1 + c / 2
  }

  /** The smallest distance of a direct code. */
  function DirectBase(c: nat): nat {
    Pow2Positive(DirectBits(c));
    (2 + c % 2) * Pow2(DirectBits(c)) - 4 + 1
  }

  lemma Pow2Positive(n: nat)
    ensures n >= 1 ==> Pow2(n) >= 2
  {
  }

  const DIRECT_BASE: seq<nat> := seq(48, (c: nat) => DirectBase(c))
  const DIRECT_BITS: seq<nat> := seq(48, (c: nat) => DirectBits(c))

  lemma NextBase(c: nat)
    ensures DirectBase(c + 1) == DirectBase(c) + Pow2(DirectBits(c))
  {
    if c % 2 == 0 {
      assert (c + 1) / 2 == c / 2 && (c + 1) % 2 == 1;
    } else {
      assert (c + 1) / 2 == c / 2 + 1 && (c + 1) % 2 == 0;
      assert Pow2(DirectBits(c + 1)) == 2 * Pow2(DirectBits(c));
    }
  }

  /** The ranges of the direct codes follow each other without gap or overlap. */
  lemma DirectCodesTile()
    ensures Tiles(DIRECT_BASE, DIRECT_BITS)
  {
    forall i | 0 <= i < 47
      ensures DIRECT_BASE[i + 1] == DIRECT_BASE[i] + Pow2(DIRECT_BITS[i])
    {
      NextBase(i);
    }
  }

  /** Every distance from 1 to 67108860 has exactly one direct code. */
  lemma DirectSpelling(d: nat)
    requires 1 <= d <= 67108860
    ensures exists c :: InRow(DIRECT_BASE, DIRECT_BITS, c, d)
    ensures forall i, j :: InRow(DIRECT_BASE, DIRECT_BITS, i, d) && InRow(DIRECT_BASE, DIRECT_BITS, j, d) ==> i == j
  {
    DirectCodesTile();
    SmallPow2();
    assert DIRECT_BASE[0] == 1;
    assert DIRECT_BASE[47] == 3 * 0x100_0000 - 3 && DIRECT_BITS[47] == 24;
    hide Tiles, InRow, Pow2, DirectBase;
    var c := RowExists(DIRECT_BASE, DIRECT_BITS, 0, d);
    forall i, j | InRow(DIRECT_BASE, DIRECT_BITS, i, d) && InRow(DIRECT_BASE, DIRECT_BITS, j, d)
      ensures i == j
    {
      RowIsUnique(DIRECT_BASE, DIRECT_BITS, i, j, d);
    }
  }

  function DirectDistanceAt(buf: seq<byte>, pos: nat, sym: nat): Result<(nat, nat), DistanceError> {
    if sym < 16 || sym >= NUM_DISTANCE_CODES then Err(DistanceSymbolOutOfRange(sym))
    else
      match Bits(buf, pos, DirectBits(sym - 16))
      case Ok((x, p)) => Ok((DirectBase(sym - 16) + x, p))
      case Err(e) => Err(DistanceError.Inner(e))
  }

  /** A direct code reads a distance of its own range. */
  lemma DirectInRow(buf: seq<byte>, pos: nat, sym: nat)
    requires pos <= BitLen(buf) && DirectDistanceAt(buf, pos, sym).Ok?
    ensures InRow(DIRECT_BASE, DIRECT_BITS, sym - 16, DirectDistanceAt(buf, pos, sym).value.0)
    ensures 1 <= DirectDistanceAt(buf, pos, sym).value.0 <= 67108860
  {
    var c := sym - 16;
    BitsAdvance(buf, pos, DirectBits(c));
    assert DIRECT_BASE[c] == DirectBase(c) && DIRECT_BITS[c] == DirectBits(c);
    DirectCodesTile();
    SmallPow2();
    assert DIRECT_BASE[0] == 1;
    assert DIRECT_BASE[47] == 3 * 0x100_0000 - 3 && DIRECT_BITS[47] == 24;
    if c > 0 { RowsAscend(DIRECT_BASE, DIRECT_BITS, 0, c); }
    if c < 47 { RowsAscend(DIRECT_BASE, DIRECT_BITS, c, 47); }
  }

  datatype Decoded = Decoded(distance: nat, slots: Recent, pos: nat)

  function DistanceAt(buf: seq<byte>, pos: nat, sym: nat, slots: Recent): Result<Decoded, DistanceError> {
    if sym >= NUM_DISTANCE_CODES then Err(DistanceSymbolOutOfRange(sym))
    else if sym < 16 then
      match ShortDistance(sym, slots)
      case Ok((d, update)) => Ok(Decoded(d, if update then Pushed(slots, d) else slots, pos))
      case Err(e) => Err(e)
    else
      match DirectDistanceAt(buf, pos, sym)
      case Ok((d, p)) => Ok(Decoded(d, Pushed(slots, d), p))
      case Err(e) => Err(e)
  }

  ghost predicate Positive(slots: Recent) {
    forall i | 0 <= i < 4 :: slots[i] >= 1
  }

  /** Decoding moves forward, gives a real distance and keeps only real distances. */
  lemma DistanceIsReal(buf: seq<byte>, pos: nat, sym: nat, slots: Recent)
    requires pos <= BitLen(buf) && Positive(slots) && DistanceAt(buf, pos, sym, slots).Ok?
    ensures var d := DistanceAt(buf, pos, sym, slots).value;
            d.distance >= 1 && Positive(d.slots) && pos <= d.pos <= BitLen(buf)
            && d.slots[0] == d.distance
  {
    hide Bits;
    if sym >= 16 {
      DirectInRow(buf, pos, sym);
      BitsAdvance(buf, pos, DirectBits(sym - 16));
    }
  }

  class DistanceRing {
    var slots: Recent

    constructor ()
      ensures slots == RING_INIT
    {
      slots := RING_INIT;
    }

    method Push(d: nat)
      modifies this
      ensures slots == Pushed(old(slots), d)
    {
      slots := [d, slots[0], slots[1], slots[2]];
    }
  }

  method DecodeDistance(r: BitReader, sym: nat, ring: DistanceRing) returns (d: Result<nat, DistanceError>)
    modifies r, ring
    ensures match DistanceAt(r.buf, old(r.bitPos), sym, old(ring.slots))
            case Ok(x) => d == Ok(x.distance) && ring.slots == x.slots && r.bitPos == x.pos
            case Err(e) => d == Err(e)
  {
    hide Bits;
    if sym >= NUM_DISTANCE_CODES { return Err(DistanceSymbolOutOfRange(sym)); }
    if sym < 16 {
      var short := ShortDistance(sym, ring.slots);
      if short.Err? { return Err(short.error); }
      if short.value.1 { ring.Push(short.value.0); }
      d := Ok(short.value.0);
    } else {
      var c := sym - 16;
      var extras := Take(r, DirectBits(c));
      if extras.Err? { return Err(DistanceError.Inner(extras.error)); }
      var distance := DirectBase(c) + extras.value;
      ring.Push(distance);
      d := Ok(distance);
    }
  }
}
