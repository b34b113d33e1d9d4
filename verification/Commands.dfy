/**
 Brotli insert-and-copy commands: the symbol alphabet and length tables of
 section 5 of RFC 7932.
 */
module Commands {
  import opened Bytes
  import opened BitReading
  import opened Brotli

  const INSERT_EXTRA_BITS: seq<nat> := [
    0, 0, 0, 0, 0, 0, 1, 1, 2, 2, 3, 3, 4, 4, 5, 5, 6, 7, 8, 9, 10, 12, 14, 24
  ]

  const COPY_EXTRA_BITS: seq<nat> := [
    0, 0, 0, 0, 0, 0, 0, 0, 1, 1, 2, 2, 3, 3, 4, 4, 5, 5, 6, 7, 8, 9, 10, 24
  ]

  const INSERT_OFFSET: seq<nat> := [
    0, 1, 2, 3, 4, 5, 6, 8, 10, 14, 18, 26, 34, 50, 66, 98, 130, 194, 322, 578, 1090, 2114, 6210, 22594
  ]

  const COPY_OFFSET: seq<nat> := [
    2, 3, 4, 5, 6, 7, 8, 9, 10, 12, 14, 18, 22, 30, 38, 54, 70, 102, 134, 198, 326, 582, 1094, 2118
  ]

  const CELL_POS: seq<nat> := [0, 1, 0, 1, 8, 9, 2, 16, 10, 17, 18]

  const NUM_COMMAND_SYMBOLS: nat := 704

  datatype CommandError =
    | Inner(error: BrotliError)
    | CommandSymbolOutOfRange(sym: nat)
    | LengthCodeOutOfRange(code: nat)

  datatype Components = Components(insertCode: nat, copyCode: nat, distanceImplicit: bool)

  // ---- symbols -------------------------------------------------------------------------

  function Decompose(sym: nat): (r: Result<Components, CommandError>)
    ensures r.Ok? ==> r.value.insertCode < 24 && r.value.copyCode < 24
  {
    if sym >= NUM_COMMAND_SYMBOLS then Err(CommandSymbolOutOfRange(sym))
    else
      var cell := sym / 64;
      var pos := CELL_POS[cell];
      Ok(Components(pos / 8 % 4 * 8 + sym / 8 % 8, pos % 4 * 8 + sym % 8, cell < 2))
  }

  /** Which pairs of length codes a symbol can name. */
  predicate Named(c: Components) {
    if c.distanceImplicit then c.insertCode < 8 && c.copyCode < 16 else c.insertCode < 24 && c.copyCode < 24
  }

  /** The cell of a pair of length codes: section 5 of RFC 7932 lays them out in this order. */
  function CellOf(c: Components): (cell: nat)
    requires Named(c)
    ensures cell <= 10
  {
    var i, k := c.insertCode / 8, c.copyCode / 8;
    if c.distanceImplicit then k
    else if i == 0 then (if k == 0 then 2 else if k == 1 then 3 else 6)
    else if i == 1 then (if k == 0 then 4 else if k == 1 then 5 else 8)
    else (if k == 0 then 7 else if k == 1 then 9 else 10)
  }

  function Compose(c: Components): (sym: nat)
    requires Named(c)
    ensures sym < NUM_COMMAND_SYMBOLS
  {
    64 * CellOf(c) + 8 * (c.insertCode % 8) + c.copyCode % 8
  }

  /** Every named pair of length codes has a symbol that decomposes into it. */
  lemma ComposeDecompose(c: Components)
    requires Named(c)
    ensures Decompose(Compose(c)) == Ok(c)
  {
    OctalDigits(CellOf(c), c.insertCode % 8, c.copyCode % 8);
    CellHolds(c);
    hide CellOf;
  }

  lemma OctalDigits(cell: nat, a: nat, b: nat)
    requires a < 8 && b < 8
    ensures var sym := 64 * cell + 8 * a + b; sym / 64 == cell && sym / 8 % 8 == a && sym % 8 == b
  {
    assert (64 * cell + 8 * a + b) / 8 == 8 * cell + a;
  }

  /** The cell of a pair is the one that holds it. */
  lemma CellHolds(c: Components)
    requires Named(c)
    ensures var pos := CELL_POS[CellOf(c)];
            && pos / 8 % 4 == c.insertCode / 8 && pos % 4 == c.copyCode / 8 && (CellOf(c) < 2 <==> c.distanceImplicit)
  {
  }

  /** Every symbol of the alphabet is the one composed from its parts: no two share them. */
  lemma DecomposeCompose(sym: nat)
    requires sym < NUM_COMMAND_SYMBOLS
    ensures Named(Decompose(sym).value) && Compose(Decompose(sym).value) == sym
  {
    CellIsOwn(sym);
    LowDigits(sym);
    Octal(sym);
    hide CellOf, Decompose;
  }

  lemma Octal(sym: nat)
    ensures sym == 64 * (sym / 64) + 8 * (sym / 8 % 8) + sym % 8
  {
  }

  lemma LowDigits(sym: nat)
    requires sym < NUM_COMMAND_SYMBOLS
    ensures Decompose(sym).value.insertCode % 8 == sym / 8 % 8
    ensures Decompose(sym).value.copyCode % 8 == sym % 8
  {
  }

  lemma CellIsOwn(sym: nat)
    requires sym < NUM_COMMAND_SYMBOLS
    ensures Named(Decompose(sym).value) && CellOf(Decompose(sym).value) == sym / 64
  {
    var cell := sym / 64;
    var a, b := sym / 8 % 8, sym % 8;
    var p := CELL_POS[cell];
    assert (p / 8 % 4 * 8 + a) / 8 == p / 8 % 4 && (p % 4 * 8 + b) / 8 == p % 4;
    if cell == 0 {} else if cell == 1 {} else if cell == 2 {} else if cell == 3 {} else if cell == 4 {}
    else if cell == 5 {} else if cell == 6 {} else if cell == 7 {} else if cell == 8 {} else if cell == 9 {}
    else { assert cell == 10; }
  }

  // ---- lengths ------------------------------------------------------------------------------

  /** Each row starts where the previous row's extra bits run out. */
  ghost predicate Tiles(offset: seq<nat>, bits: seq<nat>) {
    && |offset| == |bits| > 0
    && forall i | 0 <= i < |offset| - 1 :: offset[i + 1] == offset[i] + Pow2(bits[i])
  }

  ghost predicate InRow(offset: seq<nat>, bits: seq<nat>, i: nat, n: nat) {
    i < |offset| == |bits| && offset[i] <= n < offset[i] + Pow2(bits[i])
  }

  lemma {:induction false} RowsAscend(offset: seq<nat>, bits: seq<nat>, i: nat, j: nat)
    requires Tiles(offset, bits) && i < j < |offset|
    ensures offset[i] + Pow2(bits[i]) <= offset[j]
    decreases j - i
  {
    assert offset[i + 1] == offset[i] + Pow2(bits[i]);
    if i + 1 < j { RowsAscend(offset, bits, i + 1, j); }
  }

  /** No number falls in two rows. */
  lemma RowIsUnique(offset: seq<nat>, bits: seq<nat>, i: nat, j: nat, n: nat)
    requires Tiles(offset, bits) && InRow(offset, bits, i, n) && InRow(offset, bits, j, n)
    ensures i == j
  {
    if i < j { RowsAscend(offset, bits, i, j); }
    if j < i { RowsAscend(offset, bits, j, i); }
  }

  /** Every number from the first offset to the end of the last row falls in one. */
  lemma {:induction false} RowExists(offset: seq<nat>, bits: seq<nat>, i: nat, n: nat) returns (k: nat)
    requires Tiles(offset, bits) && i < |offset|
    requires offset[i] <= n < offset[|offset| - 1] + Pow2(bits[|offset| - 1])
    ensures InRow(offset, bits, k, n)
    decreases |offset| - i
  {
    if n < offset[i] + Pow2(bits[i]) {
      k := i;
    } else {
      if i == |offset| - 1 { assert false; }
      assert offset[i + 1] == offset[i] + Pow2(bits[i]);
      k := RowExists(offset, bits, i + 1, n);
    }
  }

  lemma SmallPow2()
    ensures Pow2(0) == 1 && Pow2(1) == 2 && Pow2(2) == 4 && Pow2(3) == 8 && Pow2(4) == 16 && Pow2(5) == 32
    ensures Pow2(6) == 64 && Pow2(7) == 128 && Pow2(8) == 256 && Pow2(9) == 512 && Pow2(10) == 1024
    ensures Pow2(12) == 4096 && Pow2(14) == 16384 && Pow2(24) == 0x100_0000
  {
    assert Pow2(5) == 32;
    assert Pow2(10) == 1024;
    Pow2Sixteen();
  }

  /** The offset tables are the running sums of the extra-bit tables. */
  lemma LengthTablesTile()
    ensures Tiles(INSERT_OFFSET, INSERT_EXTRA_BITS) && Tiles(COPY_OFFSET, COPY_EXTRA_BITS)
  {
    SmallPow2();
    hide Pow2;
    InsertTableTiles();
    CopyTableTiles();
  }

  lemma InsertTableTiles()
    ensures Tiles(INSERT_OFFSET, INSERT_EXTRA_BITS)
  {
    SmallPow2();
    hide Pow2;
    assert |INSERT_OFFSET| == 24 && |INSERT_EXTRA_BITS| == 24;
  }

  lemma CopyTableTiles()
    ensures Tiles(COPY_OFFSET, COPY_EXTRA_BITS)
  {
    SmallPow2();
    hide Pow2;
    assert |COPY_OFFSET| == 24 && |COPY_EXTRA_BITS| == 24;
  }

  /** A length from its code and the extra bits that follow. */
  function LengthAt(
      buf: seq<byte>, pos: nat, code: nat, offset: seq<nat>, bits: seq<nat>): Result<(nat, nat), CommandError>
    requires |offset| == |bits| == 24
  {
    if code >= 24 then Err(LengthCodeOutOfRange(code))
    else if bits[code] == 0 then Ok((offset[code], pos))
    else
      match Bits(buf, pos, bits[code])
      case Ok((x, p)) => Ok((offset[code] + x, p))
      case Err(e) => Err(Inner(e))
  }

  /** A length read with a code falls in that code's row. */
  lemma LengthInRow(buf: seq<byte>, pos: nat, code: nat, offset: seq<nat>, bits: seq<nat>)
    requires |offset| == |bits| == 24 && pos <= BitLen(buf) && LengthAt(buf, pos, code, offset, bits).Ok?
    ensures InRow(offset, bits, code, LengthAt(buf, pos, code, offset, bits).value.0)
    ensures pos + bits[code] == LengthAt(buf, pos, code, offset, bits).value.1 <= BitLen(buf)
  {
    if bits[code] != 0 { BitsAdvance(buf, pos, bits[code]); }
  }

  function InsertLengthAt(buf: seq<byte>, pos: nat, code: nat): Result<(nat, nat), CommandError> {
    LengthAt(buf, pos, code, INSERT_OFFSET, INSERT_EXTRA_BITS)
  }

  function CopyLengthAt(buf: seq<byte>, pos: nat, code: nat): Result<(nat, nat), CommandError> {
    LengthAt(buf, pos, code, COPY_OFFSET, COPY_EXTRA_BITS)
  }

  /** A copy is at least two bytes long. */
  lemma CopyIsLong(buf: seq<byte>, pos: nat, code: nat)
    requires pos <= BitLen(buf) && CopyLengthAt(buf, pos, code).Ok?
    ensures CopyLengthAt(buf, pos, code).value.0 >= 2
  {
    LengthInRow(buf, pos, code, COPY_OFFSET, COPY_EXTRA_BITS);
    CopyTableTiles();
    if code > 0 { RowsAscend(COPY_OFFSET, COPY_EXTRA_BITS, 0, code); }
  }

  method DecodeInsertLength(r: BitReader, code: nat) returns (n: Result<nat, CommandError>)
    modifies r
    ensures match InsertLengthAt(r.buf, old(r.bitPos), code)
            case Ok((x, p)) => n == Ok(x) && r.bitPos == p
            case Err(e) => n == Err(e)
  {
    hide Bits;
    if code >= 24 { return Err(LengthCodeOutOfRange(code)); }
    var extras := INSERT_EXTRA_BITS[code];
    var extra := 0;
    if extras != 0 {
      var x := Take(r, extras);
      if x.Err? { return Err(Inner(x.error)); }
      extra := x.value;
    }
    n := Ok(INSERT_OFFSET[code] + extra);
  }

  method DecodeCopyLength(r: BitReader, code: nat) returns (n: Result<nat, CommandError>)
    modifies r
    ensures match CopyLengthAt(r.buf, old(r.bitPos), code)
            case Ok((x, p)) => n == Ok(x) && r.bitPos == p
            case Err(e) => n == Err(e)
  {
    hide Bits;
    if code >= 24 { return Err(LengthCodeOutOfRange(code)); }
    var extras := COPY_EXTRA_BITS[code];
    var extra := 0;
    if extras != 0 {
      var x := Take(r, extras);
      if x.Err? { return Err(Inner(x.error)); }
      extra := x.value;
    }
    n := Ok(COPY_OFFSET[code] + extra);
  }

  /** Every insert length up to the largest, and every copy length from 2, has exactly one spelling. */
  lemma LengthSpelling(n: nat)
    ensures n < 22594 + 0x100_0000 ==> exists k :: InRow(INSERT_OFFSET, INSERT_EXTRA_BITS, k, n)
    ensures 2 <= n < 2118 + 0x100_0000 ==> exists k :: InRow(COPY_OFFSET, COPY_EXTRA_BITS, k, n)
    ensures forall i, j ::
              InRow(INSERT_OFFSET, INSERT_EXTRA_BITS, i, n) && InRow(INSERT_OFFSET, INSERT_EXTRA_BITS, j, n) ==> i == j
    ensures forall i, j ::
              InRow(COPY_OFFSET, COPY_EXTRA_BITS, i, n) && InRow(COPY_OFFSET, COPY_EXTRA_BITS, j, n) ==> i == j
  {
    LengthTablesTile();
    SmallPow2();
    hide Tiles, InRow, Pow2;
    if n < 22594 + 0x100_0000 {
      var k := RowExists(INSERT_OFFSET, INSERT_EXTRA_BITS, 0, n);
    }
    if 2 <= n < 2118 + 0x100_0000 {
      var k := RowExists(COPY_OFFSET, COPY_EXTRA_BITS, 0, n);
    }
    forall i, j | InRow(INSERT_OFFSET, INSERT_EXTRA_BITS, i, n) && InRow(INSERT_OFFSET, INSERT_EXTRA_BITS, j, n)
      ensures i == j
    {
      RowIsUnique(INSERT_OFFSET, INSERT_EXTRA_BITS, i, j, n);
    }
    forall i, j | InRow(COPY_OFFSET, COPY_EXTRA_BITS, i, n) && InRow(COPY_OFFSET, COPY_EXTRA_BITS, j, n)
      ensures i == j
    {
      RowIsUnique(COPY_OFFSET, COPY_EXTRA_BITS, i, j, n);
    }
  }
}
