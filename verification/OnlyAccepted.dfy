/**
 Descriptions of prefix codes that the decoder accepts and section 3.5 of RFC 7932
 rejects: one that sets a single length, and one that spells all its lengths with a
 lone repeat.
 */
module OnlyAccepted {
  import opened Bytes
  import opened BitReading
  import opened Huffman
  import opened PrefixCodes
  import opened ComplexCodes
  import opened LoneLengths

  // ---- a single length -------------------------------------------------------------------------

  /** Length 1 for symbols 1 and 0 of the code-length code; then a 1, and zeros for all other symbols. */
  function Single(size: nat): seq<byte> {
    [7, 92] + Repeat(0, size)
  }

  lemma SingleBits(size: nat, k: nat)
    requires k < 8 * (size + 2)
    ensures BitLen(Single(size)) == 8 * (size + 2)
    ensures Bit(Single(size), k) == if k < 3 || 10 <= k < 13 || k == 14 then 1 else 0
  {
    var buf := Single(size);
    if k < 8 {
      assert buf[k / 8] == 7;
      SevenBits(k);
    } else if k < 16 {
      assert buf[k / 8] == 92;
      assert !BitOf(92, 0) && !BitOf(92, 1) && BitOf(92, 2) && BitOf(92, 3);
      assert BitOf(92, 4) && !BitOf(92, 5) && BitOf(92, 6) && !BitOf(92, 7);
    } else {
      assert buf[k / 8] == 0;
      ZeroBits(k % 8);
    }
  }

  /** The two lengths of the code-length code. */
  function TwoLengths(): Eighteen {
    seq(18, i => if i < 2 then 1 else 0)
  }

  lemma SecondLength()
    ensures var c := WithLength(NoLengthsYet(), 0, 1);
            && c.nonzero == 1 && (forall k | 1 <= k < 4 :: c.lens[CODE_LENGTH_ORDER[k]] == 0)
            && WithLength(c, 4, 1) == LengthCode(TwoLengths(), 2, 32)
  {
    assert Pow2(4) == 16;
    var c := WithLength(NoLengthsYet(), 0, 1);
    assert WithLength(c, 4, 1).lens == TwoLengths();
  }

  lemma SingleDescription(size: nat)
    ensures LengthCodeFrom(Single(size), 0, 0, NoLengthsYet()) == Ok((LengthCode(TwoLengths(), 2, 32), 14))
  {
    hide Bit, Single, LengthCodeFrom, WithLength, NoLengthsYet, TwoLengths;
    var buf := Single(size);
    SingleBits(size, 0);
    forall k | 0 <= k < 16
      ensures Bit(buf, k) == if k < 3 || 10 <= k < 13 || k == 14 then 1 else 0
    {
      SingleBits(size, k);
    }
    SecondLength();
    OnePasses(buf, 0, 0, NoLengthsYet());
    var c := WithLength(NoLengthsYet(), 0, 1);
    ZerosPass(buf, 4, 1, 4, c);
    OnePasses(buf, 10, 4, c);
  }

  const TWO_WORDS: seq<Entry> := [Entry(0, 0, 1), Entry(1, 1, 1)]

  lemma TwoThenNone()
    ensures var lens: seq<nat> := TwoLengths();
            && |lens| == 18 && lens[0] == 1 && lens[1..][0] == 1
            && forall i | 0 <= i < |lens[1..][1..]| :: lens[1..][1..][i] == 0
  {
  }

  lemma PresentTwo()
    ensures Present(Numbered(TwoLengths())) == [Pair(0, 1), Pair(1, 1)]
  {
    hide TwoLengths, Nonzero, Present, Shifted;
    TwoThenNone();
    var lens: seq<nat> := TwoLengths();
    NumberedIsShifted(lens);
    ShiftedStep(lens, 0);
    ShiftedStep(lens[1..], 1);
    NoneSet(lens[1..][1..]);
    PresentLone(lens[1..][1..], 2);
    assert [Pair(0, 1)] + ([Pair(1, 1)] + []) == [Pair(0, 1), Pair(1, 1)];
  }

  lemma TwoWords()
    ensures FromLengths(Numbered(TwoLengths())) == Ok(TWO_WORDS)
  {
    PresentTwo();
    hide Present, TwoLengths;
    var ps := [Pair(0, 1), Pair(1, 1)];
    assert ps[1..] == [Pair(1, 1)] && [Pair(1, 1)][1..] == [];
    assert Sorted([Pair(1, 1)]) == [Pair(1, 1)];
    assert Sorted(ps) == ps;
    var lens := PairLens(ps);
    assert Weight(lens, 0, 1) == 0 && Weight(lens, 1, 1) == 1 by { assert Pow2(0) == 1; }
    assert Assigned(ps) == TWO_WORDS;
  }

  /** Words of one bit are read as that bit. */
  lemma BitIsSymbol(buf: seq<byte>, pos: nat)
    requires pos < BitLen(buf)
    ensures SymbolAt(TWO_WORDS, buf, pos) == Ok((Bit(buf, pos), pos + 1))
  {
    hide Bit;
    assert TWO_WORDS[1..] == [Entry(1, 1, 1)] && [Entry(1, 1, 1)][1..] == [];
    assert MaxLen(TWO_WORDS) == 1 by { assert MaxLen([]) == 0; assert MaxLen([Entry(1, 1, 1)]) == 1; }
    assert BitsValue(buf, pos, 1) == Bit(buf, pos) by { assert BitsValue(buf, pos + 1, 0) == 0; }
    assert First([Entry(1, 1, 1)], 1, 1) == Some(1);
  }

  /** Zero bits give zero lengths, up to the size of the alphabet. */
  lemma {:induction false} ZerosFollow(buf: seq<byte>, pos: nat, size: nat, st: Main)
    requires Running(st) && |st.lens| <= size && st.kraft < 32768 && pos + (size - |st.lens|) <= BitLen(buf)
    requires forall k | pos <= k < pos + (size - |st.lens|) :: Bit(buf, k) == 0
    ensures MainFrom(buf, pos, TWO_WORDS, size, st).Ok?
    ensures var r := MainFrom(buf, pos, TWO_WORDS, size, st).value.0;
            r.lens == st.lens + Zeros(size - |st.lens|) && r.kraft == st.kraft
    decreases size - |st.lens|
  {
    hide Bit, SymbolAt, TWO_WORDS;
    if |st.lens| < size {
      BitIsSymbol(buf, pos);
      var next := WithDirect(st, 0);
      ZerosFollow(buf, pos + 1, size, next);
      assert st.lens + [0] + Zeros(size - |st.lens| - 1) == st.lens + Zeros(size - |st.lens|);
    }
  }

  lemma SingleMain(size: nat)
    requires size > 0
    ensures MainFrom(Single(size), 14, TWO_WORDS, size, Main([], 8, None, 0, 0)).Ok?
    ensures MainFrom(Single(size), 14, TWO_WORDS, size, Main([], 8, None, 0, 0)).value.0.lens == [1] + Zeros(size - 1)
  {
    var buf := Single(size);
    forall k | 14 <= k < 15 + size
      ensures BitLen(buf) == 8 * (size + 2) && Bit(buf, k) == if k == 14 then 1 else 0
    {
      SingleBits(size, k);
    }
    PowFourteen();
    hide Bit, Single, SymbolAt, TWO_WORDS;
    BitIsSymbol(buf, 14);
    var st := Main([], 8, None, 0, 0);
    var next := WithDirect(st, 1);
    assert next.lens == [1] && next.kraft == 16384;
    ZerosFollow(buf, 15, size, next);
  }

  lemma OneSet(lens: seq<nat>)
    requires lens != [] && lens[0] == 1 && forall i | 1 <= i < |lens| :: lens[i] == 0
    ensures Nonzero(lens) == 1 && FirstNonzero(lens) == 0
  {
    NoneSet(lens[1..]);
  }

  lemma NoBitsCode()
    ensures FromLengths([Pair(0, 0)]).Ok?
  {
    assert [Pair(0, 0)][1..] == [];
    assert Present([Pair(0, 0)]) == [];
    assert Absent([Pair(0, 0)]) == [0];
  }

  /** Whatever the alphabet, the decoder makes of it a code of one symbol; the standard asks for two lengths. */
  lemma SingleAccepted(size: nat)
    requires size > 0
    ensures ComplexAt(Single(size), 0, 0, size).Ok? && MainLengths(Single(size), 0, 0, size) == 1
    ensures RfcComplexAt(Single(size), 0, 0, size) == Err(InsufficientNonzeroLengths)
  {
    hide LengthCodeFrom, FromLengths, MainFrom, Nonzero, FirstNonzero, Single, TwoLengths, TWO_WORDS;
    SingleDescription(size);
    TwoWords();
    SingleMain(size);
    var lens := [1] + Zeros(size - 1);
    assert Padded(lens, size) == lens;
    OneSet(lens);
    NoBitsCode();
    TwoSetHere();
  }

  lemma TwoSetHere()
    ensures Nonzero(TwoLengths()) >= 2
  {
    TwoSet(TwoLengths());
  }

  // ---- a lone repeat -----------------------------------------------------------------------------

  /** Length 1 for symbol 16 alone; then four repeats, of 5, 12, 48 and 191 lengths. */
  const REPEATS: seq<byte> := [0, 0, 7, 0, 0, 73, 1]

  lemma RepeatBits(k: nat)
    requires k < 56
    ensures Bit(REPEATS, k)
         == if 16 <= k < 19 || k == 40 || k == 43 || k == 46 || k == 48 then 1 else 0
  {
    var b := k / 8;
    if b == 2 {
      SevenBits(k % 8);
    } else if b == 5 {
      assert BitOf(73, 0) && !BitOf(73, 1) && !BitOf(73, 2) && BitOf(73, 3);
      assert !BitOf(73, 4) && !BitOf(73, 5) && BitOf(73, 6) && !BitOf(73, 7);
    } else if b == 6 {
      assert BitOf(1, 0);
      if k > 48 { ZeroBits(k - 49); }
    } else {
      assert REPEATS[b] == 0;
      ZeroBits(k % 8);
    }
  }

  /** The only length of the code-length code. */
  function Sixteen(): Eighteen {
    seq(18, i => if i == 16 then 1 else 0)
  }

  lemma SixteenthLength()
    ensures var c := WithLength(NoLengthsYet(), 8, 1);
            && c == LengthCode(Sixteen(), 1, 16)
            && (forall k | 0 <= k < 8 :: NoLengthsYet().lens[CODE_LENGTH_ORDER[k]] == 0)
            && forall k | 9 <= k < 18 :: c.lens[CODE_LENGTH_ORDER[k]] == 0
  {
    assert Pow2(4) == 16;
    assert WithLength(NoLengthsYet(), 8, 1).lens == Sixteen();
  }

  lemma NoneYet()
    ensures NoLengthsYet().nonzero == 0
  {
  }

  lemma RepeatsDescription()
    ensures LengthCodeFrom(REPEATS, 0, 0, NoLengthsYet()) == Ok((LengthCode(Sixteen(), 1, 16), 38))
  {
    hide Bit, LengthCodeFrom, WithLength, NoLengthsYet, Sixteen;
    forall k | 0 <= k < 38
      ensures Bit(REPEATS, k) == if 16 <= k < 19 then 1 else 0
    {
      RepeatBits(k);
    }
    SixteenthLength();
    NoneYet();
    ZerosPass(REPEATS, 0, 0, 8, NoLengthsYet());
    OnePasses(REPEATS, 16, 8, NoLengthsYet());
    var c := WithLength(NoLengthsYet(), 8, 1);
    ZerosPass(REPEATS, 20, 9, 18, c);
    LengthsEnd(REPEATS, 38, c);
  }

  lemma SixteenTable()
    ensures FromLengths(Numbered(Sixteen())) == Ok([Entry(16, 0, 1)])
    ensures Nonzero(Sixteen()) == 1 && FirstNonzero(Sixteen()) == 16
  {
    LoneSet(Sixteen(), 16);
    LoneTable(Sixteen());
  }

  lemma {:induction false} LoneSet(lens: seq<nat>, i: nat)
    requires i < |lens| && lens[i] != 0 && forall j | 0 <= j < |lens| && j != i :: lens[j] == 0
    ensures Nonzero(lens) == 1 && FirstNonzero(lens) == i
    decreases i
  {
    if i == 0 { NoneSet(lens[1..]); } else { LoneSet(lens[1..], i - 1); }
  }

  /** One repeat from a zero bit and two bits more. */
  lemma RunTaken(buf: seq<byte>, pos: nat, size: nat, st: Main, m: nat, extra: nat) returns (next: Main)
    requires Running(st) && Repeated(st, m) && pos + 3 <= BitLen(buf) && |st.lens| < size && st.kraft < 32768
    requires Bit(buf, pos) == 0 && Bit(buf, pos + 1) + 2 * Bit(buf, pos + 2) == extra
    requires NewCount(st, 16, 4, extra) <= size
    ensures Running(next) && Repeated(next, m + 1) && next.count == NewCount(st, 16, 4, extra)
    ensures MainFrom(buf, pos, [Entry(16, 0, 1)], size, st) == MainFrom(buf, pos + 3, [Entry(16, 0, 1)], size, next)
  {
    hide Bit, Share, SymbolAt, Raw;
    OneZeroBit(buf, pos);
    TwoBitsAre(buf, pos + 1);
    RepeatOnce(st, m, extra);
    CountStays(st, 16, 4);
    next := WithRun(st, 16, 4, extra);
  }

  lemma OneZeroBit(buf: seq<byte>, pos: nat)
    requires pos < BitLen(buf) && Bit(buf, pos) == 0
    ensures SymbolAt([Entry(16, 0, 1)], buf, pos) == Ok((16, pos + 1))
  {
    hide Bit, SymbolAt;
    LoneReads(16, 1, buf, pos);
    assert Word(buf, pos, 1) == 0 by { assert Word(buf, pos, 0) == 0; }
  }

  lemma TwoBitsAre(buf: seq<byte>, pos: nat)
    requires pos + 2 <= BitLen(buf)
    ensures Raw(buf, pos, 2) == Ok((Bit(buf, pos) + 2 * Bit(buf, pos + 1), pos + 2))
  {
    hide Bit;
    assert BitsValue(buf, pos + 1, 1) == Bit(buf, pos + 1) by { assert BitsValue(buf, pos + 2, 0) == 0; }
  }

  lemma RepeatsMain(size: nat) returns (r: Main)
    requires size >= 256
    ensures MainFrom(REPEATS, 38, [Entry(16, 0, 1)], size, Main([], 8, None, 0, 0)) == Ok((r, 50))
    ensures |r.lens| == 256 && r.lens[0] == 8 && r.lens[1] == 8 && r.kraft == 32768
  {
    hide Bit, MainFrom;
    forall k | 38 <= k < 50
      ensures Bit(REPEATS, k) == if k == 40 || k == 43 || k == 46 || k == 48 then 1 else 0
    {
      RepeatBits(k);
    }
    var st := Main([], 8, None, 0, 0);
    var a := RunTaken(REPEATS, 38, size, st, 0, 2);
    var b := RunTaken(REPEATS, 41, size, a, 1, 2);
    var c := RunTaken(REPEATS, 44, size, b, 2, 2);
    r := RunTaken(REPEATS, 47, size, c, 3, 1);
    RunStops(REPEATS, 50, [Entry(16, 0, 1)], size, r);
  }

  /** For every alphabet of at least 256 the decoder reads 256 words of eight bits from it; the standard nothing. */
  lemma RepeatsAccepted(size: nat)
    requires size >= 256
    ensures ComplexAt(REPEATS, 0, 0, size).Ok? && LoneSixteen(REPEATS, 0, 0)
    ensures RfcComplexAt(REPEATS, 0, 0, size).Err?
  {
    hide LengthCodeFrom, FromLengths, MainFrom, Nonzero, FirstNonzero, Sixteen;
    RepeatsDescription();
    SixteenTable();
    var r := RepeatsMain(size);
    var lens := Padded(r.lens, size);
    TwoSet(lens);
    SomePresent(Numbered(lens));
    OnlyDecoderAccepts(REPEATS, 0, 0, size);
  }
}
