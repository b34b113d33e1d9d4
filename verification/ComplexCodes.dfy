/**
 The run-length coded prefix codes of section 3.5 of RFC 7932, and the choice
 between the two forms.
 */
module ComplexCodes {
  import opened Bytes
  import opened BitReading
  import opened Huffman
  import opened PrefixCodes

  const CODE_LENGTH_ORDER: seq<nat> := [1, 2, 3, 4, 0, 5, 17, 6, 16, 7, 8, 9, 10, 11, 12, 13, 14, 15]

  /** One of the six code lengths 0 to 5, by a fixed code. */
  function LengthCodeAt(buf: seq<byte>, pos: nat): (r: Read<nat>)
    ensures r.Ok? ==> r.value.0 <= 5
  {
    var (b1, p) :- Raw(buf, pos, 1);
    var (b2, p) :- Raw(buf, p, 1);
    if b1 == 0 then Ok((if b2 == 0 then 0 else 3, p))
    else if b2 == 0 then Ok((4, p))
    else
      var (b3, p) :- Raw(buf, p, 1);
      if b3 == 0 then Ok((2, p))
      else
        var (b4, p) :- Raw(buf, p, 1);
        Ok((if b4 == 0 then 1 else 5, p))
  }

  method ReadLengthCode(r: BitReader) returns (v: Result<nat, HuffmanError>)
    modifies r
    ensures match LengthCodeAt(r.buf, old(r.bitPos))
            case Ok((x, p)) => v == Ok(x) && r.bitPos == p
            case Err(e) => v == Err(e)
  {
    hide ReadAt;
    var b1 := TakeBits(r, 1);
    if b1.Err? { return Err(b1.error); }
    var b2 := TakeBits(r, 1);
    if b2.Err? { return Err(b2.error); }
    if b1.value == 0 { return Ok(if b2.value == 0 then 0 else 3); }
    if b2.value == 0 { return Ok(4); }
    var b3 := TakeBits(r, 1);
    if b3.Err? { return Err(b3.error); }
    if b3.value == 0 { return Ok(2); }
    var b4 := TakeBits(r, 1);
    if b4.Err? { return Err(b4.error); }
    v := Ok(if b4.value == 0 then 1 else 5);
  }

  // ---- the code for the lengths ---------------------------------------------------------------

  type Eighteen = s: seq<nat> | |s| == 18 witness seq(18, _ => 0)

  datatype LengthCode = LengthCode(lens: Eighteen, nonzero: nat, kraft: nat)

  function NoLengthsYet(): LengthCode {
    LengthCode(seq(18, _ => 0), 0, 0)
  }

  function WithLength(c: LengthCode, idx: nat, v: nat): LengthCode
    requires idx < 18 && v <= 5
  {
    var lens := c.lens[CODE_LENGTH_ORDER[idx] := v];
    if v > 0 then LengthCode(lens, c.nonzero + 1, c.kraft + Pow2(5 - v)) else c.(lens := lens)
  }

  function LengthCodeFrom(buf: seq<byte>, pos: nat, idx: nat, c: LengthCode): Read<LengthCode>
    decreases 18 - idx
  {
    if idx >= 18 then Ok((c, pos))
    else
      var (v, p) :- LengthCodeAt(buf, pos);
      var c := WithLength(c, idx, v);
      if c.nonzero >= 2 && c.kraft >= 32 then Ok((c, p)) else LengthCodeFrom(buf, p, idx + 1, c)
  }

  method ReadLengthCodeLengths(r: BitReader, hskip: nat) returns (res: Result<LengthCode, HuffmanError>)
    modifies r
    ensures match LengthCodeFrom(r.buf, old(r.bitPos), hskip, NoLengthsYet())
            case Ok((x, p)) => res == Ok(x) && r.bitPos == p
            case Err(e) => res == Err(e)
  {
    hide LengthCodeAt;
    var c := NoLengthsYet();
    ghost var want := LengthCodeFrom(r.buf, r.bitPos, hskip, c);
    var idx: nat := hskip;
    var full := false;
    while idx < 18 && !full
      invariant if full then want == Ok((c, r.bitPos)) else want == LengthCodeFrom(r.buf, r.bitPos, idx, c)
      decreases 18 - idx
    {
      var v := ReadLengthCode(r);
      if v.Err? { return Err(v.error); }
      c := WithLength(c, idx, v.value);
      idx := idx + 1;
      full := c.nonzero >= 2 && c.kraft >= 32;
    }
    res := Ok(c);
  }

  // ---- the lengths themselves ------------------------------------------------------------------

  /** Lengths so far, the last length that was not zero, the run being extended, and the space covered. */
  datatype Main = Main(lens: seq<nat>, prev: nat, repeating: Option<nat>, count: nat, kraft: nat)

  /** The share of a code space of 32768 words. */
  function Share(l: nat): nat {
    if 1 <= l <= 15 then Pow2(15 - l) else 0
  }

  function WithDirect(st: Main, l: nat): Main {
    Main(st.lens + [l], if l > 0 then l else st.prev, None, 0, st.kraft + Share(l))
  }

  /** The length of the run after a repeat symbol: a second one multiplies the first. */
  function NewCount(st: Main, sym: nat, factor: nat, extra: nat): nat {
    if st.repeating == Some(sym) then factor * (if st.count >= 2 then st.count - 2 else 0) + 3 + extra else 3 + extra
  }

  ghost predicate Running(st: Main) {
    st.repeating.Some? ==> st.count >= 3
  }

  function Delta(st: Main, sym: nat, factor: nat, extra: nat): (d: nat)
    requires Running(st) && factor >= 4
    ensures d > 0
  {
    if st.repeating == Some(sym) then
      GrowsPast(factor, st.count);
      NewCount(st, sym, factor, extra) - st.count
    else NewCount(st, sym, factor, extra)
  }

  lemma GrowsPast(factor: nat, count: nat)
    requires factor >= 4 && count >= 3
    ensures factor * (count - 2) + 3 > count
  {
    MulOrder(4, factor, count - 2);
  }

  function Zeros(n: nat): seq<nat> {
    Copies(0, n)
  }

  function Copies(x: nat, n: nat): (s: seq<nat>)
    ensures |s| == n && forall i | 0 <= i < n :: s[i] == x
  {
    seq(n, _ => x)
  }

  function WithRun(st: Main, sym: nat, factor: nat, extra: nat): Main
    requires Running(st) && factor >= 4
  {
    var d := Delta(st, sym, factor, extra);
    var l := if sym == 16 then st.prev else 0;
    Main(st.lens + Copies(l, d), st.prev, Some(sym), NewCount(st, sym, factor, extra), st.kraft + d * Share(l))
  }

  function MainFrom(buf: seq<byte>, pos: nat, code: seq<Entry>, size: nat, st: Main): Read<Main>
    requires Running(st)
    decreases size - |st.lens|
  {
    if |st.lens| >= size || st.kraft >= 32768 then Ok((st, pos))
    else
      var (sym, p) :- SymbolAt(code, buf, pos);
      if sym <= 15 then MainFrom(buf, p, code, size, WithDirect(st, sym))
      else if sym == 16 || sym == 17 then
        var factor := if sym == 16 then 4 else 8;
        var (extra, p) :- Raw(buf, p, if sym == 16 then 2 else 3);
        var after := |st.lens| + Delta(st, sym, factor, extra);
        if after > size then Err(RepeatOverrunsAlphabet(after, size))
        else MainFrom(buf, p, code, size, WithRun(st, sym, factor, extra))
      else Err(SymbolOutOfRange(sym, 18))
  }

  method ReadRun(r: BitReader, st: Main, sym: nat, size: nat) returns (res: Result<Main, HuffmanError>)
    requires Running(st) && (sym == 16 || sym == 17)
    modifies r
    ensures var factor := if sym == 16 then 4 else 8;
            match Raw(r.buf, old(r.bitPos), if sym == 16 then 2 else 3)
            case Err(e) => res == Err(e)
            case Ok((extra, p)) =>
              var after := |st.lens| + Delta(st, sym, factor, extra);
              if after > size then res == Err(RepeatOverrunsAlphabet(after, size))
              else res == Ok(WithRun(st, sym, factor, extra)) && r.bitPos == p
  {
    hide Raw, Share;
    var factor := if sym == 16 then 4 else 8;
    var extra := TakeBits(r, if sym == 16 then 2 else 3);
    if extra.Err? { return Err(extra.error); }
    var newCount := NewCount(st, sym, factor, extra.value);
    var delta := Delta(st, sym, factor, extra.value);
    var after := |st.lens| + delta;
    if after > size { return Err(RepeatOverrunsAlphabet(after, size)); }
    var l := if sym == 16 then st.prev else 0;
    var lens, kraft := st.lens, st.kraft;
    assert lens == st.lens + Copies(l, 0);
    ghost var at := r.bitPos;
    for i := 0 to delta
      invariant r.bitPos == at && lens == st.lens + Copies(l, i)
      invariant kraft == st.kraft + i * Share(l)
    {
      assert lens + [l] == st.lens + Copies(l, i + 1);
      lens := lens + [l];
      kraft := kraft + Share(l);
      Distribute(i, 1, Share(l));
    }
    res := Ok(Main(lens, st.prev, Some(sym), newCount, kraft));
  }

  method ReadMain(r: BitReader, code: seq<Entry>, size: nat) returns (res: Result<Main, HuffmanError>)
    modifies r
    ensures match MainFrom(r.buf, old(r.bitPos), code, size, Main([], 8, None, 0, 0))
            case Ok((x, p)) => res == Ok(x) && r.bitPos == p
            case Err(e) => res == Err(e)
  {
    hide SymbolAt, Raw, Share, NewCount;
    var st := Main([], 8, None, 0, 0);
    ghost var want := MainFrom(r.buf, r.bitPos, code, size, st);
    while |st.lens| < size && st.kraft < 32768
      invariant Running(st)
      invariant want == MainFrom(r.buf, r.bitPos, code, size, st)
      decreases size - |st.lens|
    {
      var sym := DecodeSymbol(code, r);
      if sym.Err? { return Err(sym.error); }
      if sym.value <= 15 {
        st := WithDirect(st, sym.value);
      } else if sym.value == 16 || sym.value == 17 {
        var run := ReadRun(r, st, sym.value, size);
        if run.Err? { return Err(run.error); }
        CountStays(st, sym.value, if sym.value == 16 then 4 else 8);
        st := run.value;
      } else {
        return Err(SymbolOutOfRange(sym.value, 18));
      }
    }
    res := Ok(st);
  }

  lemma CountStays(st: Main, sym: nat, factor: nat)
    ensures forall extra :: NewCount(st, sym, factor, extra) >= 3
  {
  }

  // ---- the finished code ------------------------------------------------------------------------------

  function Numbered(lens: seq<nat>): (ps: seq<Pair>)
    ensures |ps| == |lens| && forall i | 0 <= i < |lens| :: ps[i] == Pair(i, lens[i])
  {
    seq(|lens|, i requires 0 <= i < |lens| => Pair(i, lens[i]))
  }

  function Nonzero(lens: seq<nat>): nat {
    if lens == [] then 0 else (if lens[0] != 0 then 1 else 0) + Nonzero(lens[1..])
  }

  function FirstNonzero(lens: seq<nat>): (i: nat)
    requires Nonzero(lens) > 0
    ensures i < |lens| && lens[i] != 0 && forall j | 0 <= j < i :: lens[j] == 0
  {
    if lens[0] != 0 then 0 else 1 + FirstNonzero(lens[1..])
  }

  function Padded(lens: seq<nat>, size: nat): (r: seq<nat>)
    ensures |r| == if |lens| < size then size else |lens|
  {
    lens + Zeros(if |lens| < size then size - |lens| else 0)
  }

  function Finished(st: Main, size: nat): Result<seq<Entry>, HuffmanError> {
    var lens := Padded(st.lens, size);
    var n := Nonzero(lens);
    if n == 0 then Err(InsufficientNonzeroLengths)
    else if n >= 2 && st.kraft != 32768 then Err(NotCanonical)
    else if n == 1 then FromLengths([Pair(FirstNonzero(lens), 0)])
    else FromLengths(Numbered(lens))
  }

  function ComplexAt(buf: seq<byte>, pos: nat, hskip: nat, size: nat): Read<seq<Entry>> {
    var (c, p) :- LengthCodeFrom(buf, pos, hskip, NoLengthsYet());
    if c.nonzero >= 2 && c.kraft != 32 then Err(NotCanonical)
    else
      var code :- FromLengths(Numbered(c.lens));
      var (st, p) :- MainFrom(buf, p, code, size, Main([], 8, None, 0, 0));
      var es :- Finished(st, size);
      Ok((es, p))
  }

  method ReadComplex(r: BitReader, hskip: nat, size: nat) returns (res: Result<seq<Entry>, HuffmanError>)
    modifies r
    ensures match ComplexAt(r.buf, old(r.bitPos), hskip, size)
            case Ok((x, p)) => res == Ok(x) && r.bitPos == p
            case Err(e) => res == Err(e)
  {
    hide LengthCodeFrom, MainFrom, FromLengths;
    var c := ReadLengthCodeLengths(r, hskip);
    if c.Err? { return Err(c.error); }
    if c.value.nonzero >= 2 && c.value.kraft != 32 { return Err(NotCanonical); }
    var code := FromSymbolLengths(Numbered(c.value.lens));
    if code.Err? { return Err(code.error); }
    var st := ReadMain(r, code.value, size);
    if st.Err? { return Err(st.error); }
    var lens := st.value.lens;
    while |lens| < size
      invariant Padded(lens, size) == Padded(st.value.lens, size)
    {
      assert (lens + [0]) + Zeros(size - |lens| - 1) == lens + Zeros(size - |lens|);
      lens := lens + [0];
    }
    assert lens == Padded(lens, size);
    var n := CountNonzero(lens);
    if n == 0 { return Err(InsufficientNonzeroLengths); }
    if n >= 2 && st.value.kraft != 32768 { return Err(NotCanonical); }
    if n == 1 {
      res := FromSymbolLengths([Pair(FirstNonzero(lens), 0)]);
    } else {
      res := FromSymbolLengths(Numbered(lens));
    }
  }

  method CountNonzero(lens: seq<nat>) returns (n: nat)
    ensures n == Nonzero(lens)
  {
    n := 0;
    for i := 0 to |lens|
      invariant n + Nonzero(lens[i..]) == Nonzero(lens)
    {
      if lens[i] != 0 { n := n + 1; }
      assert lens[i..][1..] == lens[i + 1..];
    }
  }

  function PrefixCodeAt(buf: seq<byte>, pos: nat, bits: nat, size: nat): Read<seq<Entry>>
    requires pos <= BitLen(buf)
  {
    var (kind, p) :- Raw(buf, pos, 2);
    RawAdvances(buf, pos, 2);
    if kind == 1 then SimpleAt(buf, p, bits, size) else ComplexAt(buf, p, kind, size)
  }

  method ReadPrefixCode(r: BitReader, bits: nat, size: nat) returns (res: Result<seq<Entry>, HuffmanError>)
    requires r.bitPos <= BitLen(r.buf)
    modifies r
    ensures match PrefixCodeAt(r.buf, old(r.bitPos), bits, size)
            case Ok((x, p)) => res == Ok(x) && r.bitPos == p
            case Err(e) => res == Err(e)
  {
    hide SimpleAt, ComplexAt;
    var kind := TakeBits(r, 2);
    if kind.Err? { return Err(kind.error); }
    RawAdvances(r.buf, old(r.bitPos), 2);
    if kind.value == 1 {
      res := ReadSimple(r, bits, size);
    } else {
      res := ReadComplex(r, kind.value, size);
    }
  }

  // ---- every code read is usable ---------------------------------------------------------------------

  ghost predicate Consistent(st: Main) {
    && 1 <= st.prev <= 15
    && Within(Numbered(st.lens), 15)
    && st.kraft == Kraft(Numbered(st.lens), 15)
  }

  lemma NumberedAppend(lens: seq<nat>, l: nat)
    requires l <= 15 && Within(Numbered(lens), 15)
    ensures Within(Numbered(lens + [l]), 15)
    ensures Kraft(Numbered(lens + [l]), 15) == Kraft(Numbered(lens), 15) + Share(l)
  {
    assert Numbered(lens + [l]) == Numbered(lens) + [Pair(|lens|, l)];
    KraftAppend(Numbered(lens), Pair(|lens|, l), 15);
  }

  lemma {:induction false} NumberedCopies(lens: seq<nat>, l: nat, n: nat)
    requires l <= 15 && Within(Numbered(lens), 15)
    ensures Within(Numbered(lens + Copies(l, n)), 15)
    ensures Kraft(Numbered(lens + Copies(l, n)), 15) == Kraft(Numbered(lens), 15) + n * Share(l)
    decreases n
  {
    hide Kraft, Share, Within;
    if n == 0 {
      assert lens + Copies(l, 0) == lens;
    } else {
      NumberedCopies(lens, l, n - 1);
      NumberedAppend(lens + Copies(l, n - 1), l);
      assert lens + Copies(l, n) == lens + Copies(l, n - 1) + [l];
      Distribute(n - 1, 1, Share(l));
    }
  }

  /** Reading lengths keeps account of the space they cover and stays within the stream. */
  lemma {:induction false} MainConsistent(buf: seq<byte>, pos: nat, code: seq<Entry>, size: nat, st: Main)
    requires Running(st) && Consistent(st) && |st.lens| <= size && pos <= BitLen(buf)
    requires MainFrom(buf, pos, code, size, st).Ok?
    ensures var (r, p) := MainFrom(buf, pos, code, size, st).value;
            Consistent(r) && |r.lens| <= size && pos <= p <= BitLen(buf)
    decreases size - |st.lens|
  {
    hide SymbolAt, Raw, Kraft, Within, Share, NewCount, Delta;
    if |st.lens| < size && st.kraft < 32768 {
      var (sym, p) := SymbolAt(code, buf, pos).value;
      SymbolAdvances(code, buf, pos);
      if sym <= 15 {
        NumberedAppend(st.lens, sym);
        MainConsistent(buf, p, code, size, WithDirect(st, sym));
      } else {
        var factor := if sym == 16 then 4 else 8;
        var n := if sym == 16 then 2 else 3;
        RawAdvances(buf, p, n);
        var (extra, q) := Raw(buf, p, n).value;
        NumberedCopies(st.lens, if sym == 16 then st.prev else 0, Delta(st, sym, factor, extra));
        CountStays(st, sym, factor);
        MainConsistent(buf, q, code, size, WithRun(st, sym, factor, extra));
      }
    }
  }

  lemma SymbolAdvances(es: seq<Entry>, buf: seq<byte>, pos: nat)
    requires pos <= BitLen(buf) && SymbolAt(es, buf, pos).Ok?
    ensures pos <= SymbolAt(es, buf, pos).value.1 <= BitLen(buf)
  {
    if !(|es| == 1 && es[0].len == 0) { WalkAdvances(es, buf, pos, 0, 0, MaxLen(es)); }
  }

  lemma FinishedIsUsable(st: Main, size: nat)
    requires Consistent(st) && |st.lens| <= size && Finished(st, size).Ok?
    ensures Usable(Finished(st, size).value) && SymbolsBelow(Finished(st, size).value, size)
  {
    hide Kraft, Within, FromLengths, Usable, SymbolsBelow, Nonzero;
    var lens := Padded(st.lens, size);
    NumberedCopies(st.lens, 0, size - |st.lens|);
    if Nonzero(lens) == 1 {
      OneIsUsable(FirstNonzero(lens), size);
    } else {
      PowFifteen();
      ManyIsUsable(lens);
    }
  }

  lemma PowFifteen()
    ensures Pow2(15) == 32768 && Share(0) == 0
  {
    assert Pow2(5) == 32;
    assert Pow2(10) == 1024;
  }

  lemma OneIsUsable(s: nat, size: nat)
    requires s < size
    ensures FromLengths([Pair(s, 0)]).Ok?
    ensures Usable(FromLengths([Pair(s, 0)]).value) && SymbolsBelow(FromLengths([Pair(s, 0)]).value, size)
  {
    OneSymbol(s);
  }

  lemma ManyIsUsable(lens: seq<nat>)
    requires Within(Numbered(lens), 15) && Kraft(Numbered(lens), 15) == Pow2(15)
    ensures FromLengths(Numbered(lens)).Ok?
    ensures Usable(FromLengths(Numbered(lens)).value) && SymbolsBelow(FromLengths(Numbered(lens)).value, |lens|)
  {
    hide Kraft, Within, FromLengths, SymbolsBelow, Full;
    CompleteIsFull(Numbered(lens), 15);
    BuiltSymbols(Numbered(lens), |lens|);
  }

  lemma {:induction false} LengthCodeAdvances(buf: seq<byte>, pos: nat, idx: nat, c: LengthCode)
    requires pos <= BitLen(buf) && LengthCodeFrom(buf, pos, idx, c).Ok?
    ensures pos <= LengthCodeFrom(buf, pos, idx, c).value.1 <= BitLen(buf)
    decreases 18 - idx
  {
    hide LengthCodeAt, WithLength;
    if idx < 18 {
      var (v, p) := LengthCodeAt(buf, pos).value;
      OneLengthAdvances(buf, pos);
      var c' := WithLength(c, idx, v);
      if !(c'.nonzero >= 2 && c'.kraft >= 32) { LengthCodeAdvances(buf, p, idx + 1, c'); }
    }
  }

  lemma OneLengthAdvances(buf: seq<byte>, pos: nat)
    requires pos <= BitLen(buf) && LengthCodeAt(buf, pos).Ok?
    ensures pos <= LengthCodeAt(buf, pos).value.1 <= BitLen(buf)
  {
    hide BitsValue;
  }

  lemma ComplexIsUsable(buf: seq<byte>, pos: nat, hskip: nat, size: nat)
    requires pos <= BitLen(buf) && ComplexAt(buf, pos, hskip, size).Ok?
    ensures var (es, p) := ComplexAt(buf, pos, hskip, size).value;
            Usable(es) && SymbolsBelow(es, size) && pos <= p <= BitLen(buf)
  {
    var c0 := NoLengthsYet();
    var m0 := Main([], 8, None, 0, 0);
    assert Consistent(m0) by { assert Numbered(m0.lens) == []; }
    hide LengthCodeFrom, FromLengths, MainFrom, Finished, Usable, SymbolsBelow, Consistent;
    LengthCodeAdvances(buf, pos, hskip, c0);
    var (c, p) := LengthCodeFrom(buf, pos, hskip, c0).value;
    var code := FromLengths(Numbered(c.lens)).value;
    MainConsistent(buf, p, code, size, m0);
    FinishedIsUsable(MainFrom(buf, p, code, size, m0).value.0, size);
  }

  /**
   Whatever prefix code a stream describes, it is either rejected or it assigns
   every bit string exactly one symbol, and the symbols are in the alphabet.
   */
  lemma PrefixCodeIsUsable(buf: seq<byte>, pos: nat, bits: nat, size: nat)
    requires pos <= BitLen(buf) && PrefixCodeAt(buf, pos, bits, size).Ok?
    ensures var (es, p) := PrefixCodeAt(buf, pos, bits, size).value;
            Usable(es) && SymbolsBelow(es, size) && pos <= p <= BitLen(buf)
  {
    hide SimpleAt, ComplexAt, Usable, SymbolsBelow;
    RawAdvances(buf, pos, 2);
    var (kind, p) := Raw(buf, pos, 2).value;
    if kind == 1 { SimpleIsUsable(buf, p, bits, size); } else { ComplexIsUsable(buf, p, kind, size); }
  }

  // ---- a usable code fails only at the end of the stream ----------------------------------------------

  lemma {:induction false} WalkOutcome(es: seq<Entry>, buf: seq<byte>, pos: nat, code: nat, len: nat, max: nat)
    requires pos <= BitLen(buf) && len <= max
    ensures match Walk(es, buf, pos, code, len, max)
            case Ok((s, _)) => exists i :: 0 <= i < |es| && es[i].sym == s
            case Err(e) => e == BitReaderError(UnexpectedEof) || (e == InvalidCode && pos + (max - len) <= BitLen(buf))
    decreases max - len
  {
    hide BitsValue, First;
    if len < max && BitAt(buf, pos).Ok? {
      var (b, p) := BitAt(buf, pos).value;
      FirstFinds(es, 2 * code + b, len + 1);
      if First(es, 2 * code + b, len + 1).None? { WalkOutcome(es, buf, p, 2 * code + b, len + 1, max); }
    }
  }

  lemma UsableOutcome(es: seq<Entry>, size: nat, buf: seq<byte>, pos: nat)
    requires Usable(es) && SymbolsBelow(es, size) && pos <= BitLen(buf)
    ensures match SymbolAt(es, buf, pos)
            case Ok((s, p)) => s < size && pos <= p <= BitLen(buf)
            case Err(e) => e == BitReaderError(UnexpectedEof)
  {
    hide Walk, Weight, Canonical;
    if !(|es| == 1 && es[0].len == 0) {
      WalkOutcome(es, buf, pos, 0, 0, MaxLen(es));
      LastIsLongest(es);
      if pos + MaxLen(es) <= BitLen(buf) {
        var i := FullNeverFails(es, buf, pos);
      }
    }
    if SymbolAt(es, buf, pos).Ok? { SymbolAdvances(es, buf, pos); }
  }

  lemma LastIsLongest(es: seq<Entry>)
    requires es != [] && Canonical(es)
    ensures MaxLen(es) == es[|es| - 1].len
  {
    hide Weight, MaxLen, Lens;
    var lens := Lens(es);
    var e :| e in es && e.len == MaxLen(es);
    var i :| 0 <= i < |es| && es[i] == e;
    assert lens[i] <= lens[|es| - 1];
    assert es[|es| - 1] in es;
  }

  // ---- the code for the lengths is usable unless it has one symbol ------------------------------------

  /** Where a symbol stands in the reading order. */
  function PlaceOf(sym: nat): nat {
    if sym == 1 then 0 else if sym == 2 then 1 else if sym == 3 then 2 else if sym == 4 then 3 else if sym == 0 then 4
    else if sym == 5 then 5 else if sym == 17 then 6 else if sym == 6 then 7 else if sym == 16 then 8 else sym + 2
  }

  lemma OrderPlaces(j: nat)
    requires j < 18
    ensures CODE_LENGTH_ORDER[j] < 18 && PlaceOf(CODE_LENGTH_ORDER[j]) == j
  {
  }

  /** The running counts are those of the lengths, and the places still to be read are empty. */
  ghost predicate Tallies(c: LengthCode, idx: nat) {
    && Within(Numbered(c.lens), 5)
    && c.kraft == Kraft(Numbered(c.lens), 5)
    && c.nonzero == Nonzero(c.lens)
    && forall s | 0 <= s < 18 && PlaceOf(s) >= idx :: c.lens[s] == 0
  }

  lemma {:induction false} KraftUpdate(ps: seq<Pair>, i: nat, p: Pair, m: nat)
    requires Within(ps, m) && i < |ps| && ps[i].len == 0 && p.len <= m
    ensures Within(ps[i := p], m)
    ensures Kraft(ps[i := p], m) == Kraft(ps, m) + if p.len > 0 then Pow2(m - p.len) else 0
    decreases i
  {
    if i == 0 {
      assert ps[i := p][1..] == ps[1..];
    } else {
      KraftUpdate(ps[1..], i - 1, p, m);
      assert ps[i := p][1..] == ps[1..][i - 1 := p];
    }
  }

  lemma {:induction false} NonzeroUpdate(lens: seq<nat>, i: nat, v: nat)
    requires i < |lens| && lens[i] == 0
    ensures Nonzero(lens[i := v]) == Nonzero(lens) + if v != 0 then 1 else 0
    decreases i
  {
    if i == 0 {
      assert lens[i := v][1..] == lens[1..];
    } else {
      NonzeroUpdate(lens[1..], i - 1, v);
      assert lens[i := v][1..] == lens[1..][i - 1 := v];
    }
  }

  lemma WithLengthTallies(c: LengthCode, idx: nat, v: nat)
    requires idx < 18 && v <= 5 && Tallies(c, idx)
    ensures Tallies(WithLength(c, idx, v), idx + 1)
  {
    hide Kraft, Nonzero, Within, Pow2;
    OrderPlaces(idx);
    hide PlaceOf;
    var s := CODE_LENGTH_ORDER[idx];
    var lens := c.lens[s := v];
    KraftUpdate(Numbered(c.lens), s, Pair(s, v), 5);
    NonzeroUpdate(c.lens, s, v);
    assert Numbered(lens) == Numbered(c.lens)[s := Pair(s, v)];
  }

  lemma {:induction false} LengthCodeTallies(buf: seq<byte>, pos: nat, idx: nat, c: LengthCode)
    requires Tallies(c, idx) && LengthCodeFrom(buf, pos, idx, c).Ok?
    ensures Tallies(LengthCodeFrom(buf, pos, idx, c).value.0, 18)
    decreases 18 - idx
  {
    hide LengthCodeAt, WithLength, Tallies;
    if idx >= 18 {
      TalliesLater(c, idx, 18);
    } else {
      var (v, p) := LengthCodeAt(buf, pos).value;
      WithLengthTallies(c, idx, v);
      var c' := WithLength(c, idx, v);
      if c'.nonzero >= 2 && c'.kraft >= 32 {
        TalliesLater(c', idx + 1, 18);
      } else {
        LengthCodeTallies(buf, p, idx + 1, c');
      }
    }
  }

  lemma TalliesLater(c: LengthCode, i: nat, j: nat)
    requires Tallies(c, i) && (i <= j || j >= 18)
    ensures Tallies(c, j)
  {
    assert forall s | 0 <= s < 18 :: PlaceOf(s) < 18;
  }

  lemma {:induction false} NoZerosLeft(ps: seq<Pair>)
    ensures |Present(ps)| + |Absent(ps)| == |ps|
  {
    if ps != [] { NoZerosLeft(ps[1..]); }
  }

  lemma {:induction false} PresentCounts(lens: seq<nat>, ps: seq<Pair>)
    requires |ps| == |lens| && forall i | 0 <= i < |lens| :: ps[i].len == lens[i]
    ensures |Present(ps)| == Nonzero(lens)
    decreases |lens|
  {
    if lens != [] { PresentCounts(lens[1..], ps[1..]); }
  }

  lemma SortedLength(ps: seq<Pair>)
    ensures |Sorted(ps)| == |ps|
  {
    SortedInOrder(ps);
    assert |multiset(Sorted(ps))| == |multiset(ps)|;
  }

  /** A single code word that has bits leaves bit strings without a symbol. */
  lemma OneWordIsNotFull(es: seq<Entry>)
    requires |es| == 1 && Canonical(es)
    ensures !Usable(es)
  {
    var l := es[0].len;
    assert Weight(Lens(es), 0, l) == 0;
    assert Pow2(0) == 1;
  }

  /**
   The code for the lengths is built unless no length is set, and it decodes any bits
   if and only if at least two are set: one alone is read with its bits.
   */
  lemma LengthCodeUsable(buf: seq<byte>, pos: nat, hskip: nat)
    requires LengthCodeFrom(buf, pos, hskip, NoLengthsYet()).Ok?
    ensures var c := LengthCodeFrom(buf, pos, hskip, NoLengthsYet()).value.0;
            var code := FromLengths(Numbered(c.lens));
            !(c.nonzero >= 2 && c.kraft != 32) ==>
              && (code.Ok? <==> c.nonzero >= 1)
              && (code.Ok? ==> (Usable(code.value) <==> c.nonzero >= 2))
  {
    var c0 := NoLengthsYet();
    StartTallies(c0);
    hide LengthCodeFrom;
    LengthCodeTallies(buf, pos, hskip, c0);
    var c := LengthCodeFrom(buf, pos, hskip, c0).value.0;
    if !(c.nonzero >= 2 && c.kraft != 32) { TalliedUsable(c); }
  }

  lemma {:induction false} NoLengths(n: nat)
    ensures Within(Numbered(Zeros(n)), 5) && Kraft(Numbered(Zeros(n)), 5) == 0 && Nonzero(Zeros(n)) == 0
  {
    if n > 0 {
      NoLengths(n - 1);
      NumberedZeros(n);
    } else {
      assert Zeros(0) == [] && Numbered([]) == [];
    }
  }

  lemma NumberedZeros(n: nat)
    requires n > 0 && Kraft(Numbered(Zeros(n - 1)), 5) == 0 && Nonzero(Zeros(n - 1)) == 0
    ensures Kraft(Numbered(Zeros(n)), 5) == 0 && Nonzero(Zeros(n)) == 0
  {
    assert Numbered(Zeros(n)) == Numbered(Zeros(n - 1)) + [Pair(n - 1, 0)];
    KraftAppend(Numbered(Zeros(n - 1)), Pair(n - 1, 0), 5);
    assert Zeros(n)[1..] == Zeros(n - 1);
  }

  lemma StartTallies(c: LengthCode)
    requires c == NoLengthsYet()
    ensures forall idx :: Tallies(c, idx)
  {
    hide Kraft, Nonzero;
    NoLengths(18);
    assert c.lens == Zeros(18);
  }

  lemma TalliedUsable(c: LengthCode)
    requires Tallies(c, 18) && !(c.nonzero >= 2 && c.kraft != 32)
    ensures var code := FromLengths(Numbered(c.lens));
            && (code.Ok? <==> c.nonzero >= 1)
            && (code.Ok? ==> (Usable(code.value) <==> c.nonzero >= 2))
  {
    hide Kraft, Nonzero, Present, Absent, Sorted, Within, Usable;
    var ps := Numbered(c.lens);
    PresentCounts(c.lens, ps);
    NoZerosLeft(ps);
    SortedLength(Present(ps));
    if c.nonzero >= 2 {
      PowFive();
      CompleteIsFull(ps, 5);
      FullIsUsable(FromLengths(ps).value);
    } else if c.nonzero == 1 {
      PresentStays(ps);
      SortedInOrder(Present(ps));
      AssignedIsCanonical(Sorted(Present(ps)));
      OneWordIsNotFull(FromLengths(ps).value);
    }
  }

  lemma PowFive()
    ensures Pow2(5) == 32
  {
  }

  lemma FullIsUsable(es: seq<Entry>)
    requires Full(es)
    ensures Usable(es)
  {
    hide Full;
  }
}
