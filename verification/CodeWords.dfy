/**
 Printed prefix codes: the word of each symbol, and descriptions of whole codes by
 their lengths (sections 3.3 to 3.5 of RFC 7932), as partners for the readers.
 */
module CodeWords {
  import opened Bytes
  import opened BitReading
  import opened Brotli
  import opened BrotliPrint
  import opened Huffman
  import opened PrefixCodes
  import opened ComplexCodes

  lemma BitsAtSplit(buf: seq<byte>, pos: nat, a: seq<bool>, b: seq<bool>)
    requires BitsAt(buf, pos, a + b)
    ensures BitsAt(buf, pos, a) && BitsAt(buf, pos + |a|, b)
  {
    BitsAtTake(buf, pos, a + b, |a|);
    BitsAtDrop(buf, pos, a + b, |a|);
    assert (a + b)[..|a|] == a && (a + b)[|a|..] == b;
  }

  /** Reading a number that was printed with `n` bits. */
  lemma RawNumber(buf: seq<byte>, pos: nat, v: nat, n: nat)
    requires v < Pow2(n) && 0 < n <= 32 && BitsAt(buf, pos, BitsOf(v, n))
    ensures Raw(buf, pos, n) == Ok((v, pos + n)) && pos + n <= BitLen(buf)
  {
    hide BitsOf, BitsValue;
    assert BitsOf(v, n) + [] == BitsOf(v, n);
    ReadNumber(buf, pos, v, n, []);
  }

  // ---- words ------------------------------------------------------------------------------------

  /** The low `n` bits of a word, heaviest first. */
  function WordBits(code: nat, n: nat): (bits: seq<bool>)
    ensures |bits| == n
    decreases n
  {
    if n == 0 then [] else WordBits(code / 2, n - 1) + [code % 2 == 1]
  }

  lemma {:induction false} WordOfBits(buf: seq<byte>, pos: nat, code: nat, n: nat)
    requires code < Pow2(n) && BitsAt(buf, pos, WordBits(code, n))
    ensures pos + n <= BitLen(buf) && Word(buf, pos, n) == code
    decreases n
  {
    hide Bit;
    if n > 0 {
      var front := WordBits(code / 2, n - 1);
      assert WordBits(code, n)[n - 1] == (code % 2 == 1);
      BitsAtSplit(buf, pos, front, [code % 2 == 1]);
      WordOfBits(buf, pos, code / 2, n - 1);
      assert (Bit(buf, pos + (n - 1)) == 1) == WordBits(code, n)[n - 1];
    }
  }

  predicate Has(es: seq<Entry>, sym: nat) {
    exists i :: 0 <= i < |es| && es[i].sym == sym
  }

  function IndexOf(es: seq<Entry>, sym: nat): (i: nat)
    requires Has(es, sym)
    ensures i < |es| && es[i].sym == sym
  {
    if es[0].sym == sym then 0
    else
      assert exists i :: 0 <= i < |es[1..]| && es[1..][i].sym == sym by {
        var i :| 0 <= i < |es| && es[i].sym == sym;
        assert es[1..][i - 1] == es[i];
      }
      1 + IndexOf(es[1..], sym)
  }

  /** The word a table gives a symbol. */
  function SymbolBits(es: seq<Entry>, sym: nat): seq<bool>
    requires Has(es, sym)
  {
    var e := es[IndexOf(es, sym)];
    WordBits(e.code, e.len)
  }

  /** The words of a full code have no more bits than their length. */
  lemma WordFits(es: seq<Entry>, i: nat)
    requires Full(es) && i < |es|
    ensures es[i].code < Pow2(es[i].len)
  {
    hide Pow2, Weight;
    var lens, m := Lens(es), es[|es| - 1].len;
    assert forall k | 0 <= k < |lens| :: lens[k] <= lens[|es| - 1];
    var l := lens[i];
    assert forall k | 0 <= k < i :: lens[k] <= l;
    WeightNext(lens, i, m);
    WeightGrows(lens, i + 1, |es|, m);
    WeightScale(lens, i, l, m);
    Pow2Add(l, m - l);
    Quotient(es[i].code, Pow2(m - l), Pow2(l));
  }

  lemma Quotient(a: int, h: int, b: int)
    requires h > 0 && a * h + h <= b * h
    ensures a < b
  {
    if b <= a { MulOrder(b, a, h); }
  }

  /** A printed symbol is read back, and nothing behind it. */
  lemma SymbolReads(es: seq<Entry>, sym: nat, buf: seq<byte>, pos: nat)
    requires Usable(es) && Has(es, sym) && BitsAt(buf, pos, SymbolBits(es, sym))
    ensures SymbolAt(es, buf, pos) == Ok((sym, pos + |SymbolBits(es, sym)|))
    ensures pos + |SymbolBits(es, sym)| <= BitLen(buf)
  {
    hide *;
    UsableCases(es);
    if |es| == 1 && es[0].len == 0 {
      ZeroBitReads(es, sym, buf, pos);
    } else {
      var i := IndexOf(es, sym);
      SymbolWord(es, sym);
      WordFits(es, i);
      WordOfBits(buf, pos, es[i].code, es[i].len);
      FullIsCanonical(es);
      ReadsOwnWord(es, buf, pos, i);
    }
  }

  lemma UsableCases(es: seq<Entry>)
    requires Usable(es)
    ensures (|es| == 1 && es[0].len == 0) || Full(es)
  {
    hide Full;
  }

  lemma SymbolWord(es: seq<Entry>, sym: nat)
    requires Has(es, sym)
    ensures SymbolBits(es, sym) == WordBits(es[IndexOf(es, sym)].code, es[IndexOf(es, sym)].len)
  {
    hide WordBits, IndexOf;
  }

  lemma ZeroBitReads(es: seq<Entry>, sym: nat, buf: seq<byte>, pos: nat)
    requires |es| == 1 && es[0].len == 0 && Has(es, sym) && BitsAt(buf, pos, SymbolBits(es, sym))
    ensures SymbolAt(es, buf, pos) == Ok((sym, pos)) && SymbolBits(es, sym) == [] && pos <= BitLen(buf)
  {
    hide Walk, IndexOf;
  }

  lemma FullIsCanonical(es: seq<Entry>)
    requires Full(es)
    ensures Canonical(es)
  {
    hide Canonical;
  }

  /** Every symbol with a length is in the table built from the lengths. */
  lemma BuiltHas(ps: seq<Pair>, i: nat)
    requires FromLengths(ps).Ok? && i < |ps| && ps[i].len > 0
    ensures Has(FromLengths(ps).value, ps[i].sym)
  {
    hide Present, Sorted, InOrder;
    PresentHas(ps, i);
    SortedInOrder(Present(ps));
    var es := Sorted(Present(ps));
    assert ps[i] in multiset(Present(ps));
    assert ps[i] in multiset(es);
    var k :| 0 <= k < |es| && es[k] == ps[i];
    InOrderAscends(es);
    assert Assigned(es)[k].sym == ps[i].sym;
  }

  lemma {:induction false} PresentHas(ps: seq<Pair>, i: nat)
    requires i < |ps| && ps[i].len > 0
    ensures ps[i] in Present(ps)
  {
    if i > 0 { PresentHas(ps[1..], i - 1); }
  }

  // ---- the flat code for the lengths ------------------------------------------------------------

  /** Four bits for each of the lengths 0 to 15, none for the repeats. */
  function FlatLength(s: nat): nat {
    if s < 16 then 4 else 0
  }

  /** The symbol at this place of the order has a length. */
  predicate FlatOn(idx: nat)
    requires idx < 18
  {
    CODE_LENGTH_ORDER[idx] < 16
  }

  /** The printed lengths from place `idx` of the order on. */
  function FlatFrom(idx: nat): (bits: seq<bool>)
    requires idx <= 18
    ensures |bits| == 2 * (18 - idx)
    decreases 18 - idx
  {
    if idx == 18 then [] else [FlatOn(idx), false] + FlatFrom(idx + 1)
  }

  function FlatCount(idx: nat): nat {
    if idx <= 6 then idx else if idx <= 8 then idx - 1 else idx - 2
  }

  /** The lengths of the symbols whose place in the order is before `idx`. */
  function FlatCode(idx: nat): LengthCode {
    LengthCode(seq(18, s requires 0 <= s < 18 => if PlaceOf(s) < idx then FlatLength(s) else 0),
               FlatCount(idx), 2 * FlatCount(idx))
  }

  lemma FlatPair(buf: seq<byte>, pos: nat, on: bool)
    requires BitsAt(buf, pos, [on, false])
    ensures LengthCodeAt(buf, pos) == Ok((if on then 4 else 0, pos + 2))
  {
    assert (Bit(buf, pos + 0) == 1) == [on, false][0] && (Bit(buf, pos + 1) == 1) == [on, false][1];
    hide Bit;
    assert BitsValue(buf, pos, 1) == Bit(buf, pos) && BitsValue(buf, pos + 1, 1) == Bit(buf, pos + 1);
  }

  lemma FlatStep(idx: nat)
    requires idx < 18
    ensures WithLength(FlatCode(idx), idx, if FlatOn(idx) then 4 else 0) == FlatCode(idx + 1)
    ensures FlatCode(idx + 1).nonzero >= 2 && FlatCode(idx + 1).kraft >= 32 <==> idx == 17
  {
    var s, v := CODE_LENGTH_ORDER[idx], if FlatOn(idx) then 4 else 0;
    OrderPlaces(idx);
    var c, d := FlatCode(idx), FlatCode(idx + 1);
    forall t | 0 <= t < 18
      ensures c.lens[s := v][t] == d.lens[t]
    {
      PlacesDiffer(idx, t);
    }
    assert c.lens[s := v] == d.lens;
    assert Pow2(1) == 2;
  }

  /** No two symbols share a place. */
  lemma PlacesDiffer(idx: nat, t: nat)
    requires idx < 18 && t < 18
    ensures PlaceOf(t) == idx <==> t == CODE_LENGTH_ORDER[idx]
  {
  }

  lemma {:induction false} FlatReads(buf: seq<byte>, pos: nat, idx: nat)
    requires idx <= 18 && BitsAt(buf, pos, FlatFrom(idx))
    ensures LengthCodeFrom(buf, pos, idx, FlatCode(idx)) == Ok((FlatCode(18), pos + 2 * (18 - idx)))
    decreases 18 - idx
  {
    hide BitsAt, LengthCodeAt, WithLength, FlatCode, FlatOn;
    if idx < 18 {
      BitsAtSplit(buf, pos, [FlatOn(idx), false], FlatFrom(idx + 1));
      FlatPair(buf, pos, FlatOn(idx));
      FlatStep(idx);
      FlatReads(buf, pos + 2, idx + 1);
    }
  }

  lemma FlatStarts()
    ensures FlatCode(0) == NoLengthsYet() && forall s | 0 <= s < 18 :: FlatCode(18).lens[s] == FlatLength(s)
  {
    assert forall s | 0 <= s < 18 :: PlaceOf(s) < 18;
  }

  /** The table the flat code is built into. */
  function FlatTable(): (r: Result<seq<Entry>, HuffmanError>) {
    FromLengths(Numbered(FlatCode(18).lens))
  }

  lemma FlatTallies()
    ensures FlatCode(18).nonzero == 16 && FlatCode(18).kraft == 32
    ensures forall l: nat | l <= 15 :: Numbered(FlatCode(18).lens)[l] == Pair(l, 4)
  {
    FlatStarts();
  }

  lemma FlatIsUsable(buf: seq<byte>, pos: nat)
    requires BitsAt(buf, pos, FlatFrom(0))
    ensures LengthCodeFrom(buf, pos, 0, NoLengthsYet()) == Ok((FlatCode(18), pos + 36))
    ensures FlatTable().Ok? && Usable(FlatTable().value) && forall l | 0 <= l <= 15 :: Has(FlatTable().value, l)
  {
    hide LengthCodeFrom, FromLengths, Usable, PlaceOf, Has, FlatFrom, BitsAt, FlatCode, Numbered;
    FlatStarts();
    FlatReads(buf, pos, 0);
    FlatTallies();
    LengthCodeUsable(buf, pos, 0);
    forall l: nat | l <= 15
      ensures Has(FlatTable().value, l)
    {
      BuiltHas(Numbered(FlatCode(18).lens), l);
    }
  }

  // ---- lengths printed one by one ------------------------------------------------------------------

  function FlatWord(l: nat): seq<bool> {
    if FlatTable().Ok? && Has(FlatTable().value, l) then SymbolBits(FlatTable().value, l) else []
  }

  function LengthBits(lens: seq<nat>): seq<bool> {
    if lens == [] then [] else FlatWord(lens[0]) + LengthBits(lens[1..])
  }

  /** The space a list of lengths covers, of 32768 words. */
  function Shares(lens: seq<nat>): nat {
    if lens == [] then 0 else Share(lens[0]) + Shares(lens[1..])
  }

  /** Lengths up to 15, the last one set, that cover the code space exactly. */
  ghost predicate Complete(lens: seq<nat>) {
    && lens != [] && lens[|lens| - 1] > 0 && Shares(lens) == 32768
    && forall i | 0 <= i < |lens| :: lens[i] <= 15
  }

  lemma {:induction false} SharesPositive(lens: seq<nat>)
    requires lens != [] && 0 < lens[|lens| - 1] <= 15
    ensures Shares(lens) > 0
    decreases |lens|
  {
    if |lens| > 1 {
      assert lens[1..][|lens| - 2] == lens[|lens| - 1];
      SharesPositive(lens[1..]);
    }
  }

  ghost predicate FlatWorks() {
    FlatTable().Ok? && Usable(FlatTable().value) && forall l | 0 <= l <= 15 :: Has(FlatTable().value, l)
  }

  lemma FlatWordReads(buf: seq<byte>, pos: nat, l: nat)
    requires FlatWorks() && l <= 15 && BitsAt(buf, pos, FlatWord(l))
    ensures SymbolAt(FlatTable().value, buf, pos) == Ok((l, pos + |FlatWord(l)|))
  {
    hide FlatTable, SymbolAt, SymbolBits, Usable, Has, BitsAt;
    SymbolReads(FlatTable().value, l, buf, pos);
  }

  lemma {:induction false} DirectLengthsRead(buf: seq<byte>, pos: nat, size: nat, st: Main, lens: seq<nat>)
    requires FlatWorks() && Running(st) && BitsAt(buf, pos, LengthBits(lens)) && |st.lens| + |lens| <= size
    requires st.kraft + Shares(lens) == 32768 && (forall i | 0 <= i < |lens| :: lens[i] <= 15)
    requires lens != [] ==> lens[|lens| - 1] > 0
    ensures MainFrom(buf, pos, FlatTable().value, size, st).Ok?
    ensures var (r, p) := MainFrom(buf, pos, FlatTable().value, size, st).value;
            r.lens == st.lens + lens && r.kraft == 32768 && p == pos + |LengthBits(lens)|
    decreases |lens|
  {
    hide FlatTable, SymbolAt, FlatWord, Share, BitsAt, FlatWorks;
    assert FlatTable().Ok? by { Works(); }
    if lens == [] {
      assert st.lens + lens == st.lens;
    } else {
      SharesPositive(lens);
      var next := WithDirect(st, lens[0]);
      BitsAtSplit(buf, pos, FlatWord(lens[0]), LengthBits(lens[1..]));
      FlatWordReads(buf, pos, lens[0]);
      DirectLengthsRead(buf, pos + |FlatWord(lens[0])|, size, next, lens[1..]);
      assert next.lens + lens[1..] == st.lens + lens;
    }
  }

  lemma Works()
    requires FlatWorks()
    ensures FlatTable().Ok?
  {
  }

  lemma {:induction false} FewCoverLess(lens: seq<nat>)
    requires forall i | 0 <= i < |lens| :: lens[i] <= 15
    ensures Shares(lens) <= 16384 * Nonzero(lens)
    decreases |lens|
  {
    if lens != [] {
      FewCoverLess(lens[1..]);
      assert Pow2(14) == 16384 by { assert Pow2(7) == 128; Pow2Add(7, 7); }
      if lens[0] > 0 { Pow2Monotone(15 - lens[0], 14); }
    }
  }

  lemma {:induction false} NonzeroPadded(lens: seq<nat>, n: nat)
    ensures Nonzero(lens + Zeros(n)) == Nonzero(lens)
    decreases |lens|, n
  {
    if lens != [] {
      assert (lens + Zeros(n))[1..] == lens[1..] + Zeros(n);
      NonzeroPadded(lens[1..], n);
    } else if n > 0 {
      assert (lens + Zeros(n))[1..] == lens + Zeros(n - 1);
      NonzeroPadded(lens, n - 1);
    }
  }

  // ---- whole codes ------------------------------------------------------------------------------------

  /** A code of one symbol, or of the symbols that have a length. */
  datatype CodeSpec = One(sym: nat) | Many(lens: seq<nat>)

  ghost predicate Describable(spec: CodeSpec, bits: nat, size: nat) {
    match spec
    case One(sym) => sym < size && sym < Pow2(bits) && 0 < bits <= 32
    case Many(lens) => |lens| <= size && Complete(lens)
  }

  function TableOf(spec: CodeSpec, size: nat): seq<Entry> {
    match spec
    case One(sym) => [Entry(sym, 0, 0)]
    case Many(lens) =>
      var r := FromLengths(Numbered(Padded(lens, size)));
      if r.Ok? then r.value else []
  }

  function SpecBits(spec: CodeSpec, bits: nat): seq<bool> {
    match spec
    case One(sym) => BitsOf(1, 2) + (BitsOf(0, 2) + BitsOf(sym, bits))
    case Many(lens) => BitsOf(0, 2) + (FlatFrom(0) + LengthBits(lens))
  }

  lemma OneSymbolAt(buf: seq<byte>, pos: nat, sym: nat, bits: nat, size: nat)
    requires Raw(buf, pos, bits) == Ok((sym, pos + bits)) && sym < size
    ensures SymbolsAt(buf, pos, bits, size, 1, []) == Ok(([sym], pos + bits))
  {
    hide Raw;
    assert [] + [sym] == [sym];
    assert SymbolsAt(buf, pos + bits, bits, size, 0, [sym]) == Ok(([sym], pos + bits));
  }

  lemma OneReads(buf: seq<byte>, pos: nat, sym: nat, bits: nat, size: nat)
    requires Describable(One(sym), bits, size) && BitsAt(buf, pos, BitsOf(0, 2) + BitsOf(sym, bits))
    ensures pos <= BitLen(buf) && SimpleAt(buf, pos, bits, size) == Ok(([Entry(sym, 0, 0)], pos + 2 + bits))
  {
    hide BitsAt, BitsOf, Raw, FromLengths, SymbolsAt, Zip;
    PowFour();
    BitsAtSplit(buf, pos, BitsOf(0, 2), BitsOf(sym, bits));
    RawNumber(buf, pos, 0, 2);
    RawNumber(buf, pos + 2, sym, bits);
    OneSymbolAt(buf, pos + 2, sym, bits, size);
    OneZipped(sym);
    OneSymbol(sym);
  }

  lemma OneZipped(sym: nat)
    ensures Zip([sym], [0]) == [Pair(sym, 0)]
  {
  }

  lemma FinishedMany(st: Main, lens: seq<nat>, size: nat)
    requires Complete(lens) && |lens| <= size && st.lens == lens && st.kraft == 32768
    ensures Finished(st, size) == FromLengths(Numbered(Padded(lens, size)))
  {
    hide Nonzero, FromLengths, Shares;
    FewCoverLess(lens);
    NonzeroPadded(lens, size - |lens|);
  }

  lemma ManyReads(buf: seq<byte>, pos: nat, lens: seq<nat>, size: nat)
    requires Complete(lens) && |lens| <= size && BitsAt(buf, pos, FlatFrom(0) + LengthBits(lens))
    ensures FromLengths(Numbered(Padded(lens, size))).Ok? ==>
              ComplexAt(buf, pos, 0, size) == Ok((TableOf(Many(lens), size), pos + 36 + |LengthBits(lens)|))
  {
    hide BitsAt, FlatFrom, LengthBits, LengthCodeFrom, FromLengths, MainFrom, Finished, Complete, FlatCode, Usable, Has;
    BitsAtSplit(buf, pos, FlatFrom(0), LengthBits(lens));
    FlatIsUsable(buf, pos);
    FlatTallies();
    hide FlatTable;
    var st := Main([], 8, None, 0, 0);
    CompleteParts(lens);
    DirectLengthsRead(buf, pos + 36, size, st, lens);
    assert [] + lens == lens;
    var (r, p) := MainFrom(buf, pos + 36, FlatTable().value, size, st).value;
    FinishedMany(r, lens, size);
    ComplexParts(buf, pos, size, r, p);
  }

  lemma CompleteParts(lens: seq<nat>)
    requires Complete(lens)
    ensures Shares(lens) == 32768 && lens != [] && lens[|lens| - 1] > 0
    ensures forall i | 0 <= i < |lens| :: lens[i] <= 15
  {
    hide Shares;
  }

  lemma ComplexParts(buf: seq<byte>, pos: nat, size: nat, r: Main, p: nat)
    requires LengthCodeFrom(buf, pos, 0, NoLengthsYet()) == Ok((FlatCode(18), pos + 36)) && FlatTable().Ok?
    requires FlatCode(18).nonzero == 16 && FlatCode(18).kraft == 32
    requires MainFrom(buf, pos + 36, FlatTable().value, size, Main([], 8, None, 0, 0)) == Ok((r, p))
    ensures ComplexAt(buf, pos, 0, size)
         == match Finished(r, size) { case Ok(es) => Ok((es, p)) case Err(e) => Err(e) }
  {
    hide LengthCodeFrom, FromLengths, MainFrom, Finished, FlatCode;
  }

  /** Padding a complete list keeps it complete, so a table is built. */
  lemma ManyBuilds(lens: seq<nat>, size: nat)
    requires Complete(lens) && |lens| <= size
    ensures FromLengths(Numbered(Padded(lens, size))).Ok?
  {
    hide Kraft, FromLengths, Usable, SymbolsBelow, Within, Shares;
    CompleteParts(lens);
    SharesAreKraft(lens, |lens|);
    assert lens[..|lens|] == lens;
    NumberedCopies(lens, 0, size - |lens|);
    PowFifteen();
    ManyIsUsable(Padded(lens, size));
  }

  lemma {:induction false} SharesAppend(lens: seq<nat>, l: nat)
    ensures Shares(lens + [l]) == Shares(lens) + Share(l)
    decreases |lens|
  {
    hide Share;
    if lens == [] {
      assert lens + [l] == [l] && [l][1..] == [];
    } else {
      assert (lens + [l])[1..] == lens[1..] + [l];
      SharesAppend(lens[1..], l);
    }
  }

  lemma {:induction false} SharesAreKraft(lens: seq<nat>, n: nat)
    requires n <= |lens| && forall i | 0 <= i < |lens| :: lens[i] <= 15
    ensures Within(Numbered(lens[..n]), 15) && Kraft(Numbered(lens[..n]), 15) == Shares(lens[..n])
    decreases n
  {
    hide Share;
    if n == 0 {
      assert Numbered([]) == [];
    } else {
      SharesAreKraft(lens, n - 1);
      assert lens[..n] == lens[..n - 1] + [lens[n - 1]];
      NumberedAppend(lens[..n - 1], lens[n - 1]);
      SharesAppend(lens[..n - 1], lens[n - 1]);
    }
  }

  /** Every code of one symbol and every complete list of lengths is read back from its description. */
  lemma CodeReads(buf: seq<byte>, pos: nat, spec: CodeSpec, bits: nat, size: nat)
    requires Describable(spec, bits, size) && BitsAt(buf, pos, SpecBits(spec, bits))
    ensures pos <= BitLen(buf)
    ensures PrefixCodeAt(buf, pos, bits, size) == Ok((TableOf(spec, size), pos + |SpecBits(spec, bits)|))
  {
    hide BitsAt, BitsOf, Raw, SimpleAt, ComplexAt, FlatFrom, LengthBits, FromLengths, Complete;
    PowFour();
    match spec
    case One(sym) =>
      BitsAtSplit(buf, pos, BitsOf(1, 2), BitsOf(0, 2) + BitsOf(sym, bits));
      RawNumber(buf, pos, 1, 2);
      OneReads(buf, pos + 2, sym, bits, size);
    case Many(lens) =>
      BitsAtSplit(buf, pos, BitsOf(0, 2), FlatFrom(0) + LengthBits(lens));
      RawNumber(buf, pos, 0, 2);
      ManyBuilds(lens, size);
      ManyReads(buf, pos + 2, lens, size);
  }

  /** Its symbols are in the table. */
  lemma TableHas(spec: CodeSpec, bits: nat, size: nat, s: nat)
    requires Describable(spec, bits, size)
    requires match spec { case One(sym) => s == sym case Many(lens) => s < |lens| && lens[s] > 0 }
    ensures Has(TableOf(spec, size), s)
  {
    hide FromLengths, Complete;
    match spec
    case One(sym) => assert TableOf(spec, size)[0].sym == s;
    case Many(lens) =>
      hide Has;
      ManyBuilds(lens, size);
      assert Numbered(Padded(lens, size))[s] == Pair(s, lens[s]);
      BuiltHas(Numbered(Padded(lens, size)), s);
  }
}
