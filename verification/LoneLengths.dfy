/**
 A code-length code with a single length.  Section 3.5 of RFC 7932 gives its symbol
 no bits; the decoder builds it as a word of that length and reads the bits.
 */
module LoneLengths {
  import opened Bytes
  import opened BitReading
  import opened Huffman
  import opened PrefixCodes
  import opened ComplexCodes

  // ---- the two readings ------------------------------------------------------------------------

  /** The table of the standard: one length alone is a symbol without bits. */
  function RfcTable(lens: seq<nat>): Result<seq<Entry>, HuffmanError> {
    if Nonzero(lens) == 1 then Ok([Entry(FirstNonzero(lens), 0, 0)]) else FromLengths(Numbered(lens))
  }

  /** The code whose lengths are written with this table. */
  function Described(buf: seq<byte>, pos: nat, table: seq<Entry>, size: nat): Read<seq<Entry>> {
    var (st, p) :- MainFrom(buf, pos, table, size, Main([], 8, None, 0, 0));
    var es :- Finished(st, size);
    Ok((es, p))
  }

  /** The finished code of the standard: at least two lengths are set. */
  function RfcFinished(st: Main, size: nat): Result<seq<Entry>, HuffmanError> {
    if Nonzero(Padded(st.lens, size)) < 2 then Err(InsufficientNonzeroLengths) else Finished(st, size)
  }

  function RfcDescribed(buf: seq<byte>, pos: nat, table: seq<Entry>, size: nat): Read<seq<Entry>> {
    var (st, p) :- MainFrom(buf, pos, table, size, Main([], 8, None, 0, 0));
    var es :- RfcFinished(st, size);
    Ok((es, p))
  }

  /** A complex code as section 3.5 has it. */
  function RfcComplexAt(buf: seq<byte>, pos: nat, hskip: nat, size: nat): Read<seq<Entry>> {
    var (c, p) :- LengthCodeFrom(buf, pos, hskip, NoLengthsYet());
    if c.nonzero >= 2 && c.kraft != 32 then Err(NotCanonical)
    else
      var table :- RfcTable(c.lens);
      RfcDescribed(buf, p, table, size)
  }

  // ---- a lone length and its word ----------------------------------------------------------------

  /** The one length that is set, numbered from `k` on. */
  function LonePairs(lens: seq<nat>, k: nat): seq<Pair> {
    if Nonzero(lens) == 0 then [] else [Pair(k + FirstNonzero(lens), lens[FirstNonzero(lens)])]
  }

  lemma {:induction false} PresentLone(lens: seq<nat>, k: nat)
    requires Nonzero(lens) <= 1
    ensures Present(Shifted(lens, k)) == LonePairs(lens, k)
    decreases |lens|
  {
    if lens != [] {
      hide *;
      LoneStep(lens, k);
      ShiftedStep(lens, k);
      PresentLone(lens[1..], k + 1);
    }
  }

  lemma LoneStep(lens: seq<nat>, k: nat)
    requires lens != [] && Nonzero(lens) <= 1
    ensures Nonzero(lens[1..]) <= 1
    ensures lens[0] > 0 ==> LonePairs(lens, k) == [Pair(k, lens[0])] && LonePairs(lens[1..], k + 1) == []
    ensures lens[0] == 0 ==> LonePairs(lens, k) == LonePairs(lens[1..], k + 1)
  {
    hide Nonzero, FirstNonzero;
    NonzeroStep(lens);
    if Nonzero(lens) > 0 {
      FirstStep(lens);
      var i := FirstNonzero(lens);
      if lens[0] == 0 { assert lens[i] == lens[1..][i - 1]; }
    }
  }

  lemma NonzeroStep(lens: seq<nat>)
    requires lens != []
    ensures Nonzero(lens) == (if lens[0] != 0 then 1 else 0) + Nonzero(lens[1..])
  {
  }

  lemma FirstStep(lens: seq<nat>)
    requires Nonzero(lens) > 0
    ensures lens != []
    ensures lens[0] == 0 ==> Nonzero(lens[1..]) > 0
    ensures FirstNonzero(lens) == if lens[0] != 0 then 0 else 1 + FirstNonzero(lens[1..])
  {
  }

  lemma ShiftedStep(lens: seq<nat>, k: nat)
    requires lens != []
    ensures Present(Shifted(lens, k))
         == (if lens[0] > 0 then [Pair(k, lens[0])] else []) + Present(Shifted(lens[1..], k + 1))
  {
    var ps := Shifted(lens, k);
    assert ps[0] == Pair(k, lens[0]) && ps[1..] == Shifted(lens[1..], k + 1);
    hide Shifted;
  }

  /** Lengths numbered from `k` on. */
  function Shifted(lens: seq<nat>, k: nat): (ps: seq<Pair>)
    ensures |ps| == |lens|
  {
    seq(|lens|, i requires 0 <= i < |lens| => Pair(k + i, lens[i]))
  }

  lemma NumberedIsShifted(lens: seq<nat>)
    ensures Numbered(lens) == Shifted(lens, 0)
  {
  }

  lemma LoneTable(lens: seq<nat>)
    requires Nonzero(lens) == 1
    ensures var s := FirstNonzero(lens); FromLengths(Numbered(lens)) == Ok([Entry(s, 0, lens[s])])
  {
    hide Nonzero, FirstNonzero;
    var s := FirstNonzero(lens);
    PresentLone(lens, 0);
    NumberedIsShifted(lens);
    OneWord(Numbered(lens), Pair(s, lens[s]));
  }

  lemma OneWord(ps: seq<Pair>, x: Pair)
    requires Present(ps) == [x]
    ensures FromLengths(ps) == Ok([Entry(x.sym, 0, x.len)])
  {
    hide Present;
    assert Sorted([]) == [] && [x][1..] == [];
    assert Sorted([x]) == [x];
    assert Weight(PairLens([x]), 0, x.len) == 0;
    assert Assigned([x]) == [Entry(x.sym, 0, x.len)];
  }

  lemma LoneMax(s: nat, l: nat)
    ensures MaxLen([Entry(s, 0, l)]) == l
  {
    assert [Entry(s, 0, l)][1..] == [];
  }

  lemma FirstOfOne(s: nat, l: nat, code: nat, len: nat)
    ensures First([Entry(s, 0, l)], code, len) == if len == l && code == 0 then Some(s) else None
  {
    assert [Entry(s, 0, l)][1..] == [];
  }

  lemma {:induction false} WalkLone(s: nat, l: nat, buf: seq<byte>, pos: nat, k: nat)
    requires k < l && pos + k <= BitLen(buf)
    ensures Walk([Entry(s, 0, l)], buf, pos + k, Word(buf, pos, k), k, l)
         == if pos + l > BitLen(buf) then Err(BitReaderError(UnexpectedEof))
            else if Word(buf, pos, l) == 0 then Ok((s, pos + l)) else Err(InvalidCode)
    decreases l - k
  {
    hide Bit, First;
    if pos + k < BitLen(buf) {
      assert BitsValue(buf, pos + k, 1) == Bit(buf, pos + k);
      assert Word(buf, pos, k + 1) == 2 * Word(buf, pos, k) + Bit(buf, pos + k);
      hide Word, BitsValue;
      FirstOfOne(s, l, Word(buf, pos, k + 1), k + 1);
      if k + 1 < l { WalkLone(s, l, buf, pos, k + 1); }
    }
  }

  /** A lone word of `l` bits is read from `l` zero bits; any other bits are refused. */
  lemma LoneReads(s: nat, l: nat, buf: seq<byte>, pos: nat)
    requires pos <= BitLen(buf)
    ensures SymbolAt([Entry(s, 0, l)], buf, pos)
         == if l > 0 && pos + l > BitLen(buf) then Err(BitReaderError(UnexpectedEof))
            else if l == 0 || Word(buf, pos, l) == 0 then Ok((s, pos + l)) else Err(InvalidCode)
  {
    hide Walk;
    LoneMax(s, l);
    if l > 0 { WalkLone(s, l, buf, pos, 0); }
  }

  /** What the decoder makes of a description with one length alone. */
  lemma LoneLength(buf: seq<byte>, pos: nat, hskip: nat)
    requires pos <= BitLen(buf) && LengthCodeFrom(buf, pos, hskip, NoLengthsYet()).Ok?
    requires LengthCodeFrom(buf, pos, hskip, NoLengthsYet()).value.0.nonzero == 1
    ensures var (c, p) := LengthCodeFrom(buf, pos, hskip, NoLengthsYet()).value;
            && Nonzero(c.lens) == 1 && p <= BitLen(buf)
            && var s := FirstNonzero(c.lens);
               && s < 18 && 1 <= c.lens[s] <= 5
               && FromLengths(Numbered(c.lens)) == Ok([Entry(s, 0, c.lens[s])])
  {
    StartTallies(NoLengthsYet());
    hide LengthCodeFrom, Kraft;
    LengthCodeTallies(buf, pos, hskip, NoLengthsYet());
    LengthCodeAdvances(buf, pos, hskip, NoLengthsYet());
    var (c, p) := LengthCodeFrom(buf, pos, hskip, NoLengthsYet()).value;
    LoneTable(c.lens);
    var s := FirstNonzero(c.lens);
    assert Numbered(c.lens)[s].len <= 5;
  }

  // ---- how far reading the lengths goes ------------------------------------------------------------

  /** Without bits, direct lengths leave the cursor where it is. */
  lemma {:induction false} DirectStays(s: nat, buf: seq<byte>, pos: nat, size: nat, st: Main)
    requires Running(st) && s <= 15 && MainFrom(buf, pos, [Entry(s, 0, 0)], size, st).Ok?
    ensures MainFrom(buf, pos, [Entry(s, 0, 0)], size, st).value.1 == pos
    decreases size - |st.lens|
  {
    hide Share;
    if |st.lens| < size && st.kraft < 32768 { DirectStays(s, buf, pos, size, WithDirect(st, s)); }
  }

  /** With or without bits, a lone direct length gives the same lengths. */
  lemma {:induction false} DirectAlike(s: nat, l: nat, buf: seq<byte>, pos: nat, at: nat, size: nat, st: Main)
    requires Running(st) && s <= 15 && pos <= BitLen(buf) && MainFrom(buf, pos, [Entry(s, 0, l)], size, st).Ok?
    ensures MainFrom(buf, at, [Entry(s, 0, 0)], size, st)
         == Ok((MainFrom(buf, pos, [Entry(s, 0, l)], size, st).value.0, at))
    decreases size - |st.lens|
  {
    hide Share, SymbolAt;
    if |st.lens| < size && st.kraft < 32768 {
      LoneReads(s, l, buf, pos);
      NoBitsRead(s, buf, at);
      DirectAlike(s, l, buf, pos + l, at, size, WithDirect(st, s));
    }
  }

  lemma NoBitsRead(s: nat, buf: seq<byte>, at: nat)
    ensures SymbolAt([Entry(s, 0, 0)], buf, at) == Ok((s, at))
  {
    LoneMax(s, 0);
  }

  /** With bits, the first length alone moves it. */
  lemma DirectMoves(s: nat, l: nat, buf: seq<byte>, pos: nat, size: nat)
    requires s <= 15 && l > 0 && pos <= BitLen(buf) && size > 0
    requires MainFrom(buf, pos, [Entry(s, 0, l)], size, Main([], 8, None, 0, 0)).Ok?
    ensures MainFrom(buf, pos, [Entry(s, 0, l)], size, Main([], 8, None, 0, 0)).value.1 > pos
  {
    var st := Main([], 8, None, 0, 0);
    var code := [Entry(s, 0, l)];
    LoneReads(s, l, buf, pos);
    hide SymbolAt;
    assert Consistent(st) by { assert Numbered([]) == []; }
    NumberedAppend([], s);
    MainConsistent(buf, pos + l, code, size, WithDirect(st, s));
  }

  ghost predicate AllZero(st: Main) {
    forall i | 0 <= i < |st.lens| :: st.lens[i] == 0
  }

  /** Zeros and runs of zeros alone describe no code. */
  lemma {:induction false} ZeroRuns(s: nat, l: nat, buf: seq<byte>, pos: nat, size: nat, st: Main)
    requires Running(st) && AllZero(st) && (s == 0 || s == 17) && pos <= BitLen(buf)
    requires MainFrom(buf, pos, [Entry(s, 0, l)], size, st).Ok?
    ensures AllZero(MainFrom(buf, pos, [Entry(s, 0, l)], size, st).value.0)
    decreases size - |st.lens|
  {
    hide Raw, Share, NewCount, Delta, SymbolAt;
    if |st.lens| < size && st.kraft < 32768 {
      LoneReads(s, l, buf, pos);
      if s == 0 {
        ZeroRuns(s, l, buf, pos + l, size, WithDirect(st, 0));
      } else {
        RawAdvances(buf, pos + l, 3);
        var (extra, p) := Raw(buf, pos + l, 3).value;
        CountStays(st, 17, 8);
        ZeroRuns(s, l, buf, p, size, WithRun(st, 17, 8, extra));
      }
    }
  }

  lemma {:induction false} NoneSet(lens: seq<nat>)
    requires forall i | 0 <= i < |lens| :: lens[i] == 0
    ensures Nonzero(lens) == 0
  {
    if lens != [] { NoneSet(lens[1..]); }
  }

  lemma ZeroRunsFail(s: nat, l: nat, buf: seq<byte>, pos: nat, size: nat)
    requires (s == 0 || s == 17) && pos <= BitLen(buf)
    ensures Described(buf, pos, [Entry(s, 0, l)], size).Err?
  {
    hide MainFrom;
    var st := Main([], 8, None, 0, 0);
    if MainFrom(buf, pos, [Entry(s, 0, l)], size, st).Ok? {
      ZeroRuns(s, l, buf, pos, size, st);
      NoneSet(Padded(MainFrom(buf, pos, [Entry(s, 0, l)], size, st).value.0.lens, size));
    }
  }

  // ---- runs of the default length ------------------------------------------------------------------

  /** The shortest and the longest run that `m` repeats in a row can spell, less two. */
  function Least(m: nat): nat {
    if m == 0 then 0 else 4 * Least(m - 1) + 1
  }

  function Most(m: nat): nat {
    if m == 0 then 0 else 4 * Most(m - 1) + 4
  }

  /** The state after `m` repeats of the default length and nothing else. */
  ghost predicate Repeated(st: Main, m: nat) {
    && st.prev == 8 && st.kraft == 128 * |st.lens|
    && (forall i | 0 <= i < |st.lens| :: st.lens[i] == 8)
    && if m == 0 then st.lens == [] && st.repeating == None
       else st.repeating == Some(16) && |st.lens| == st.count && Least(m) <= st.count - 2 <= Most(m)
  }

  lemma RepeatOnce(st: Main, m: nat, extra: nat)
    requires Running(st) && Repeated(st, m) && extra <= 3
    ensures Repeated(WithRun(st, 16, 4, extra), m + 1)
  {
    assert Pow2(7) == 128;
    assert Share(8) == 128;
    hide Share;
  }

  lemma Bounds()
    ensures Most(3) == 84 && Least(5) == 341
  {
  }

  lemma {:induction false} MostGrows(m: nat, n: nat)
    requires m <= n
    ensures Most(m) <= Most(n) && Least(m) <= Least(n)
    decreases n
  {
    if m < n { MostGrows(m, n - 1); }
  }

  /** The lengths there must be after `m` repeats for 256 after four. */
  function OnTheWay(m: nat): nat {
    if m == 1 then 5 else if m == 2 then 17 else if m == 3 then 65 else 256
  }

  lemma StopsAtFour(st: Main, m: nat)
    requires Running(st) && Repeated(st, m)
    ensures |st.lens| != 1 && (st.kraft == 32768 ==> m == 4 && st.count == OnTheWay(m))
    ensures forall i | 0 <= i < |st.lens| :: st.lens[i] == 8
  {
    Bounds();
    hide Most, Least;
    if m <= 3 { MostGrows(m, 3); } else if m >= 5 { MostGrows(5, m); }
  }

  /** A whole code space of words of eight bits takes exactly four repeats. */
  lemma {:induction false} FourRepeats(l: nat, buf: seq<byte>, pos: nat, size: nat, st: Main, m: nat)
    requires Running(st) && Repeated(st, m) && pos <= BitLen(buf)
    requires MainFrom(buf, pos, [Entry(16, 0, l)], size, st).Ok?
    ensures var (r, p) := MainFrom(buf, pos, [Entry(16, 0, l)], size, st).value;
            && (forall i | 0 <= i < |r.lens| :: r.lens[i] == 8) && |r.lens| != 1
            && (r.kraft == 32768 ==> m <= 4 && p == pos + (4 - m) * (l + 2) && (m > 0 ==> st.count == OnTheWay(m)))
    decreases size - |st.lens|
  {
    hide *;
    if |st.lens| >= size || st.kraft >= 32768 {
      RunStops(buf, pos, [Entry(16, 0, l)], size, st);
      StopsAtFour(st, m);
    } else {
      var next := RunOnce(l, buf, pos, size, st);
      var extra := Raw(buf, pos + l, 2).value.0;
      RepeatOnce(st, m, extra);
      FourRepeats(l, buf, pos + l + 2, size, next, m + 1);
      if m <= 3 { Distribute(1, 3 - m, l + 2); }
      CountBefore(st, m, extra);
    }
  }

  lemma RunStops(buf: seq<byte>, pos: nat, code: seq<Entry>, size: nat, st: Main)
    requires Running(st) && (|st.lens| >= size || st.kraft >= 32768)
    ensures MainFrom(buf, pos, code, size, st) == Ok((st, pos))
  {
  }

  /** One repeat: the word of symbol 16, and two bits. */
  lemma RunOnce(l: nat, buf: seq<byte>, pos: nat, size: nat, st: Main) returns (next: Main)
    requires Running(st) && pos <= BitLen(buf) && |st.lens| < size && st.kraft < 32768
    requires MainFrom(buf, pos, [Entry(16, 0, l)], size, st).Ok?
    ensures pos + l + 2 <= BitLen(buf) && (l > 0 ==> Word(buf, pos, l) == 0)
    ensures Raw(buf, pos + l, 2).Ok? && Raw(buf, pos + l, 2).value.0 <= 3
    ensures next == WithRun(st, 16, 4, Raw(buf, pos + l, 2).value.0) && Running(next)
    ensures |st.lens| < |next.lens| <= size && next.count == NewCount(st, 16, 4, Raw(buf, pos + l, 2).value.0)
    ensures MainFrom(buf, pos, [Entry(16, 0, l)], size, st)
         == MainFrom(buf, pos + l + 2, [Entry(16, 0, l)], size, next)
  {
    hide SymbolAt, Raw, Share, NewCount, Delta, Word;
    LoneReads(16, l, buf, pos);
    RawAdvances(buf, pos + l, 2);
    TwoBits(buf, pos + l);
    CountStays(st, 16, 4);
    next := WithRun(st, 16, 4, Raw(buf, pos + l, 2).value.0);
  }

  lemma CountBefore(st: Main, m: nat, extra: nat)
    requires Repeated(st, m) && extra <= 3
    ensures NewCount(st, 16, 4, extra) == OnTheWay(m + 1) ==>
              (if m == 0 then extra == 2 else m < 4 ==> st.count == OnTheWay(m))
  {
    hide Most, Least;
  }

  lemma TwoBits(buf: seq<byte>, pos: nat)
    requires pos <= BitLen(buf) && Raw(buf, pos, 2).Ok?
    ensures Raw(buf, pos, 2).value.0 <= 3 && Raw(buf, pos, 2).value.1 == pos + 2
  {
    assert Pow2(2) == 4;
    hide BitsValue;
  }

  lemma TwoSet(lens: seq<nat>)
    requires |lens| >= 2 && lens[0] != 0 && lens[1] != 0
    ensures Nonzero(lens) >= 2
  {
  }

  /** The code of eight-bit words is described with exactly `4 * (l + 2)` bits, and the first run is of five. */
  lemma RepeatsEnd(l: nat, buf: seq<byte>, pos: nat, size: nat)
    requires pos <= BitLen(buf) && Described(buf, pos, [Entry(16, 0, l)], size).Ok?
    ensures Described(buf, pos, [Entry(16, 0, l)], size).value.1 == pos + 4 * (l + 2)
    ensures pos + l + 2 <= BitLen(buf) && Raw(buf, pos + l, 2).Ok? && Raw(buf, pos + l, 2).value.0 == 2
    ensures l > 0 ==> Word(buf, pos, l) == 0
  {
    hide MainFrom, FromLengths, Nonzero, FirstNonzero, Raw, Word, NewCount, Share, WithRun;
    var st := Main([], 8, None, 0, 0);
    assert Repeated(st, 0);
    FourRepeats(l, buf, pos, size, st, 0);
    var r := MainFrom(buf, pos, [Entry(16, 0, l)], size, st).value.0;
    if r.lens == [] { NoneSet(Padded(r.lens, size)); } else { TwoSet(Padded(r.lens, size)); }
    RunStops(buf, pos, [Entry(16, 0, l)], 0, st);
    var next := RunOnce(l, buf, pos, size, st);
    var extra := Raw(buf, pos + l, 2).value.0;
    RepeatOnce(st, 0, extra);
    FourRepeats(l, buf, pos + l + 2, size, next, 1);
    CountBefore(st, 0, extra);
  }

  // ---- where the decoder and the standard agree ----------------------------------------------------

  /** One length alone: what the standard accepts, the decoder rejects or reads to another end. */
  lemma LoneDiffers(s: nat, l: nat, buf: seq<byte>, pos: nat, size: nat)
    requires s < 18 && l > 0 && pos <= BitLen(buf) && Described(buf, pos, [Entry(s, 0, 0)], size).Ok?
    ensures Described(buf, pos, [Entry(s, 0, l)], size) != Described(buf, pos, [Entry(s, 0, 0)], size)
  {
    if s == 17 {
      ZeroRunsFail(s, 0, buf, pos, size);
    } else if s == 16 {
      hide Described;
      RepeatsEnd(0, buf, pos, size);
      if Described(buf, pos, [Entry(s, 0, l)], size).Ok? { RepeatsEnd(l, buf, pos, size); }
    } else {
      if size == 0 { assert Padded([], 0) == []; }
      hide MainFrom, Finished;
      var st := Main([], 8, None, 0, 0);
      DirectStays(s, buf, pos, size, st);
      if MainFrom(buf, pos, [Entry(s, 0, l)], size, st).Ok? { DirectMoves(s, l, buf, pos, size); }
    }
  }

  /** A description that is read twice, with one table, differs at most by the lengths it sets. */
  lemma SameTable(buf: seq<byte>, pos: nat, table: seq<Entry>, size: nat)
    ensures RfcDescribed(buf, pos, table, size).Ok? ==>
              Described(buf, pos, table, size) == RfcDescribed(buf, pos, table, size)
    ensures Described(buf, pos, table, size).Ok? ==>
              (RfcDescribed(buf, pos, table, size).Err? <==> SetLengths(buf, pos, table, size) == 1)
  {
    hide MainFrom, FromLengths, Nonzero, FirstNonzero;
  }

  /** How many lengths a description sets. */
  function SetLengths(buf: seq<byte>, pos: nat, table: seq<Entry>, size: nat): nat {
    match MainFrom(buf, pos, table, size, Main([], 8, None, 0, 0))
    case Ok((st, _)) => Nonzero(Padded(st.lens, size))
    case Err(_) => 0
  }

  /**
   Every description that section 3.5 of RFC 7932 accepts is read as it says if and
   only if it sets at least two lengths of the code-length code.
   */
  lemma RfcAgreement(buf: seq<byte>, pos: nat, hskip: nat, size: nat)
    requires pos <= BitLen(buf) && RfcComplexAt(buf, pos, hskip, size).Ok?
    ensures LengthCodeFrom(buf, pos, hskip, NoLengthsYet()).Ok?
    ensures ComplexAt(buf, pos, hskip, size) == RfcComplexAt(buf, pos, hskip, size)
            <==> LengthCodeFrom(buf, pos, hskip, NoLengthsYet()).value.0.nonzero >= 2
  {
    hide LengthCodeFrom, FromLengths, MainFrom, Nonzero, FirstNonzero, Described, RfcDescribed;
    StartTallies(NoLengthsYet());
    LengthCodeTallies(buf, pos, hskip, NoLengthsYet());
    var (c, p) := LengthCodeFrom(buf, pos, hskip, NoLengthsYet()).value;
    ComplexIsDescribed(buf, pos, hskip, size);
    LengthCodeUsable(buf, pos, hskip);
    SameTable(buf, p, RfcTable(c.lens).value, size);
    if c.nonzero == 1 {
      LoneLength(buf, pos, hskip);
      var s := FirstNonzero(c.lens);
      LoneDiffers(s, c.lens[s], buf, p, size);
    }
  }

  // ---- what only the decoder accepts ---------------------------------------------------------------

  lemma {:induction false} ZeroWord(buf: seq<byte>, pos: nat, n: nat, k: nat)
    requires k < n && pos + n <= BitLen(buf) && Word(buf, pos, n) == 0
    ensures Bit(buf, pos + k) == 0
    decreases n
  {
    hide Bit;
    if k < n - 1 { ZeroWord(buf, pos, n - 1, k); }
  }

  lemma RawTwo(buf: seq<byte>, pos: nat)
    requires Raw(buf, pos, 2).Ok? && Raw(buf, pos, 2).value.0 == 2
    ensures Bit(buf, pos) == 0 && Bit(buf, pos + 1) == 1
  {
    hide Bit;
    assert BitsValue(buf, pos + 1, 1) == Bit(buf, pos + 1) by { assert BitsValue(buf, pos + 2, 0) == 0; }
  }

  /** Runs of the default length are never read from the same bits with and without a word before each. */
  lemma RunsClash(l: nat, buf: seq<byte>, pos: nat, size: nat)
    requires l > 0 && pos <= BitLen(buf) && Described(buf, pos, [Entry(16, 0, l)], size).Ok?
    ensures Described(buf, pos, [Entry(16, 0, 0)], size).Err?
  {
    hide Described, Raw, Word, Bit;
    if Described(buf, pos, [Entry(16, 0, 0)], size).Ok? {
      RepeatsEnd(0, buf, pos, size);
      RawTwo(buf, pos);
      RepeatsEnd(l, buf, pos, size);
      RawTwo(buf, pos + l);
      if l > 1 { ZeroWord(buf, pos, l, 1); }
    }
  }

  /** One length alone, accepted by the decoder. */
  lemma LoneAccepted(s: nat, l: nat, buf: seq<byte>, pos: nat, size: nat)
    requires s < 18 && l > 0 && pos <= BitLen(buf) && Described(buf, pos, [Entry(s, 0, l)], size).Ok?
    ensures RfcDescribed(buf, pos, [Entry(s, 0, 0)], size).Err?
            <==> s == 16 || SetLengths(buf, pos, [Entry(s, 0, l)], size) == 1
  {
    hide MainFrom, Finished, Nonzero;
    SameTable(buf, pos, [Entry(s, 0, 0)], size);
    SameTable(buf, pos, [Entry(s, 0, l)], size);
    if s == 0 || s == 17 {
      ZeroRunsFail(s, l, buf, pos, size);
    } else if s == 16 {
      hide Described, RfcDescribed;
      RunsClash(l, buf, pos, size);
    } else {
      DirectAlike(s, l, buf, pos, pos, size, Main([], 8, None, 0, 0));
    }
  }

  /** How many lengths a complex code sets, as the decoder reads them. */
  function MainLengths(buf: seq<byte>, pos: nat, hskip: nat, size: nat): nat {
    match LengthCodeFrom(buf, pos, hskip, NoLengthsYet())
    case Err(_) => 0
    case Ok((c, p)) =>
      match FromLengths(Numbered(c.lens))
      case Err(_) => 0
      case Ok(table) => SetLengths(buf, p, table, size)
  }

  /** The only length of the code-length code is that of symbol 16. */
  predicate LoneSixteen(buf: seq<byte>, pos: nat, hskip: nat) {
    match LengthCodeFrom(buf, pos, hskip, NoLengthsYet())
    case Err(_) => false
    case Ok((c, _)) => Nonzero(c.lens) == 1 && FirstNonzero(c.lens) == 16
  }

  /**
   A description that the decoder accepts is rejected by section 3.5 of RFC 7932 if and only if
   it sets a single length, or its code-length code has the repeat of the last length alone.
   */
  lemma OnlyDecoderAccepts(buf: seq<byte>, pos: nat, hskip: nat, size: nat)
    requires pos <= BitLen(buf) && ComplexAt(buf, pos, hskip, size).Ok?
    ensures RfcComplexAt(buf, pos, hskip, size).Err?
            <==> MainLengths(buf, pos, hskip, size) == 1 || LoneSixteen(buf, pos, hskip)
  {
    hide LengthCodeFrom, FromLengths, MainFrom, Finished, Nonzero, FirstNonzero, Described, RfcDescribed, SetLengths;
    StartTallies(NoLengthsYet());
    LengthCodeTallies(buf, pos, hskip, NoLengthsYet());
    var (c, p) := LengthCodeFrom(buf, pos, hskip, NoLengthsYet()).value;
    ComplexIsDescribed(buf, pos, hskip, size);
    var table := FromLengths(Numbered(c.lens)).value;
    SameTable(buf, p, table, size);
    if c.nonzero == 1 {
      LoneLength(buf, pos, hskip);
      var s := FirstNonzero(c.lens);
      LoneAccepted(s, c.lens[s], buf, p, size);
    }
  }

  lemma ComplexIsDescribed(buf: seq<byte>, pos: nat, hskip: nat, size: nat)
    requires LengthCodeFrom(buf, pos, hskip, NoLengthsYet()).Ok?
    ensures var (c, p) := LengthCodeFrom(buf, pos, hskip, NoLengthsYet()).value;
            var table := FromLengths(Numbered(c.lens));
            !(c.nonzero >= 2 && c.kraft != 32) && table.Ok? ==>
              ComplexAt(buf, pos, hskip, size) == Described(buf, p, table.value, size)
  {
    hide LengthCodeFrom, FromLengths, MainFrom, Finished;
  }

  // ---- one such description ------------------------------------------------------------------------

  /** Length 1 for symbol 1, no other length, and then a bit that is set. */
  const LONE: seq<byte> := [7, 0, 0, 0, 64]

  lemma LoneBits(k: nat)
    requires k < 40
    ensures Bit(LONE, k) == if k < 3 || k == 38 then 1 else 0
  {
    if k < 8 {
      SevenBits(k);
    } else if k >= 32 {
      HighBit(k - 32);
    } else {
      ZeroBits(k % 8);
    }
  }

  lemma SevenBits(k: nat)
    ensures BitOf(7, k) <==> k < 3
  {
    if k >= 3 {
      ZeroBits(k - 3);
      assert BitOf(7, k) == BitOf(3, k - 1) == BitOf(1, k - 2) == BitOf(0, k - 3);
    }
  }

  lemma HighBit(k: nat)
    requires k < 8
    ensures BitOf(64, k) <==> k == 6
  {
    if k >= 7 { ZeroBits(k - 7); }
    assert BitOf(1, 0) && !BitOf(2, 0) && !BitOf(4, 0) && !BitOf(8, 0);
    assert k >= 6 ==> BitOf(64, k) == BitOf(32, k - 1) == BitOf(16, k - 2) == BitOf(8, k - 3);
    assert k >= 6 ==> BitOf(8, k - 3) == BitOf(4, k - 4) == BitOf(2, k - 5) == BitOf(1, k - 6);
    assert k == 7 ==> BitOf(1, 1) == BitOf(0, 0);
  }

  lemma OneBit(buf: seq<byte>, pos: nat)
    requires pos < BitLen(buf)
    ensures Raw(buf, pos, 1) == Ok((Bit(buf, pos), pos + 1))
  {
    hide Bit;
    assert BitsValue(buf, pos + 1, 0) == 0;
  }

  lemma ZeroLength(buf: seq<byte>, pos: nat)
    requires pos + 2 <= BitLen(buf) && Bit(buf, pos) == 0 && Bit(buf, pos + 1) == 0
    ensures LengthCodeAt(buf, pos) == Ok((0, pos + 2))
  {
    OneBit(buf, pos);
    OneBit(buf, pos + 1);
    hide Bit, Raw;
  }

  lemma ZeroKeeps(c: LengthCode, idx: nat)
    requires idx < 18 && c.lens[CODE_LENGTH_ORDER[idx]] == 0
    ensures WithLength(c, idx, 0) == c
  {
    assert c.lens[CODE_LENGTH_ORDER[idx] := 0] == c.lens;
  }

  /** Two zero bits set no length. */
  lemma {:induction false} ZerosPass(buf: seq<byte>, pos: nat, idx: nat, n: nat, c: LengthCode)
    requires idx <= n <= 18 && pos + 2 * (n - idx) <= BitLen(buf) && c.nonzero < 2
    requires forall k | idx <= k < n :: c.lens[CODE_LENGTH_ORDER[k]] == 0
    requires forall k | pos <= k < pos + 2 * (n - idx) :: Bit(buf, k) == 0
    ensures LengthCodeFrom(buf, pos, idx, c) == LengthCodeFrom(buf, pos + 2 * (n - idx), n, c)
    decreases n - idx
  {
    hide Bit, LengthCodeAt, WithLength;
    if idx < n {
      ZeroLength(buf, pos);
      ZeroKeeps(c, idx);
      ZerosPass(buf, pos + 2, idx + 1, n, c);
    }
  }

  /** The bits 1110 set a length of one. */
  lemma OnePasses(buf: seq<byte>, pos: nat, idx: nat, c: LengthCode)
    requires idx < 18 && pos + 4 <= BitLen(buf)
    requires Bit(buf, pos) == 1 && Bit(buf, pos + 1) == 1 && Bit(buf, pos + 2) == 1 && Bit(buf, pos + 3) == 0
    ensures LengthCodeFrom(buf, pos, idx, c) ==
            var d := WithLength(c, idx, 1);
            if d.nonzero >= 2 && d.kraft >= 32 then Ok((d, pos + 4)) else LengthCodeFrom(buf, pos + 4, idx + 1, d)
  {
    hide Bit, WithLength;
    OneBit(buf, pos);
    OneBit(buf, pos + 1);
    OneBit(buf, pos + 2);
    OneBit(buf, pos + 3);
    assert LengthCodeAt(buf, pos) == Ok((1, pos + 4));
    hide Raw, LengthCodeAt;
  }

  lemma LengthsEnd(buf: seq<byte>, pos: nat, c: LengthCode)
    ensures LengthCodeFrom(buf, pos, 18, c) == Ok((c, pos))
  {
  }

  lemma FirstLength()
    ensures WithLength(NoLengthsYet(), 0, 1) == LengthCode(seq(18, i => if i == 1 then 1 else 0), 1, 16)
  {
    var c := WithLength(NoLengthsYet(), 0, 1);
    assert c.lens == seq(18, i => if i == 1 then 1 else 0);
    assert Pow2(4) == 16;
  }

  lemma LoneDescription()
    ensures LengthCodeFrom(LONE, 0, 0, NoLengthsYet())
         == Ok((LengthCode(seq(18, i => if i == 1 then 1 else 0), 1, 16), 38))
  {
    hide Bit, LengthCodeFrom, WithLength, NoLengthsYet;
    forall k | 0 <= k < 40
      ensures Bit(LONE, k) == if k < 3 || k == 38 then 1 else 0
    {
      LoneBits(k);
    }
    OnePasses(LONE, 0, 0, NoLengthsYet());
    FirstLength();
    var c := WithLength(NoLengthsYet(), 0, 1);
    ZerosPass(LONE, 4, 1, 18, c);
    LengthsEnd(LONE, 38, c);
  }

  lemma TwoOnes(buf: seq<byte>, pos: nat, size: nat)
    requires size >= 2
    ensures RfcDescribed(buf, pos, [Entry(1, 0, 0)], size).Ok?
  {
    var st := WithDirect(Main([], 8, None, 0, 0), 1);
    assert Share(1) == 16384 by { PowFourteen(); }
    var last := WithDirect(st, 1);
    NoBitsRead(1, buf, pos);
    hide SymbolAt, Share;
    assert MainFrom(buf, pos, [Entry(1, 0, 0)], size, last) == Ok((last, pos));
    assert MainFrom(buf, pos, [Entry(1, 0, 0)], size, st) == Ok((last, pos));
    hide MainFrom;
    var lens := Padded(last.lens, size);
    assert lens[0] == 1 && lens[1] == 1;
    TwoSet(lens);
    SomePresent(Numbered(lens));
  }

  lemma PowFourteen()
    ensures Pow2(14) == 16384
  {
    assert Pow2(7) == 128;
    Pow2Add(7, 7);
  }

  lemma SomePresent(ps: seq<Pair>)
    requires ps != [] && ps[0].len > 0
    ensures FromLengths(ps).Ok?
  {
    SortedInOrder(Present(ps));
    assert |multiset(Sorted(Present(ps)))| == |multiset(Present(ps))|;
  }

  /** For every alphabet the standard reads two words of one bit from it; the decoder stops at the set bit. */
  lemma LoneRejected(size: nat)
    requires size >= 2
    ensures RfcComplexAt(LONE, 0, 0, size).Ok? && ComplexAt(LONE, 0, 0, size) == Err(InvalidCode)
  {
    hide LengthCodeFrom, FromLengths, MainFrom, Finished, Nonzero, FirstNonzero, RfcDescribed;
    LoneDescription();
    LoneLength(LONE, 0, 0);
    ComplexIsDescribed(LONE, 0, 0, size);
    TwoOnes(LONE, 38, size);
    SetBitRefused(size);
  }

  lemma SetBitRefused(size: nat)
    requires size > 0
    ensures Described(LONE, 38, [Entry(1, 0, 1)], size) == Err(InvalidCode)
  {
    LoneBits(38);
    LoneReads(1, 1, LONE, 38);
    assert Word(LONE, 38, 1) == 1 by { assert Word(LONE, 38, 0) == 0; }
    hide SymbolAt, Finished;
  }
}
