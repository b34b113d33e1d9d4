/**
 Brotli compressed metablocks: the preamble and the insert-and-copy loop
 (sections 9.2 and 9.3 of RFC 7932).
 */
module Metablock {
  import opened Bytes
  import opened BitReading
  import opened Brotli
  import opened Lz77
  import opened Distances
  import Commands
  import opened Huffman
  import opened PrefixCodes
  import opened ComplexCodes

  datatype MetaError =
    | Framing(framing: BrotliError)
    | Prefix(prefix: HuffmanError)
    | Command(command: Commands.CommandError)
    | BadDistance(cause: DistanceError)
    | OutputError(ring: RingError)
    | UnsupportedBlockTypes(surface: string, nbltypes: nat)
    | UnsupportedDistanceParams(npostfix: nat, ndirect: nat)
    | UnsupportedMultipleTrees(surface: string, ntrees: nat)
    | DictionaryDistanceNotSupported(distance: nat, outputLen: nat)

  type MetaRead<+T> = Result<(T, nat), MetaError>

  // ---- preamble ------------------------------------------------------------------------------

  /** A count from 1 to 256 in a variable-length code. */
  function CountAt(buf: seq<byte>, pos: nat): Brotli.Read<nat> {
    var (b, p) :- Bits(buf, pos, 1);
    if b == 0 then Ok((1, p))
    else
      var (n, p) :- Bits(buf, p, 3);
      var (e, p) :- if n == 0 then Ok((0, p)) else Bits(buf, p, n);
      Ok((Pow2(n) + 1 + e, p))
  }

  method ReadCount(r: BitReader) returns (v: Result<nat, BrotliError>)
    modifies r
    ensures match CountAt(r.buf, old(r.bitPos))
            case Ok((x, p)) => v == Ok(x) && r.bitPos == p
            case Err(e) => v == Err(e)
  {
    hide Bits;
    var b := Take(r, 1);
    if b.Err? { return Err(b.error); }
    if b.value == 0 { return Ok(1); }
    var n := Take(r, 3);
    if n.Err? { return Err(n.error); }
    var e := 0;
    if n.value != 0 {
      var x := Take(r, n.value);
      if x.Err? { return Err(x.error); }
      e := x.value;
    }
    v := Ok(Pow2(n.value) + 1 + e);
  }

  lemma CountAdvances(buf: seq<byte>, pos: nat)
    requires pos <= BitLen(buf) && CountAt(buf, pos).Ok?
    ensures pos < CountAt(buf, pos).value.1 <= BitLen(buf)
    ensures 1 <= CountAt(buf, pos).value.0 <= 256
  {
    hide BitsValue;
    assert Pow2(3) == 8;
    var (b, p) := Bits(buf, pos, 1).value;
    if b != 0 {
      var (n, q) := Bits(buf, p, 3).value;
      BitsAdvance(buf, p, 3);
      SmallCounts(n);
    }
  }

  lemma SmallCounts(n: nat)
    requires n < 8
    ensures Pow2(n) <= 128
  {
    assert Pow2(7) == 128 by { assert Pow2(4) == 16; }
    if n == 6 { assert Pow2(6) == 64 by { assert Pow2(3) == 8; } }
    if n == 5 { assert Pow2(5) == 32 by { assert Pow2(3) == 8; } }
  }

  function OneTypeAt(buf: seq<byte>, pos: nat, surface: string): Result<nat, MetaError> {
    match CountAt(buf, pos)
    case Err(e) => Err(Framing(e))
    case Ok((n, p)) => if n > 1 then Err(UnsupportedBlockTypes(surface, n)) else Ok(p)
  }

  function OneTreeAt(buf: seq<byte>, pos: nat, surface: string): Result<nat, MetaError> {
    match CountAt(buf, pos)
    case Err(e) => Err(Framing(e))
    case Ok((n, p)) => if n > 1 then Err(UnsupportedMultipleTrees(surface, n)) else Ok(p)
  }

  method ReadOneType(r: BitReader, surface: string) returns (v: Result<(), MetaError>)
    requires r.bitPos <= BitLen(r.buf)
    modifies r
    ensures match OneTypeAt(r.buf, old(r.bitPos), surface)
            case Ok(p) => v == Ok(()) && r.bitPos == p <= BitLen(r.buf)
            case Err(e) => v == Err(e)
  {
    hide CountAt;
    var n := ReadCount(r);
    if n.Err? { return Err(Framing(n.error)); }
    CountAdvances(r.buf, old(r.bitPos));
    if n.value > 1 { return Err(UnsupportedBlockTypes(surface, n.value)); }
    v := Ok(());
  }

  method ReadOneTree(r: BitReader, surface: string) returns (v: Result<(), MetaError>)
    requires r.bitPos <= BitLen(r.buf)
    modifies r
    ensures match OneTreeAt(r.buf, old(r.bitPos), surface)
            case Ok(p) => v == Ok(()) && r.bitPos == p <= BitLen(r.buf)
            case Err(e) => v == Err(e)
  {
    hide CountAt;
    var n := ReadCount(r);
    if n.Err? { return Err(Framing(n.error)); }
    CountAdvances(r.buf, old(r.bitPos));
    if n.value > 1 { return Err(UnsupportedMultipleTrees(surface, n.value)); }
    v := Ok(());
  }

  /** Postfix bits, direct codes and the literal context mode. */
  function ParamsAt(buf: seq<byte>, pos: nat): Result<nat, MetaError> {
    var (npostfix, p) :- Framed(Bits(buf, pos, 2));
    var (high, p) :- Framed(Bits(buf, p, 4));
    var ndirect := high * Pow2(npostfix);
    if npostfix != 0 || ndirect != 0 then Err(UnsupportedDistanceParams(npostfix, ndirect))
    else
      var (_, p) :- Framed(Bits(buf, p, 2));
      Ok(p)
  }

  function Framed<T>(r: Result<T, BrotliError>): Result<T, MetaError> {
    match r
    case Ok(x) => Ok(x)
    case Err(e) => Err(Framing(e))
  }

  method ReadParams(r: BitReader) returns (v: Result<(), MetaError>)
    requires r.bitPos <= BitLen(r.buf)
    modifies r
    ensures match ParamsAt(r.buf, old(r.bitPos))
            case Ok(p) => v == Ok(()) && r.bitPos == p <= BitLen(r.buf)
            case Err(e) => v == Err(e)
  {
    hide BitsValue, Pow2;
    var npostfix := Take(r, 2);
    if npostfix.Err? { return Err(Framing(npostfix.error)); }
    var high := Take(r, 4);
    if high.Err? { return Err(Framing(high.error)); }
    var ndirect := high.value * Pow2(npostfix.value);
    if npostfix.value != 0 || ndirect != 0 {
      return Err(UnsupportedDistanceParams(npostfix.value, ndirect));
    }
    var cmode := Take(r, 2);
    if cmode.Err? { return Err(Framing(cmode.error)); }
    v := Ok(());
  }

  datatype Codes = Codes(literal: seq<Entry>, command: seq<Entry>, distance: seq<Entry>)

  function CodeAt(buf: seq<byte>, pos: nat, bits: nat, size: nat): MetaRead<seq<Entry>>
    requires pos <= BitLen(buf)
  {
    match PrefixCodeAt(buf, pos, bits, size)
    case Ok(x) => Ok(x)
    case Err(e) => Err(Prefix(e))
  }

  function CodesAt(buf: seq<byte>, pos: nat): MetaRead<Codes>
    requires pos <= BitLen(buf)
  {
    var (literal, p) :- CodeAt(buf, pos, 8, 256);
    PrefixCodeIsUsable(buf, pos, 8, 256);
    var (command, q) :- CodeAt(buf, p, 10, 704);
    PrefixCodeIsUsable(buf, p, 10, 704);
    var (distance, t) :- CodeAt(buf, q, 6, 64);
    Ok((Codes(literal, command, distance), t))
  }

  method ReadCode(r: BitReader, bits: nat, size: nat) returns (v: Result<seq<Entry>, MetaError>)
    requires r.bitPos <= BitLen(r.buf)
    modifies r
    ensures match CodeAt(r.buf, old(r.bitPos), bits, size)
            case Ok((x, p)) => v == Ok(x) && r.bitPos == p <= BitLen(r.buf)
            case Err(e) => v == Err(e)
  {
    hide PrefixCodeAt;
    var c := ReadPrefixCode(r, bits, size);
    if c.Err? { return Err(Prefix(c.error)); }
    PrefixCodeIsUsable(r.buf, old(r.bitPos), bits, size);
    v := Ok(c.value);
  }

  /** The counts and parameters before the prefix codes. */
  function SettingsAt(buf: seq<byte>, pos: nat): Result<nat, MetaError> {
    var p :- OneTypeAt(buf, pos, "literal");
    var p :- OneTypeAt(buf, p, "insert-copy");
    var p :- OneTypeAt(buf, p, "distance");
    var p :- ParamsAt(buf, p);
    var p :- OneTreeAt(buf, p, "literal");
    OneTreeAt(buf, p, "distance")
  }

  lemma OneAdvances(buf: seq<byte>, pos: nat, surface: string)
    requires pos <= BitLen(buf)
    ensures OneTypeAt(buf, pos, surface).Ok? ==> pos <= OneTypeAt(buf, pos, surface).value <= BitLen(buf)
    ensures OneTreeAt(buf, pos, surface).Ok? ==> pos <= OneTreeAt(buf, pos, surface).value <= BitLen(buf)
  {
    hide CountAt;
    if CountAt(buf, pos).Ok? { CountAdvances(buf, pos); }
  }

  lemma ParamsAdvance(buf: seq<byte>, pos: nat)
    requires pos <= BitLen(buf) && ParamsAt(buf, pos).Ok?
    ensures pos <= ParamsAt(buf, pos).value <= BitLen(buf)
  {
    hide BitsValue;
  }

  lemma SettingsAdvance(buf: seq<byte>, pos: nat)
    requires pos <= BitLen(buf) && SettingsAt(buf, pos).Ok?
    ensures pos <= SettingsAt(buf, pos).value <= BitLen(buf)
  {
    hide OneTypeAt, OneTreeAt, ParamsAt;
    OneAdvances(buf, pos, "literal");
    var p1 := OneTypeAt(buf, pos, "literal").value;
    OneAdvances(buf, p1, "insert-copy");
    var p2 := OneTypeAt(buf, p1, "insert-copy").value;
    OneAdvances(buf, p2, "distance");
    var p3 := OneTypeAt(buf, p2, "distance").value;
    ParamsAdvance(buf, p3);
    var p4 := ParamsAt(buf, p3).value;
    OneAdvances(buf, p4, "literal");
    var p5 := OneTreeAt(buf, p4, "literal").value;
    OneAdvances(buf, p5, "distance");
  }

  /** All that precedes the commands. */
  function PreambleAt(buf: seq<byte>, pos: nat): MetaRead<Codes>
    requires pos <= BitLen(buf)
  {
    var p :- SettingsAt(buf, pos);
    SettingsAdvance(buf, pos);
    CodesAt(buf, p)
  }

  method ReadPreamble(r: BitReader) returns (v: Result<Codes, MetaError>)
    requires r.bitPos <= BitLen(r.buf)
    modifies r
    ensures match PreambleAt(r.buf, old(r.bitPos))
            case Ok((x, p)) => v == Ok(x) && r.bitPos == p <= BitLen(r.buf)
            case Err(e) => v == Err(e)
  {
    hide OneTypeAt, OneTreeAt, ParamsAt, CodeAt;
    var l := ReadOneType(r, "literal");
    if l.Err? { return Err(l.error); }
    var i := ReadOneType(r, "insert-copy");
    if i.Err? { return Err(i.error); }
    var d := ReadOneType(r, "distance");
    if d.Err? { return Err(d.error); }
    var params := ReadParams(r);
    if params.Err? { return Err(params.error); }
    var tl := ReadOneTree(r, "literal");
    if tl.Err? { return Err(tl.error); }
    var td := ReadOneTree(r, "distance");
    if td.Err? { return Err(td.error); }
    var literal := ReadCode(r, 8, 256);
    if literal.Err? { return Err(literal.error); }
    var command := ReadCode(r, 10, 704);
    if command.Err? { return Err(command.error); }
    var distance := ReadCode(r, 6, 64);
    if distance.Err? { return Err(distance.error); }
    v := Ok(Codes(literal.value, command.value, distance.value));
  }

  // ---- commands -----------------------------------------------------------------------------

  function Symbol(es: seq<Entry>, buf: seq<byte>, pos: nat): MetaRead<nat> {
    match SymbolAt(es, buf, pos)
    case Ok(x) => Ok(x)
    case Err(e) => Err(Prefix(e))
  }

  function Commanded<T>(r: Result<T, Commands.CommandError>): Result<T, MetaError> {
    match r
    case Ok(x) => Ok(x)
    case Err(e) => Err(Command(e))
  }

  /** The literals of a command, cut off when the metablock is complete. */
  function LiteralsFrom(
      es: seq<Entry>, buf: seq<byte>, pos: nat, out: seq<byte>, n: nat, target: nat): MetaRead<seq<byte>>
    decreases n
  {
    if n == 0 then Ok((out, pos))
    else
      var (sym, p) :- Symbol(es, buf, pos);
      if sym >= 256 then Err(Prefix(SymbolOutOfRange(sym, 256)))
      else if |out| + 1 >= target then Ok((out + [sym], p))
      else LiteralsFrom(es, buf, p, out + [sym], n - 1, target)
  }

  datatype State = State(out: seq<byte>, slots: Recent, pos: nat)

  function CopyFrom(
      codes: Codes, buf: seq<byte>, st: State, implicit: bool, length: nat, target: nat, window: nat)
    : Result<State, MetaError>
    requires |st.out| < target
  {
    var d :- if implicit then Ok(Decoded(st.slots[0], st.slots, st.pos)) else ExplicitAt(codes, buf, st);
    if d.distance > window then Err(DictionaryDistanceNotSupported(d.distance, |st.out|))
    else if d.distance == 0 then Err(OutputError(ZeroDistance))
    else
      var n := if |st.out| + length > target then target - |st.out| else length;
      Ok(State(Copied(st.out, d.distance, n), d.slots, d.pos))
  }

  function ExplicitAt(codes: Codes, buf: seq<byte>, st: State): Result<Decoded, MetaError> {
    var (sym, p) :- Symbol(codes.distance, buf, st.pos);
    match DistanceAt(buf, p, sym, st.slots)
    case Ok(d) => Ok(d)
    case Err(e) => Err(BadDistance(e))
  }

  function CommandFrom(codes: Codes, buf: seq<byte>, st: State, target: nat, window: nat): Result<State, MetaError>
    requires |st.out| < target
  {
    var (sym, p) :- Symbol(codes.command, buf, st.pos);
    var c :- Commanded(Commands.Decompose(sym));
    var (insert, p) :- Commanded(Commands.InsertLengthAt(buf, p, c.insertCode));
    var (copy, p) :- Commanded(Commands.CopyLengthAt(buf, p, c.copyCode));
    var (out, p) :- LiteralsFrom(codes.literal, buf, p, st.out, insert, target);
    if |out| >= target then Ok(State(out, st.slots, p))
    else CopyFrom(codes, buf, State(out, st.slots, p), c.distanceImplicit, copy, target, window)
  }

  lemma {:induction false} LiteralsAdvance(
      es: seq<Entry>, buf: seq<byte>, pos: nat, out: seq<byte>, n: nat, target: nat)
    requires pos <= BitLen(buf) && |out| < target && LiteralsFrom(es, buf, pos, out, n, target).Ok?
    ensures var (r, p) := LiteralsFrom(es, buf, pos, out, n, target).value;
            && out <= r && pos <= p <= BitLen(buf)
            && |r| == if |out| + n > target then target else |out| + n
    decreases n
  {
    hide SymbolAt;
    if n > 0 {
      SymbolAdvances(es, buf, pos);
      var (sym, p) := Symbol(es, buf, pos).value;
      if |out| + 1 < target {
        LiteralsAdvance(es, buf, p, out + [sym], n - 1, target);
        var r := LiteralsFrom(es, buf, p, out + [sym], n - 1, target).value.0;
        assert out + [sym] == r[..|out| + 1];
        assert out == r[..|out| + 1][..|out|] == r[..|out|];
      }
    }
  }

  lemma CopyAdvances(codes: Codes, buf: seq<byte>, st: State, implicit: bool, length: nat, target: nat, window: nat)
    requires |st.out| < target && st.pos <= BitLen(buf) && length >= 1
    requires CopyFrom(codes, buf, st, implicit, length, target, window).Ok?
    ensures var s := CopyFrom(codes, buf, st, implicit, length, target, window).value;
            && st.out <= s.out && |st.out| < |s.out| <= target && st.pos <= s.pos <= BitLen(buf)
            && 1 <= DistanceUsed(codes, buf, st, implicit) <= window
            && Repeats(st.out, DistanceUsed(codes, buf, st, implicit), s.out)
  {
    hide SymbolAt, DistanceAt, Copied, Repeats;
    if !implicit {
      SymbolAdvances(codes.distance, buf, st.pos);
      var (sym, p) := Symbol(codes.distance, buf, st.pos).value;
      DistanceAdvances(buf, p, sym, st.slots);
    }
    var d := DistanceUsed(codes, buf, st, implicit);
    var n := if |st.out| + length > target then target - |st.out| else length;
    CopiedRepeats(st.out, d, n);
    RepeatsExtends(st.out, d, Copied(st.out, d, n));
  }

  lemma RepeatsExtends(out: seq<byte>, d: nat, r: seq<byte>)
    requires d >= 1 && Repeats(out, d, r)
    ensures out <= r
  {
  }

  /** The distance a copy uses; zero if it cannot be read. */
  function DistanceUsed(codes: Codes, buf: seq<byte>, st: State, implicit: bool): nat {
    if implicit then st.slots[0]
    else match ExplicitAt(codes, buf, st)
      case Ok(d) => d.distance
      case Err(_) => 0
  }

  lemma DistanceAdvances(buf: seq<byte>, pos: nat, sym: nat, slots: Recent)
    requires pos <= BitLen(buf) && DistanceAt(buf, pos, sym, slots).Ok?
    ensures pos <= DistanceAt(buf, pos, sym, slots).value.pos <= BitLen(buf)
  {
    hide Bits;
    if sym >= 16 { BitsAdvance(buf, pos, DirectBits(sym - 16)); }
  }

  /** Every command adds at least one byte, keeps the bytes before it and stays within the metablock. */
  lemma CommandAdvances(codes: Codes, buf: seq<byte>, st: State, target: nat, window: nat)
    requires |st.out| < target && st.pos <= BitLen(buf) && CommandFrom(codes, buf, st, target, window).Ok?
    ensures var s := CommandFrom(codes, buf, st, target, window).value;
            st.out <= s.out && |st.out| < |s.out| <= target && st.pos <= s.pos <= BitLen(buf)
  {
    hide SymbolAt, LiteralsFrom, CopyFrom, Repeats, DistanceUsed, Commands.Decompose, Commands.LengthAt;
    SymbolAdvances(codes.command, buf, st.pos);
    var (sym, p) := Symbol(codes.command, buf, st.pos).value;
    var c := Commands.Decompose(sym).value;
    Commands.LengthInRow(buf, p, c.insertCode, Commands.INSERT_OFFSET, Commands.INSERT_EXTRA_BITS);
    var (insert, q) := Commands.InsertLengthAt(buf, p, c.insertCode).value;
    Commands.LengthInRow(buf, q, c.copyCode, Commands.COPY_OFFSET, Commands.COPY_EXTRA_BITS);
    Commands.CopyIsLong(buf, q, c.copyCode);
    var (copy, t) := Commands.CopyLengthAt(buf, q, c.copyCode).value;
    LiteralsAdvance(codes.literal, buf, t, st.out, insert, target);
    var (out, u) := LiteralsFrom(codes.literal, buf, t, st.out, insert, target).value;
    if |out| < target {
      CopyAdvances(codes, buf, State(out, st.slots, u), c.distanceImplicit, copy, target, window);
      PrefixTransitive(st.out, out, CommandFrom(codes, buf, st, target, window).value.out);
    }
  }

  lemma PrefixTransitive(a: seq<byte>, b: seq<byte>, c: seq<byte>)
    requires a <= b <= c
    ensures a <= c
  {
    assert a == b[..|a|] == c[..|b|][..|a|] == c[..|a|];
  }

  /** The commands of a metablock, until it is complete. */
  function BodyFrom(codes: Codes, buf: seq<byte>, st: State, target: nat, window: nat): Result<State, MetaError>
    requires st.pos <= BitLen(buf)
    decreases target - |st.out|
  {
    if |st.out| >= target then Ok(st)
    else
      var s :- CommandFrom(codes, buf, st, target, window);
      CommandAdvances(codes, buf, st, target, window);
      BodyFrom(codes, buf, s, target, window)
  }

  function MetablockAt(buf: seq<byte>, pos: nat, mlen: nat, out: seq<byte>, window: nat): MetaRead<seq<byte>>
    requires pos <= BitLen(buf)
  {
    var (codes, p) :- PreambleAt(buf, pos);
    PreambleAdvances(buf, pos);
    var s :- BodyFrom(codes, buf, State(out, RING_INIT, p), |out| + mlen, window);
    Ok((s.out, s.pos))
  }

  ghost predicate UsableCodes(c: Codes) {
    && Usable(c.literal) && SymbolsBelow(c.literal, 256)
    && Usable(c.command) && SymbolsBelow(c.command, 704)
    && Usable(c.distance) && SymbolsBelow(c.distance, 64)
  }

  lemma PreambleAdvances(buf: seq<byte>, pos: nat)
    requires pos <= BitLen(buf) && PreambleAt(buf, pos).Ok?
    ensures pos <= PreambleAt(buf, pos).value.1 <= BitLen(buf)
    ensures UsableCodes(PreambleAt(buf, pos).value.0)
  {
    hide SettingsAt, PrefixCodeAt, Usable, SymbolsBelow;
    SettingsAdvance(buf, pos);
    var p := SettingsAt(buf, pos).value;
    PrefixCodeIsUsable(buf, p, 8, 256);
    var p1 := CodeAt(buf, p, 8, 256).value.1;
    PrefixCodeIsUsable(buf, p1, 10, 704);
    var p2 := CodeAt(buf, p1, 10, 704).value.1;
    PrefixCodeIsUsable(buf, p2, 6, 64);
  }

  lemma {:induction false} BodyExact(codes: Codes, buf: seq<byte>, st: State, target: nat, window: nat)
    requires st.pos <= BitLen(buf) && |st.out| <= target && BodyFrom(codes, buf, st, target, window).Ok?
    ensures var s := BodyFrom(codes, buf, st, target, window).value;
            |s.out| == target && st.out <= s.out && st.pos <= s.pos <= BitLen(buf)
    decreases target - |st.out|
  {
    hide CommandFrom;
    if |st.out| < target {
      CommandAdvances(codes, buf, st, target, window);
      var s := CommandFrom(codes, buf, st, target, window).value;
      BodyExact(codes, buf, s, target, window);
      PrefixTransitive(st.out, s.out, BodyFrom(codes, buf, s, target, window).value.out);
    }
  }

  /** A compressed metablock that decodes adds exactly its declared length to the output. */
  lemma MetablockExact(buf: seq<byte>, pos: nat, mlen: nat, out: seq<byte>, window: nat)
    requires pos <= BitLen(buf) && MetablockAt(buf, pos, mlen, out, window).Ok?
    ensures var (r, p) := MetablockAt(buf, pos, mlen, out, window).value;
            |r| == |out| + mlen && out <= r && pos <= p <= BitLen(buf)
  {
    hide PreambleAt, BodyFrom, UsableCodes;
    PreambleAdvances(buf, pos);
    var (codes, p) := PreambleAt(buf, pos).value;
    BodyExact(codes, buf, State(out, RING_INIT, p), |out| + mlen, window);
  }

  /** End of input, a recent distance that is not one, or a word of the static dictionary. */
  ghost predicate Expected(e: MetaError) {
    || e == Framing(BitErr(UnexpectedEof))
    || e == Prefix(BitReaderError(UnexpectedEof))
    || e == Command(Commands.Inner(BitErr(UnexpectedEof)))
    || e == BadDistance(DistanceError.Inner(BitErr(UnexpectedEof)))
    || (e.BadDistance? && e.cause.InvalidShortDistance?)
    || e.DictionaryDistanceNotSupported?
  }

  lemma LengthFails(buf: seq<byte>, pos: nat, code: nat, offset: seq<nat>, bits: seq<nat>)
    requires |offset| == |bits| == 24 && code < 24 && bits[code] <= 32
    requires Commands.LengthAt(buf, pos, code, offset, bits).Err?
    ensures Commands.LengthAt(buf, pos, code, offset, bits).error == Commands.Inner(BitErr(UnexpectedEof))
  {
    hide BitsValue;
  }

  lemma {:induction false} LiteralsFail(es: seq<Entry>, buf: seq<byte>, pos: nat, out: seq<byte>, n: nat, target: nat)
    requires Usable(es) && SymbolsBelow(es, 256) && pos <= BitLen(buf)
    requires LiteralsFrom(es, buf, pos, out, n, target).Err?
    ensures LiteralsFrom(es, buf, pos, out, n, target).error == Prefix(BitReaderError(UnexpectedEof))
    decreases n
  {
    hide SymbolAt, Usable, SymbolsBelow;
    if n > 0 {
      UsableOutcome(es, 256, buf, pos);
      if Symbol(es, buf, pos).Ok? {
        var (sym, p) := Symbol(es, buf, pos).value;
        if |out| + 1 < target { LiteralsFail(es, buf, p, out + [sym], n - 1, target); }
      }
    }
  }

  /** A copy fails only as expected, and leaves real distances behind. */
  lemma CopyOutcome(codes: Codes, buf: seq<byte>, st: State, implicit: bool, length: nat, target: nat, window: nat)
    requires |st.out| < target && st.pos <= BitLen(buf) && UsableCodes(codes) && Positive(st.slots)
    ensures match CopyFrom(codes, buf, st, implicit, length, target, window)
            case Ok(s) => Positive(s.slots)
            case Err(e) => Expected(e)
  {
    hide SymbolAt, Usable, SymbolsBelow, Copied, BitsValue, DirectBase;
    if !implicit {
      UsableOutcome(codes.distance, 64, buf, st.pos);
      if Symbol(codes.distance, buf, st.pos).Ok? {
        var (sym, p) := Symbol(codes.distance, buf, st.pos).value;
        DistanceOutcome(buf, p, sym, st.slots);
        hide DistanceAt;
      }
    }
  }

  lemma DistanceOutcome(buf: seq<byte>, pos: nat, sym: nat, slots: Recent)
    requires sym < 64 && pos <= BitLen(buf) && Positive(slots)
    ensures match DistanceAt(buf, pos, sym, slots)
            case Ok(d) => d.distance >= 1 && Positive(d.slots)
            case Err(e) => e == DistanceError.Inner(BitErr(UnexpectedEof)) || e.InvalidShortDistance?
  {
    hide BitsValue, DirectBase;
    if DistanceAt(buf, pos, sym, slots).Ok? { DistanceIsReal(buf, pos, sym, slots); }
  }

  lemma CommandOutcome(codes: Codes, buf: seq<byte>, st: State, target: nat, window: nat)
    requires |st.out| < target && st.pos <= BitLen(buf) && UsableCodes(codes) && Positive(st.slots)
    ensures match CommandFrom(codes, buf, st, target, window)
            case Ok(s) => Positive(s.slots)
            case Err(e) => Expected(e)
  {
    hide SymbolAt, LiteralsFrom, CopyFrom, Usable, SymbolsBelow, Positive, Commands.LengthAt;
    UsableOutcome(codes.command, 704, buf, st.pos);
    if Symbol(codes.command, buf, st.pos).Err? { return; }
    var (sym, p) := Symbol(codes.command, buf, st.pos).value;
    var c := Commands.Decompose(sym).value;
    hide Commands.Decompose, UsableCodes;
    var insertAt := Commands.InsertLengthAt(buf, p, c.insertCode);
    if insertAt.Err? {
      LengthFails(buf, p, c.insertCode, Commands.INSERT_OFFSET, Commands.INSERT_EXTRA_BITS);
      return;
    }
    Commands.LengthInRow(buf, p, c.insertCode, Commands.INSERT_OFFSET, Commands.INSERT_EXTRA_BITS);
    var (insert, q) := insertAt.value;
    var copyAt := Commands.CopyLengthAt(buf, q, c.copyCode);
    if copyAt.Err? {
      LengthFails(buf, q, c.copyCode, Commands.COPY_OFFSET, Commands.COPY_EXTRA_BITS);
      return;
    }
    Commands.LengthInRow(buf, q, c.copyCode, Commands.COPY_OFFSET, Commands.COPY_EXTRA_BITS);
    var (copy, t) := copyAt.value;
    FinishCommand(codes, buf, st, target, window, insert, copy, c.distanceImplicit, t);
  }

  lemma FinishCommand(
      codes: Codes, buf: seq<byte>, st: State, target: nat, window: nat, insert: nat, copy: nat, implicit: bool,
      pos: nat)
    requires |st.out| < target && pos <= BitLen(buf) && UsableCodes(codes) && Positive(st.slots)
    ensures match LiteralsFrom(codes.literal, buf, pos, st.out, insert, target)
            case Err(e) => Expected(e)
            case Ok((out, p)) =>
              |out| < target ==>
                match CopyFrom(codes, buf, State(out, st.slots, p), implicit, copy, target, window)
                case Ok(s) => Positive(s.slots)
                case Err(e) => Expected(e)
  {
    hide LiteralsFrom, CopyFrom, Usable, SymbolsBelow, Positive;
    var literals := LiteralsFrom(codes.literal, buf, pos, st.out, insert, target);
    if literals.Err? {
      LiteralsFail(codes.literal, buf, pos, st.out, insert, target);
    } else {
      LiteralsAdvance(codes.literal, buf, pos, st.out, insert, target);
      var (out, p) := literals.value;
      if |out| < target { CopyOutcome(codes, buf, State(out, st.slots, p), implicit, copy, target, window); }
    }
  }

  lemma {:induction false} BodyOutcome(codes: Codes, buf: seq<byte>, st: State, target: nat, window: nat)
    requires st.pos <= BitLen(buf) && UsableCodes(codes) && Positive(st.slots)
    requires BodyFrom(codes, buf, st, target, window).Err?
    ensures Expected(BodyFrom(codes, buf, st, target, window).error)
    decreases target - |st.out|
  {
    hide CommandFrom, UsableCodes, Positive, Expected;
    CommandOutcome(codes, buf, st, target, window);
    if CommandFrom(codes, buf, st, target, window).Ok? {
      CommandAdvances(codes, buf, st, target, window);
      BodyOutcome(codes, buf, CommandFrom(codes, buf, st, target, window).value, target, window);
    }
  }

  /**
   Once its preamble is accepted, a metablock fails only because the input ends, a
   recent distance is not positive or the static dictionary is asked for. No symbol
   is ever outside its alphabet, no bits are ever without a symbol, and no distance
   is ever zero.
   */
  lemma MetablockOutcome(buf: seq<byte>, pos: nat, mlen: nat, out: seq<byte>, window: nat)
    requires pos <= BitLen(buf) && PreambleAt(buf, pos).Ok? && MetablockAt(buf, pos, mlen, out, window).Err?
    ensures Expected(MetablockAt(buf, pos, mlen, out, window).error)
  {
    hide PreambleAt, BodyFrom, UsableCodes, Expected;
    PreambleAdvances(buf, pos);
    var (codes, p) := PreambleAt(buf, pos).value;
    BodyOutcome(codes, buf, State(out, RING_INIT, p), |out| + mlen, window);
  }
}
