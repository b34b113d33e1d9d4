/**
 Copies that reach before the start of the stream.  Section 4 of RFC 7932 takes a
 distance beyond the bytes written as a reference to the static dictionary; the
 decoder copies zeros as long as the distance is within the window.
 */
module PreStream {
  import opened Bytes
  import opened BitReading
  import Commands
  import opened ComplexCodes
  import opened Distances
  import opened Huffman
  import opened Lz77
  import opened Metablock
  import opened DistanceReset

  /** The distance of the next copy, if it is beyond the bytes written before it. */
  function BeyondStart(codes: Codes, buf: seq<byte>, st: State, target: nat): Option<nat> {
    match CopyAfter(codes, buf, st, target)
    case None => None
    case Some(f) =>
      match Draw(codes, buf, f, st.slots)
      case None => None
      case Some(d) => if d > |f.out| then Some(d) else None
  }

  /** The commands of a metablock, with such distances refused as references to the dictionary. */
  function InsideFrom(codes: Codes, buf: seq<byte>, st: State, target: nat, window: nat): Result<State, MetaError>
    requires st.pos <= BitLen(buf)
    decreases target - |st.out|
  {
    if |st.out| >= target then Ok(st)
    else
      var s :- CommandFrom(codes, buf, st, target, window);
      CommandAdvances(codes, buf, st, target, window);
      match BeyondStart(codes, buf, st, target)
      case Some(d) => Err(DictionaryDistanceNotSupported(d, |st.out|))
      case None => InsideFrom(codes, buf, s, target, window)
  }

  /** No copy reaches before the start of the stream. */
  ghost predicate Inside(codes: Codes, buf: seq<byte>, st: State, target: nat, window: nat)
    requires st.pos <= BitLen(buf)
    decreases target - |st.out|
  {
    if |st.out| >= target then true
    else
      && BeyondStart(codes, buf, st, target).None?
      && match CommandFrom(codes, buf, st, target, window)
         case Err(_) => true
         case Ok(s) =>
           CommandAdvances(codes, buf, st, target, window);
           Inside(codes, buf, s, target, window)
  }

  /** A metablock that decodes does so with those distances refused if and only if it has none. */
  lemma {:induction false} InsideBody(codes: Codes, buf: seq<byte>, st: State, target: nat, window: nat)
    requires st.pos <= BitLen(buf) && BodyFrom(codes, buf, st, target, window).Ok?
    ensures if Inside(codes, buf, st, target, window)
            then InsideFrom(codes, buf, st, target, window) == BodyFrom(codes, buf, st, target, window)
            else InsideFrom(codes, buf, st, target, window).Err?
    decreases target - |st.out|
  {
    hide CommandFrom, BeyondStart;
    if |st.out| < target {
      CommandAdvances(codes, buf, st, target, window);
      if BeyondStart(codes, buf, st, target).None? {
        InsideBody(codes, buf, CommandFrom(codes, buf, st, target, window).value, target, window);
      }
    }
  }

  /** Otherwise the first byte of such a copy is a zero that no byte of the output gave. */
  lemma InventedZero(codes: Codes, buf: seq<byte>, st: State, target: nat, window: nat)
    requires st.pos <= BitLen(buf) && |st.out| < target && BeyondStart(codes, buf, st, target).Some?
    requires CommandFrom(codes, buf, st, target, window).Ok?
    ensures var f := CopyAfter(codes, buf, st, target).value;
            var out := CommandFrom(codes, buf, st, target, window).value.out;
            |f.out| < |out| && out[|f.out|] == 0
  {
    var f := CopyAfter(codes, buf, st, target).value;
    CommandIsFront(codes, buf, st, target, window);
    FrontIsLong(codes, buf, st, target);
    hide FrontFrom, CommandFrom, Copied;
    var d := Draw(codes, buf, f, st.slots).value;
    var n := if |f.out| + f.copy > target then target - |f.out| else f.copy;
    CopiedRepeats(f.out, d, n);
    hide ExplicitAt;
  }

  /** A copy is never empty. */
  lemma FrontIsLong(codes: Codes, buf: seq<byte>, st: State, target: nat)
    requires st.pos <= BitLen(buf) && FrontFrom(codes, buf, st.out, st.pos, target).Ok?
    ensures FrontFrom(codes, buf, st.out, st.pos, target).value.copy >= 2
  {
    hide SymbolAt, LiteralsFrom, Commands.Decompose, Commands.LengthAt;
    SymbolAdvances(codes.command, buf, st.pos);
    var (sym, p) := Symbol(codes.command, buf, st.pos).value;
    var c := Commands.Decompose(sym).value;
    Commands.LengthInRow(buf, p, c.insertCode, Commands.INSERT_OFFSET, Commands.INSERT_EXTRA_BITS);
    var (insert, q) := Commands.InsertLengthAt(buf, p, c.insertCode).value;
    Commands.CopyIsLong(buf, q, c.copyCode);
  }
}
