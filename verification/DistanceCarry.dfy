/**
 Whole streams, read in four ways: with the recent distances started afresh in every
 metablock, as the decoder has it, or carried on, as section 4 of RFC 7932 has it; and
 with copies from before the start of the stream filled with zeros, or refused.
 */
module DistanceCarry {
  import opened Bytes
  import opened BitReading
  import opened Brotli
  import opened Distances
  import opened Huffman
  import opened Metablock
  import opened BrotliStream
  import opened DistanceReset
  import opened PreStream

  datatype Reading = Reading(carry: bool, inside: bool)

  function BodyWith(
      inside: bool, codes: Codes, buf: seq<byte>, st: State, target: nat, window: nat): Result<State, MetaError>
    requires st.pos <= BitLen(buf)
  {
    if inside then InsideFrom(codes, buf, st, target, window) else BodyFrom(codes, buf, st, target, window)
  }

  /** Refusing some copies changes nothing where none is refused. */
  lemma {:induction false} InsideIsBody(codes: Codes, buf: seq<byte>, st: State, target: nat, window: nat)
    requires st.pos <= BitLen(buf) && InsideFrom(codes, buf, st, target, window).Ok?
    ensures BodyFrom(codes, buf, st, target, window) == InsideFrom(codes, buf, st, target, window)
    decreases target - |st.out|
  {
    hide CommandFrom, BeyondStart;
    if |st.out| < target {
      CommandAdvances(codes, buf, st, target, window);
      InsideIsBody(codes, buf, CommandFrom(codes, buf, st, target, window).value, target, window);
    }
  }

  /** A metablock of either kind that starts with these recent distances. */
  function BlockWith(
      inside: bool, buf: seq<byte>, pos: nat, h: Header, st: State, window: nat): Result<State, MetaError>
    requires pos <= BitLen(buf)
  {
    if h.isUncompressed then
      var (body, p) :- Framed(RawBytes(buf, Aligned(pos), h.mlen));
      if |st.out| + |body| > MAX_DECOMP then Err(Framing(DecompressionBomb(|st.out| + |body|, MAX_DECOMP)))
      else Ok(State(st.out + body, st.slots, p))
    else
      var (codes, p) :- PreambleAt(buf, pos);
      PreambleAdvances(buf, pos);
      var s :- BodyWith(inside, codes, buf, st.(pos := p), |st.out| + h.mlen, window);
      if |s.out| > MAX_DECOMP then Err(Framing(DecompressionBomb(|s.out|, MAX_DECOMP))) else Ok(s)
  }

  /** The recent distances the next metablock starts with. */
  function NextRing(carry: bool, slots: Recent): Recent {
    if carry then slots else RING_INIT
  }

  /** From the initial distances this is the decoder's own step. */
  lemma BlockFromStart(buf: seq<byte>, pos: nat, h: Header, out: seq<byte>, at: nat, window: nat)
    requires pos <= BitLen(buf)
    ensures match BlockWith(false, buf, pos, h, State(out, RING_INIT, at), window)
            case Ok(s) => BlockAt(buf, pos, h, out, window) == Ok((s.out, s.pos))
            case Err(e) => BlockAt(buf, pos, h, out, window) == Err(e)
  {
    hide RawBytes, PreambleAt, BodyFrom, UsableCodes;
  }

  /** Every metablock moves forward. */
  lemma BlockMoves(inside: bool, buf: seq<byte>, pos: nat, h: Header, st: State, window: nat)
    requires pos <= BitLen(buf) && BlockWith(inside, buf, pos, h, st, window).Ok?
    ensures pos <= BlockWith(inside, buf, pos, h, st, window).value.pos <= BitLen(buf)
  {
    hide BytesAt, PreambleAt, BodyFrom, InsideFrom, UsableCodes;
    if h.isUncompressed {
      BytesAdvance(buf, Aligned(pos), h.mlen);
    } else {
      PreambleAdvances(buf, pos);
      var (codes, p) := PreambleAt(buf, pos).value;
      if inside { InsideIsBody(codes, buf, st.(pos := p), |st.out| + h.mlen, window); }
      BodyExact(codes, buf, st.(pos := p), |st.out| + h.mlen, window);
    }
  }

  /** The rest of a stream. */
  function Decode(r: Reading, buf: seq<byte>, st: State, window: nat): Result<seq<byte>, MetaError>
    requires st.pos <= BitLen(buf)
    decreases BitLen(buf) - st.pos
  {
    var (h, p) :- Framed(HeaderAt(buf, st.pos));
    HeaderAdvances(buf, st.pos);
    if h.isLastEmpty then Ok(st.out)
    else if h.mlen == 0 then if h.isLast then Ok(st.out) else Decode(r, buf, st.(pos := p), window)
    else
      var s :- BlockWith(r.inside, buf, p, h, st, window);
      BlockMoves(r.inside, buf, p, h, st, window);
      if h.isLast then Ok(s.out) else Decode(r, buf, s.(slots := NextRing(r.carry, s.slots)), window)
  }

  /** The decoder is the one that starts afresh and fills with zeros. */
  lemma {:induction false} FreshIsOuter(buf: seq<byte>, st: State, window: nat)
    requires st.pos <= BitLen(buf) && st.slots == RING_INIT
    ensures Decode(Reading(false, false), buf, st, window) == Outer(buf, st.pos, st.out, window)
    decreases BitLen(buf) - st.pos
  {
    hide HeaderAt, BlockWith, BlockAt;
    if HeaderAt(buf, st.pos).Ok? {
      HeaderAdvances(buf, st.pos);
      var (h, p) := HeaderAt(buf, st.pos).value;
      if h.mlen == 0 {
        FreshIsOuter(buf, st.(pos := p), window);
      } else {
        BlockFromStart(buf, p, h, st.out, st.pos, window);
        if BlockWith(false, buf, p, h, st, window).Ok? {
          BlockMoves(false, buf, p, h, st, window);
          var s := BlockWith(false, buf, p, h, st, window).value;
          FreshIsOuter(buf, s.(slots := RING_INIT), window);
        }
      }
    }
  }

  // ---- carried distances ----------------------------------------------------------------------------------

  /** The distances the copies of one metablock take. */
  function BlockDraws(buf: seq<byte>, pos: nat, h: Header, st: State, window: nat): seq<nat>
    requires pos <= BitLen(buf)
  {
    if h.isUncompressed || PreambleAt(buf, pos).Err? then []
    else
      PreambleAdvances(buf, pos);
      var (codes, p) := PreambleAt(buf, pos).value;
      Draws(codes, buf, st.(pos := p), |st.out| + h.mlen, window)
  }

  /** The places of the starting distances one metablock reads before it has set them. */
  function BlockTaken(buf: seq<byte>, pos: nat, h: Header, out: seq<byte>, window: nat): set<nat>
    requires pos <= BitLen(buf)
  {
    if h.isUncompressed || PreambleAt(buf, pos).Err? then {}
    else
      PreambleAdvances(buf, pos);
      var (codes, p) := PreambleAt(buf, pos).value;
      Taken(codes, buf, State(out, RING_INIT, p), |out| + h.mlen, window)
  }

  /** The distances all copies of a stream take, metablock by metablock. */
  function StreamDraws(carry: bool, buf: seq<byte>, st: State, window: nat): seq<seq<nat>>
    requires st.pos <= BitLen(buf)
    decreases BitLen(buf) - st.pos
  {
    if HeaderAt(buf, st.pos).Err? then []
    else
      HeaderAdvances(buf, st.pos);
      var (h, p) := HeaderAt(buf, st.pos).value;
      if h.isLastEmpty then []
      else if h.mlen == 0 then if h.isLast then [] else StreamDraws(carry, buf, st.(pos := p), window)
      else
        var here := [BlockDraws(buf, p, h, st, window)];
        match BlockWith(false, buf, p, h, st, window)
        case Err(_) => here
        case Ok(s) =>
          BlockMoves(false, buf, p, h, st, window);
          if h.isLast then here
          else here + StreamDraws(carry, buf, s.(slots := NextRing(carry, s.slots)), window)
  }

  /** Every metablock finds the initial distances in the places it takes, although they are carried. */
  ghost predicate CarriesAlike(buf: seq<byte>, st: State, window: nat)
    requires st.pos <= BitLen(buf)
    decreases BitLen(buf) - st.pos
  {
    if HeaderAt(buf, st.pos).Err? then true
    else
      HeaderAdvances(buf, st.pos);
      var (h, p) := HeaderAt(buf, st.pos).value;
      if h.isLastEmpty then true
      else if h.mlen == 0 then h.isLast || CarriesAlike(buf, st.(pos := p), window)
      else
        && Agree(RING_INIT, st.slots, BlockTaken(buf, p, h, st.out, window))
        && match BlockWith(false, buf, p, h, st, window)
           case Err(_) => true
           case Ok(s) =>
             BlockMoves(false, buf, p, h, st, window);
             h.isLast || CarriesAlike(buf, s, window)
  }

  /** One metablock from the initial distances and from carried ones. */
  lemma BlockSameDraws(buf: seq<byte>, pos: nat, h: Header, st: State, window: nat)
    requires pos <= BitLen(buf) && BlockWith(false, buf, pos, h, st.(slots := RING_INIT), window).Ok?
    ensures var start := st.(slots := RING_INIT);
            && (BlockDraws(buf, pos, h, start, window) == BlockDraws(buf, pos, h, st, window)
                <==> Agree(RING_INIT, st.slots, BlockTaken(buf, pos, h, st.out, window)))
            && (Agree(RING_INIT, st.slots, BlockTaken(buf, pos, h, st.out, window)) ==>
                  var x, y := BlockWith(false, buf, pos, h, start, window), BlockWith(false, buf, pos, h, st, window);
                  y.Ok? && y.value.out == x.value.out && y.value.pos == x.value.pos)
  {
    hide RawBytes, PreambleAt, BodyFrom, UsableCodes, Draws, Taken;
    NoPlaces(RING_INIT, st.slots);
    if !h.isUncompressed {
      hide Agree;
      PreambleAdvances(buf, pos);
      var (codes, p) := PreambleAt(buf, pos).value;
      var start := State(st.out, RING_INIT, p);
      SameDraws(codes, buf, start, st.slots, |st.out| + h.mlen, window);
      assert start.(slots := st.slots) == st.(pos := p);
    }
  }

  /**
   On a stream that decodes, carrying the recent distances on takes the same distances as starting them
   afresh if and only if every metablock finds the initial ones in the places it takes; and then it gives
   the same bytes.
   */
  lemma {:induction false} CarryUnseen(buf: seq<byte>, st: State, window: nat)
    requires st.pos <= BitLen(buf) && Outer(buf, st.pos, st.out, window).Ok?
    ensures StreamDraws(true, buf, st, window) == StreamDraws(false, buf, st.(slots := RING_INIT), window)
            <==> CarriesAlike(buf, st, window)
    ensures CarriesAlike(buf, st, window) ==>
              Decode(Reading(true, false), buf, st, window) == Outer(buf, st.pos, st.out, window)
    decreases BitLen(buf) - st.pos
  {
    hide HeaderAt, BlockWith, BlockAt, BlockDraws, BlockTaken, Agree;
    HeaderAdvances(buf, st.pos);
    var (h, p) := HeaderAt(buf, st.pos).value;
    if h.isLastEmpty || (h.mlen == 0 && h.isLast) {
    } else if h.mlen == 0 {
      CarryUnseen(buf, st.(pos := p), window);
    } else {
      var start := st.(slots := RING_INIT);
      BlockFromStart(buf, p, h, st.out, st.pos, window);
      BlockSameDraws(buf, p, h, st, window);
      BlockMoves(false, buf, p, h, start, window);
      assert StreamDraws(true, buf, st, window)[0] == BlockDraws(buf, p, h, st, window);
      assert StreamDraws(false, buf, start, window)[0] == BlockDraws(buf, p, h, start, window);
      if Agree(RING_INIT, st.slots, BlockTaken(buf, p, h, st.out, window)) && !h.isLast {
        var y := BlockWith(false, buf, p, h, st, window).value;
        BlockMoves(false, buf, p, h, st, window);
        CarryUnseen(buf, y, window);
        SameTails(BlockDraws(buf, p, h, st, window), StreamDraws(true, buf, y, window),
                  StreamDraws(false, buf, y.(slots := RING_INIT), window));
      }
    }
  }

  /** The recent distances the metablocks of a stream start with. */
  function Rings(carry: bool, buf: seq<byte>, st: State, window: nat): seq<Recent>
    requires st.pos <= BitLen(buf)
    decreases BitLen(buf) - st.pos
  {
    if HeaderAt(buf, st.pos).Err? then []
    else
      HeaderAdvances(buf, st.pos);
      var (h, p) := HeaderAt(buf, st.pos).value;
      if h.isLastEmpty then []
      else if h.mlen == 0 then if h.isLast then [] else Rings(carry, buf, st.(pos := p), window)
      else
        match BlockWith(false, buf, p, h, st, window)
        case Err(_) => [st.slots]
        case Ok(s) =>
          BlockMoves(false, buf, p, h, st, window);
          if h.isLast then [st.slots]
          else [st.slots] + Rings(carry, buf, s.(slots := NextRing(carry, s.slots)), window)
  }

  lemma BlockKeepsNear(buf: seq<byte>, pos: nat, h: Header, st: State, window: nat)
    requires pos <= BitLen(buf) && Near(st.slots, window) && BlockWith(false, buf, pos, h, st, window).Ok?
    ensures Near(BlockWith(false, buf, pos, h, st, window).value.slots, window)
  {
    hide RawBytes, PreambleAt, BodyFrom, UsableCodes, Near;
    if !h.isUncompressed {
      PreambleAdvances(buf, pos);
      var (codes, p) := PreambleAt(buf, pos).value;
      BodyKeepsNear(codes, buf, st.(pos := p), |st.out| + h.mlen, window);
    }
  }

  /** Carried or not, the recent distances never leave the window. */
  lemma {:induction false} RingsStayNear(carry: bool, buf: seq<byte>, st: State, window: nat)
    requires st.pos <= BitLen(buf) && Near(RING_INIT, window) && Near(st.slots, window)
    ensures forall ring <- Rings(carry, buf, st, window) :: Near(ring, window)
    decreases BitLen(buf) - st.pos
  {
    hide HeaderAt, BlockWith, Near;
    if HeaderAt(buf, st.pos).Ok? {
      HeaderAdvances(buf, st.pos);
      var (h, p) := HeaderAt(buf, st.pos).value;
      if h.mlen == 0 {
        RingsStayNear(carry, buf, st.(pos := p), window);
      } else if BlockWith(false, buf, p, h, st, window).Ok? {
        BlockMoves(false, buf, p, h, st, window);
        BlockKeepsNear(buf, p, h, st, window);
        var s := BlockWith(false, buf, p, h, st, window).value;
        RingsStayNear(carry, buf, s.(slots := NextRing(carry, s.slots)), window);
      }
    }
  }

  /** So it is in every stream, whichever window it declares. */
  lemma EveryRingNear(carry: bool, buf: seq<byte>)
    requires StreamHeaderAt(buf, 0).Ok?
    ensures var (wbits, p) := StreamHeaderAt(buf, 0).value;
            && p <= BitLen(buf)
            && forall ring <- Rings(carry, buf, State([], RING_INIT, p), WindowSize(wbits)) ::
                 Near(ring, WindowSize(wbits))
  {
    StreamHeaderAdvances(buf);
    WindowCovers(buf);
    hide StreamHeaderAt, WindowSize, Rings, Near;
    var (wbits, p) := StreamHeaderAt(buf, 0).value;
    RingsStayNear(carry, buf, State([], RING_INIT, p), WindowSize(wbits));
  }

  lemma WindowCovers(buf: seq<byte>)
    requires StreamHeaderAt(buf, 0).Ok?
    ensures Near(RING_INIT, WindowSize(StreamHeaderAt(buf, 0).value.0))
  {
    var wbits := StreamHeaderAt(buf, 0).value.0;
    Pow2Monotone(10, wbits);
    assert Pow2(10) == 1024;
  }

  // ---- copies from before the start -----------------------------------------------------------------------

  /** No copy of this metablock reaches before the start of the stream. */
  ghost predicate InsideBlock(buf: seq<byte>, pos: nat, h: Header, st: State, window: nat)
    requires pos <= BitLen(buf)
  {
    if h.isUncompressed || PreambleAt(buf, pos).Err? then true
    else
      PreambleAdvances(buf, pos);
      var (codes, p) := PreambleAt(buf, pos).value;
      Inside(codes, buf, st.(pos := p), |st.out| + h.mlen, window)
  }

  /** No copy of the stream does. */
  ghost predicate InsideStream(carry: bool, buf: seq<byte>, st: State, window: nat)
    requires st.pos <= BitLen(buf)
    decreases BitLen(buf) - st.pos
  {
    if HeaderAt(buf, st.pos).Err? then true
    else
      HeaderAdvances(buf, st.pos);
      var (h, p) := HeaderAt(buf, st.pos).value;
      if h.isLastEmpty then true
      else if h.mlen == 0 then h.isLast || InsideStream(carry, buf, st.(pos := p), window)
      else
        && InsideBlock(buf, p, h, st, window)
        && match BlockWith(false, buf, p, h, st, window)
           case Err(_) => true
           case Ok(s) =>
             BlockMoves(false, buf, p, h, st, window);
             h.isLast || InsideStream(carry, buf, s.(slots := NextRing(carry, s.slots)), window)
  }

  lemma InsideBlockDecodes(buf: seq<byte>, pos: nat, h: Header, st: State, window: nat)
    requires pos <= BitLen(buf) && BlockWith(false, buf, pos, h, st, window).Ok?
    ensures if InsideBlock(buf, pos, h, st, window)
            then BlockWith(true, buf, pos, h, st, window) == BlockWith(false, buf, pos, h, st, window)
            else BlockWith(true, buf, pos, h, st, window).Err?
  {
    hide RawBytes, PreambleAt, BodyFrom, InsideFrom, Inside, UsableCodes;
    if !h.isUncompressed {
      PreambleAdvances(buf, pos);
      var (codes, p) := PreambleAt(buf, pos).value;
      InsideBody(codes, buf, st.(pos := p), |st.out| + h.mlen, window);
    }
  }

  /**
   A stream that decodes gives the same bytes when distances beyond the bytes written are refused, if it has
   none, and an error otherwise.
   */
  lemma {:induction false} InsideUnseen(carry: bool, buf: seq<byte>, st: State, window: nat)
    requires st.pos <= BitLen(buf) && Decode(Reading(carry, false), buf, st, window).Ok?
    ensures if InsideStream(carry, buf, st, window)
            then Decode(Reading(carry, true), buf, st, window) == Decode(Reading(carry, false), buf, st, window)
            else Decode(Reading(carry, true), buf, st, window).Err?
    decreases BitLen(buf) - st.pos
  {
    hide HeaderAt, BlockWith, InsideBlock;
    HeaderAdvances(buf, st.pos);
    var (h, p) := HeaderAt(buf, st.pos).value;
    if h.isLastEmpty || (h.mlen == 0 && h.isLast) {
    } else if h.mlen == 0 {
      InsideUnseen(carry, buf, st.(pos := p), window);
    } else {
      InsideBlockDecodes(buf, p, h, st, window);
      BlockMoves(false, buf, p, h, st, window);
      if InsideBlock(buf, p, h, st, window) && !h.isLast {
        var s := BlockWith(false, buf, p, h, st, window).value;
        InsideUnseen(carry, buf, s.(slots := NextRing(carry, s.slots)), window);
      }
    }
  }
}
