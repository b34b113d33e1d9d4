/**
 A printed stream on which filling with zeros and refusing part ways: one literal, and
 a copy that takes the initial recent distance of four behind it.
 */
module PreStreamSeen {
  import opened Bytes
  import opened BitReading
  import opened Brotli
  import opened BrotliPrint
  import opened Commands
  import opened Distances
  import opened Lz77
  import opened Huffman
  import opened CodeWords
  import opened Metablock
  import opened BrotliStream
  import opened DistanceReset
  import opened PreStream
  import opened DistanceCarry
  import opened CompressedPrint
  import opened CompressedStream

  /** The literals of a printed command are read, and its copy comes next. */
  lemma PrintedFront(codes: Codes, buf: seq<byte>, st: State, c: Cmd, target: nat)
    requires UsableCodes(codes) && Spells(codes, c)
    requires BitsAt(buf, st.pos, CommandBits(codes, c)) && |st.out| + |c.literals| + c.length <= target
    ensures match FrontFrom(codes, buf, st.out, st.pos, target)
            case Ok(f) => f.out == st.out + c.literals && f.implicit == c.how.Implicit? && f.copy == c.length
            case Err(_) => false
  {
    hide *;
    SpelledParts(codes, c);
    var parts := Parts(c);
    var word, ins, cpy := SymbolBits(codes.command, Compose(parts)), InsertBits(|c.literals|), CopyBits(c.length);
    var lits, dist := LiteralBits(codes.literal, c.literals), DistanceBits(codes.distance, c.how);
    var n := st.pos + |word| + |ins|;
    FiveParts(buf, st.pos, word, ins, cpy, lits, dist);
    CopyReads(buf, n, c.length);
    FrontReads(codes, buf, st.pos, parts, n, c.length, cpy, st.out, c.literals, target);
    ComposeDecompose(parts);
    FrontByParts(codes, buf, st, target, parts, |c.literals|, c.length,
                 [st.pos + |word|, n, n + |cpy|], st.out + c.literals, n + |cpy| + |lits|);
  }

  lemma FrontByParts(codes: Codes, buf: seq<byte>, st: State, target: nat, parts: Components,
                     insert: nat, copy: nat, p: seq<nat>, out: seq<byte>, pos: nat)
    requires |p| == 3 && Named(parts) && Decompose(Compose(parts)) == Ok(parts)
    requires Symbol(codes.command, buf, st.pos) == Ok((Compose(parts), p[0]))
    requires InsertLengthAt(buf, p[0], parts.insertCode) == Ok((insert, p[1]))
    requires CopyLengthAt(buf, p[1], parts.copyCode) == Ok((copy, p[2]))
    requires LiteralsFrom(codes.literal, buf, p[2], st.out, insert, target) == Ok((out, pos))
    ensures FrontFrom(codes, buf, st.out, st.pos, target) == Ok(Front(out, pos, parts.distanceImplicit, copy))
  {
    hide Symbol, LiteralsFrom, InsertLengthAt, CopyLengthAt, Compose, Decompose, Named;
  }

  /** A metablock whose first copy takes the last distance, and that is beyond the bytes before it. */
  lemma FirstCopyBeyond(buf: seq<byte>, st: State, b: Block, h: Header, window: nat)
    requires Sound(b, st.slots, window) && BitsAt(buf, st.pos, BlockBits(b))
    requires !h.isUncompressed && h.mlen == Size(b.cmds, b.tail) && b.cmds != [] && b.cmds[0].how.Implicit?
    requires st.slots[0] > |st.out| + |b.cmds[0].literals|
    ensures st.pos <= BitLen(buf) && !InsideBlock(buf, st.pos, h, st, window)
  {
    hide *;
    SoundParts(b, st.slots, window);
    var c, codes, pre := b.cmds[0], CodesOf(b), PreambleBits(b);
    var at := st.(pos := st.pos + |pre|);
    BitsAtSplit(buf, st.pos, pre, BodyBits(codes, b.cmds, b.tail));
    PreambleReads(buf, st.pos, b);
    PreambleAdvances(buf, st.pos);
    FirstCommand(codes, b.cmds, b.tail, st.out, st.slots, window);
    BitsAtSplit(buf, at.pos, CommandBits(codes, c), BodyBits(codes, b.cmds[1..], b.tail));
    PrintedFront(codes, buf, at, c, |st.out| + h.mlen);
    NotInside(codes, buf, st, h, at.pos, window);
  }

  lemma NotInside(codes: Codes, buf: seq<byte>, st: State, h: Header, p: nat, window: nat)
    requires st.pos <= BitLen(buf) && p <= BitLen(buf) && PreambleAt(buf, st.pos) == Ok((codes, p))
    requires !h.isUncompressed && h.mlen > 0
    requires match FrontFrom(codes, buf, st.out, p, |st.out| + h.mlen)
             case Ok(f) => f.implicit && |f.out| < |st.out| + h.mlen && st.slots[0] > |f.out|
             case Err(_) => false
    ensures !InsideBlock(buf, st.pos, h, st, window)
  {
    hide PreambleAt, FrontFrom, CommandFrom;
  }

  /** Nor then is the stream that starts with it. */
  lemma FirstBlockBeyond(carry: bool, buf: seq<byte>, st: State, blocks: seq<Block>, window: nat)
    requires blocks != [] && SoundAll(carry, blocks, st.out, st.slots, window) && Spelled(blocks)
    requires BitsAt(buf, st.pos, StreamBits(blocks))
    requires blocks[0].cmds != [] && blocks[0].cmds[0].how.Implicit?
    requires st.slots[0] > |st.out| + |blocks[0].cmds[0].literals|
    ensures st.pos <= BitLen(buf) && !InsideStream(carry, buf, st, window)
  {
    hide *;
    InStream(buf, st.pos, StreamBits(blocks));
    FirstBlock(carry, blocks, st.out, st.slots, window);
    var b := blocks[0];
    SoundParts(b, st.slots, window);
    var n := Size(b.cmds, b.tail);
    var head := HeaderBits(n, false);
    var h, p := Header(false, false, false, n), st.pos + |head|;
    BitsAtSplit(buf, st.pos, HeadedBits(b), StreamBits(blocks[1..]));
    BlockReads(buf, st, b, window);
    HeadedParts(b);
    BitsAtSplit(buf, st.pos, head, BlockBits(b));
    FirstCopyBeyond(buf, st.(pos := p), b, h, window);
    NotInsideStream(carry, buf, st, h, p, window);
  }

  lemma NotInsideStream(carry: bool, buf: seq<byte>, st: State, h: Header, p: nat, window: nat)
    requires st.pos <= BitLen(buf) && p <= BitLen(buf) && HeaderAt(buf, st.pos) == Ok((h, p))
    requires !h.isLastEmpty && h.mlen > 0 && !InsideBlock(buf, p, h, st.(pos := p), window)
    ensures !InsideStream(carry, buf, st, window)
  {
    hide HeaderAt, BlockWith, Inside, PreambleAt;
  }

  lemma AloneWritten(slots: Recent)
    requires slots[0] == 4
    ensures Done(SECOND, [], slots).0 == [67, 0, 0]
  {
    assert [] + [67] == [67];
    assert Back([67], 4) == 0 && Back([67, 0], 4) == 0;
    assert [67] + [0] == [67, 0] && [67, 0] + [0] == [67, 0, 0];
    assert Copied([67, 0, 0], 4, 0) == [67, 0, 0];
    assert Copied([67, 0], 4, 1) == [67, 0, 0];
  }

  lemma AloneReaches()
    ensures |RING_INIT| == 4 && Named(Parts(SECOND)) && Describable(One(0), 6, 64)
    ensures Nameable(TableOf(One(0), 64), SECOND.how)
    ensures Reaches(SECOND, RING_INIT, WINDOW) && SECOND.how.Implicit? && RING_INIT[0] == 4 > |SECOND.literals|
    ensures |SECOND.literals| < 0x10_0000 && 2 <= SECOND.length < 0x10_0000 && 3 <= MAX_DECOMP
  {
    Small();
    FirstNameable();
  }

  lemma AloneIsSound()
    ensures |RING_INIT| == 4 && Named(Parts(SECOND)) && SECOND.how.Implicit? && RING_INIT[0] > |SECOND.literals|
    ensures var b := CopyBlock(SECOND, One(0));
            && Sound(b, RING_INIT, WINDOW) && ReachesAll(b.cmds, RING_INIT, WINDOW)
            && Filled(b, [], RING_INIT, WINDOW) == [67, 0, 0] && 3 <= MAX_DECOMP
  {
    hide *;
    AloneReaches();
    AloneWritten(RING_INIT);
    CopyBlockIsSound(SECOND, One(0), [], RING_INIT, WINDOW);
    BlockCommands(SECOND, One(0));
  }

  /** The decoder fills with zeros; refusing distances beyond the bytes written refuses the stream. */
  lemma ZerosSeen() returns (stream: seq<byte>)
    ensures StreamHeaderAt(stream, 0) == Ok((16, 1)) && WindowSize(16) == WINDOW && 1 <= BitLen(stream)
    ensures OuterResult(stream, None) == Ok([67, 0, 0])
    ensures Decode(Reading(false, true), stream, State([], RING_INIT, 1), WINDOW).Err?
  {
    hide *;
    AloneIsSound();
    var b := CopyBlock(SECOND, One(0));
    BlockCommands(SECOND, One(0));
    SingleBlock(false, b, [], RING_INIT, WINDOW);
    CompressedRoundTrip([b], None);
    PrintedDecodes(false, [b]);
    stream := PrintBlocks([b]);
    WindowReads(stream);
    var st := State([], RING_INIT, 1);
    FirstBlockBeyond(false, stream, st, [b], WINDOW);
    InsideUnseen(false, stream, st, WINDOW);
  }
}
