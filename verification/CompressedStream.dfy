/**
 Whole Brotli streams of compressed metablocks, printed and decoded back
 (sections 9.1 to 9.3 of RFC 7932).
 */
module CompressedStream {
  import opened Bytes
  import opened BitReading
  import opened Brotli
  import opened BrotliPrint
  import opened Commands
  import opened Distances
  import opened Lz77
  import opened Huffman
  import opened PrefixCodes
  import opened ComplexCodes
  import opened CodeWords
  import opened Metablock
  import opened BrotliStream
  import opened DistanceCarry
  import opened CompressedPrint

  // ---- preamble ---------------------------------------------------------------------------------------

  /** One block type and one tree everywhere, no postfix bits, no direct codes, context mode 0. */
  function SettingBits(): seq<bool> {
    BitsOf(0, 1) + (BitsOf(0, 1) + (BitsOf(0, 1)
    + (BitsOf(0, 2) + (BitsOf(0, 4) + (BitsOf(0, 2)
    + (BitsOf(0, 1) + (BitsOf(0, 1) + [])))))))
  }

  lemma CountReads(buf: seq<byte>, pos: nat, more: seq<bool>)
    requires BitsAt(buf, pos, BitsOf(0, 1) + more)
    ensures CountAt(buf, pos) == Ok((1, pos + 1)) && BitsAt(buf, pos + 1, more)
    ensures forall s :: OneTypeAt(buf, pos, s) == Ok(pos + 1) && OneTreeAt(buf, pos, s) == Ok(pos + 1)
  {
    hide BitsOf, BitsAt, Bits;
    assert Pow2(1) == 2;
    ReadNumber(buf, pos, 0, 1, more);
  }

  lemma ParamsRead(buf: seq<byte>, pos: nat, more: seq<bool>)
    requires BitsAt(buf, pos, BitsOf(0, 2) + (BitsOf(0, 4) + (BitsOf(0, 2) + more)))
    ensures ParamsAt(buf, pos) == Ok(pos + 8) && BitsAt(buf, pos + 8, more)
  {
    hide BitsOf, BitsAt, Bits;
    assert Pow2(2) == 4 && Pow2(4) == 16;
    ReadNumber(buf, pos, 0, 2, BitsOf(0, 4) + (BitsOf(0, 2) + more));
    ReadNumber(buf, pos + 2, 0, 4, BitsOf(0, 2) + more);
    ReadNumber(buf, pos + 6, 0, 2, more);
  }

  lemma SettingsRead(buf: seq<byte>, pos: nat)
    requires BitsAt(buf, pos, SettingBits())
    ensures SettingsAt(buf, pos) == Ok(pos + 13) && |SettingBits()| == 13
  {
    hide BitsOf, BitsAt, OneTypeAt, OneTreeAt, ParamsAt, CountAt;
    var trees := BitsOf(0, 1) + (BitsOf(0, 1) + []);
    var params := BitsOf(0, 2) + (BitsOf(0, 4) + (BitsOf(0, 2) + trees));
    CountReads(buf, pos, BitsOf(0, 1) + (BitsOf(0, 1) + params));
    CountReads(buf, pos + 1, BitsOf(0, 1) + params);
    CountReads(buf, pos + 2, params);
    ParamsRead(buf, pos + 3, trees);
    CountReads(buf, pos + 11, BitsOf(0, 1) + []);
    CountReads(buf, pos + 12, []);
  }

  /** Three prefix codes, commands, and literals to end with. */
  datatype Block = Block(literal: CodeSpec, command: CodeSpec, distance: CodeSpec, cmds: seq<Cmd>, tail: seq<byte>)

  function CodesOf(b: Block): Codes {
    Codes(TableOf(b.literal, 256), TableOf(b.command, 704), TableOf(b.distance, 64))
  }

  ghost predicate DescribesAll(b: Block) {
    Describable(b.literal, 8, 256) && Describable(b.command, 10, 704) && Describable(b.distance, 6, 64)
  }

  function PreambleBits(b: Block): seq<bool> {
    SettingBits() + (SpecBits(b.literal, 8) + (SpecBits(b.command, 10) + SpecBits(b.distance, 6)))
  }

  lemma CodesRead(buf: seq<byte>, pos: nat, b: Block)
    requires DescribesAll(b)
    requires BitsAt(buf, pos, SpecBits(b.literal, 8) + (SpecBits(b.command, 10) + SpecBits(b.distance, 6)))
    ensures pos <= BitLen(buf)
    ensures CodesAt(buf, pos)
         == Ok((CodesOf(b), pos + |SpecBits(b.literal, 8)| + |SpecBits(b.command, 10)| + |SpecBits(b.distance, 6)|))
  {
    hide BitsAt, SpecBits, TableOf, PrefixCodeAt, Describable, Usable, SymbolsBelow;
    var l, c, d := SpecBits(b.literal, 8), SpecBits(b.command, 10), SpecBits(b.distance, 6);
    BitsAtSplit(buf, pos, l, c + d);
    BitsAtSplit(buf, pos + |l|, c, d);
    CodeReads(buf, pos, b.literal, 8, 256);
    CodeReads(buf, pos + |l|, b.command, 10, 704);
    CodeReads(buf, pos + |l| + |c|, b.distance, 6, 64);
  }

  lemma PreambleReads(buf: seq<byte>, pos: nat, b: Block)
    requires DescribesAll(b) && BitsAt(buf, pos, PreambleBits(b))
    ensures pos <= BitLen(buf) && PreambleAt(buf, pos) == Ok((CodesOf(b), pos + |PreambleBits(b)|))
  {
    hide BitsAt, SpecBits, SettingBits, SettingsAt, CodesAt, DescribesAll, CodesOf;
    InStream(buf, pos, PreambleBits(b));
    var l, c, d := SpecBits(b.literal, 8), SpecBits(b.command, 10), SpecBits(b.distance, 6);
    BitsAtSplit(buf, pos, SettingBits(), l + (c + d));
    SettingsRead(buf, pos);
    CodesRead(buf, pos + 13, b);
  }

  // ---- metablocks -------------------------------------------------------------------------------------

  /** The codes can be described and spell all commands, and the distances are there. */
  ghost predicate Sound(b: Block, slots: Recent, window: nat) {
    && DescribesAll(b)
    && SpellsAll(CodesOf(b), b.cmds) && SpellsTail(CodesOf(b), b.tail)
    && ReachesAll(b.cmds, slots, window)
    && 0 < Size(b.cmds, b.tail) <= 0x100_0000
  }

  /** The output after the metablock. */
  function Filled(b: Block, out: seq<byte>, slots: Recent, window: nat): seq<byte>
    requires ReachesAll(b.cmds, slots, window)
  {
    Run(b.cmds, out, slots, window).0 + b.tail
  }

  /** The recent distances after it. */
  function Left(b: Block, out: seq<byte>, slots: Recent, window: nat): Recent
    requires ReachesAll(b.cmds, slots, window)
  {
    Run(b.cmds, out, slots, window).1
  }

  function BlockBits(b: Block): seq<bool>
    requires SpellsAll(CodesOf(b), b.cmds) && SpellsTail(CodesOf(b), b.tail)
  {
    PreambleBits(b) + BodyBits(CodesOf(b), b.cmds, b.tail)
  }

  lemma SoundParts(b: Block, slots: Recent, window: nat)
    requires Sound(b, slots, window)
    ensures DescribesAll(b) && SpellsAll(CodesOf(b), b.cmds) && SpellsTail(CodesOf(b), b.tail)
    ensures ReachesAll(b.cmds, slots, window) && 0 < Size(b.cmds, b.tail) <= 0x100_0000
    ensures BlockBits(b) == PreambleBits(b) + BodyBits(CodesOf(b), b.cmds, b.tail)
  {
    hide SpellsAll, SpellsTail, CodesOf, ReachesAll, DescribesAll, Size, PreambleBits, BodyBits;
  }

  /** A printed metablock is decoded to the bytes its commands stand for, with exactly its own bits. */
  lemma MetablockReads(buf: seq<byte>, st: State, b: Block, window: nat)
    requires Sound(b, st.slots, window) && BitsAt(buf, st.pos, BlockBits(b))
    ensures st.pos <= BitLen(buf) && PreambleAt(buf, st.pos).Ok?
    ensures var (codes, p) := PreambleAt(buf, st.pos).value;
            && p <= BitLen(buf)
            && BodyFrom(codes, buf, st.(pos := p), |st.out| + Size(b.cmds, b.tail), window)
               == Ok(State(Filled(b, st.out, st.slots, window), Left(b, st.out, st.slots, window),
                           st.pos + |BlockBits(b)|))
  {
    hide *;
    SoundParts(b, st.slots, window);
    var pre, body := PreambleBits(b), BodyBits(CodesOf(b), b.cmds, b.tail);
    BitsAtSplit(buf, st.pos, pre, body);
    PreambleReads(buf, st.pos, b);
    PreambleAdvances(buf, st.pos);
    BodyReads(CodesOf(b), buf, st.(pos := st.pos + |pre|), b.cmds, b.tail, window);
    RunParts(b, st.out, st.slots, window);
  }

  lemma RunParts(b: Block, out: seq<byte>, slots: Recent, window: nat)
    requires ReachesAll(b.cmds, slots, window)
    ensures Filled(b, out, slots, window) == Run(b.cmds, out, slots, window).0 + b.tail
    ensures Left(b, out, slots, window) == Run(b.cmds, out, slots, window).1
  {
    hide Run;
  }

  // ---- streams ----------------------------------------------------------------------------------------

  /** All metablocks are sound and the output stays within the cap. */
  ghost predicate SoundAll(carry: bool, blocks: seq<Block>, out: seq<byte>, slots: Recent, window: nat)
    decreases |blocks|
  {
    blocks != [] ==>
      && Sound(blocks[0], slots, window)
      && |Filled(blocks[0], out, slots, window)| <= MAX_DECOMP
      && SoundAll(carry, blocks[1..], Filled(blocks[0], out, slots, window),
                  NextRing(carry, Left(blocks[0], out, slots, window)), window)
  }

  /** The output after all metablocks. */
  function Written(carry: bool, blocks: seq<Block>, out: seq<byte>, slots: Recent, window: nat): seq<byte>
    requires SoundAll(carry, blocks, out, slots, window)
    decreases |blocks|
  {
    if blocks == [] then out
    else
      Written(carry, blocks[1..], Filled(blocks[0], out, slots, window),
              NextRing(carry, Left(blocks[0], out, slots, window)), window)
  }

  ghost predicate Spelled(blocks: seq<Block>) {
    forall i | 0 <= i < |blocks| ::
      && 0 < Size(blocks[i].cmds, blocks[i].tail) <= 0x100_0000
      && SpellsAll(CodesOf(blocks[i]), blocks[i].cmds) && SpellsTail(CodesOf(blocks[i]), blocks[i].tail)
  }

  function HeadedBits(b: Block): seq<bool>
    requires 0 < Size(b.cmds, b.tail) <= 0x100_0000
    requires SpellsAll(CodesOf(b), b.cmds) && SpellsTail(CodesOf(b), b.tail)
  {
    HeaderBits(Size(b.cmds, b.tail), false) + BlockBits(b)
  }

  /** The metablocks, each with its header, and the empty last one. */
  function StreamBits(blocks: seq<Block>): seq<bool>
    requires Spelled(blocks)
  {
    if blocks == [] then EndBits() else HeadedBits(blocks[0]) + StreamBits(blocks[1..])
  }

  /** A whole stream: window size 16, then the metablocks. */
  function PrintBlocks(blocks: seq<Block>): seq<byte>
    requires Spelled(blocks)
  {
    Pack(WindowBits() + StreamBits(blocks))
  }

  lemma {:induction false} SoundIsSpelled(carry: bool, blocks: seq<Block>, out: seq<byte>, slots: Recent, window: nat)
    requires SoundAll(carry, blocks, out, slots, window)
    ensures Spelled(blocks)
    decreases |blocks|
  {
    hide SpellsAll, SpellsTail, CodesOf, DescribesAll, ReachesAll, Filled, Left, Size;
    if blocks != [] {
      SoundIsSpelled(carry, blocks[1..], Filled(blocks[0], out, slots, window),
                     NextRing(carry, Left(blocks[0], out, slots, window)), window);
      assert blocks == [blocks[0]] + blocks[1..];
    }
  }

  lemma BlockByParts(buf: seq<byte>, p: nat, h: Header, st: State, s: State, window: nat)
    requires p <= BitLen(buf) && !h.isUncompressed && PreambleAt(buf, p).Ok?
    requires PreambleAt(buf, p).value.1 <= BitLen(buf) && |s.out| <= MAX_DECOMP
    requires var (codes, q) := PreambleAt(buf, p).value;
             BodyFrom(codes, buf, st.(pos := q), |st.out| + h.mlen, window) == Ok(s)
    ensures BlockWith(false, buf, p, h, st, window) == Ok(s)
  {
    hide PreambleAt, BodyFrom, UsableCodes;
  }

  /** One metablock with its header, read by one step of the stream decoder. */
  lemma BlockReads(buf: seq<byte>, st: State, b: Block, window: nat)
    requires Sound(b, st.slots, window) && |Filled(b, st.out, st.slots, window)| <= MAX_DECOMP
    requires BitsAt(buf, st.pos, HeadedBits(b))
    ensures var h := Header(false, false, false, Size(b.cmds, b.tail));
            var p := st.pos + |HeaderBits(Size(b.cmds, b.tail), false)|;
            && p <= BitLen(buf) && HeaderAt(buf, st.pos) == Ok((h, p))
            && BlockWith(false, buf, p, h, st, window)
               == Ok(State(Filled(b, st.out, st.slots, window), Left(b, st.out, st.slots, window),
                           st.pos + |HeadedBits(b)|))
  {
    hide *;
    SoundParts(b, st.slots, window);
    HeadedParts(b);
    var n := Size(b.cmds, b.tail);
    var head := HeaderBits(n, false);
    var h, p := Header(false, false, false, n), st.pos + |head|;
    BitsAtSplit(buf, st.pos, head, BlockBits(b));
    InStream(buf, st.pos, head);
    ReadPrintedHeader(buf, st.pos, n, false);
    MetablockReads(buf, st.(pos := p), b, window);
    var s := State(Filled(b, st.out, st.slots, window), Left(b, st.out, st.slots, window), p + |BlockBits(b)|);
    BlockByParts(buf, p, h, st, s, window);
  }

  lemma HeadedParts(b: Block)
    requires 0 < Size(b.cmds, b.tail) <= 0x100_0000
    requires SpellsAll(CodesOf(b), b.cmds) && SpellsTail(CodesOf(b), b.tail)
    ensures HeadedBits(b) == HeaderBits(Size(b.cmds, b.tail), false) + BlockBits(b)
  {
    hide HeaderBits, BlockBits, Size;
  }

  lemma DecodeStep(carry: bool, buf: seq<byte>, st: State, window: nat, h: Header, p: nat, s: State)
    requires st.pos <= BitLen(buf) && p <= BitLen(buf) && HeaderAt(buf, st.pos) == Ok((h, p))
    requires !h.isLast && !h.isLastEmpty && h.mlen > 0 && BlockWith(false, buf, p, h, st, window) == Ok(s)
    ensures s.pos <= BitLen(buf)
    ensures Decode(Reading(carry, false), buf, st, window)
         == Decode(Reading(carry, false), buf, s.(slots := NextRing(carry, s.slots)), window)
  {
    hide HeaderAt, BlockWith;
    BlockMoves(false, buf, p, h, st, window);
  }

  lemma DecodeEnds(carry: bool, buf: seq<byte>, st: State, window: nat)
    requires BitsAt(buf, st.pos, EndBits())
    ensures st.pos <= BitLen(buf) && Decode(Reading(carry, false), buf, st, window) == Ok(st.out)
  {
    InStream(buf, st.pos, EndBits());
    hide HeaderAt, BitsAt, EndBits;
    ReadPrintedEnd(buf, st.pos);
  }

  /** Printed metablocks are decoded to what their commands stand for, with or without carried distances. */
  lemma {:induction false} DecodeReads(carry: bool, buf: seq<byte>, st: State, blocks: seq<Block>, window: nat)
    requires SoundAll(carry, blocks, st.out, st.slots, window) && Spelled(blocks)
    requires BitsAt(buf, st.pos, StreamBits(blocks))
    ensures st.pos <= BitLen(buf)
    ensures Decode(Reading(carry, false), buf, st, window) == Ok(Written(carry, blocks, st.out, st.slots, window))
    decreases |blocks|
  {
    hide *;
    InStream(buf, st.pos, StreamBits(blocks));
    if blocks == [] {
      NoBlocks(carry, st.out, st.slots, window);
      DecodeEnds(carry, buf, st, window);
    } else {
      FirstBlock(carry, blocks, st.out, st.slots, window);
      var b := blocks[0];
      var n := Size(b.cmds, b.tail);
      BitsAtSplit(buf, st.pos, HeadedBits(b), StreamBits(blocks[1..]));
      BlockReads(buf, st, b, window);
      var s := State(Filled(b, st.out, st.slots, window), Left(b, st.out, st.slots, window),
                     st.pos + |HeadedBits(b)|);
      DecodeStep(carry, buf, st, window, Header(false, false, false, n), st.pos + |HeaderBits(n, false)|, s);
      DecodeReads(carry, buf, s.(slots := NextRing(carry, s.slots)), blocks[1..], window);
    }
  }

  lemma NoBlocks(carry: bool, out: seq<byte>, slots: Recent, window: nat)
    ensures Spelled([]) && StreamBits([]) == EndBits()
    ensures SoundAll(carry, [], out, slots, window) && Written(carry, [], out, slots, window) == out
  {
  }

  /** The first of several metablocks, and the others. */
  lemma FirstBlock(carry: bool, blocks: seq<Block>, out: seq<byte>, slots: Recent, window: nat)
    requires SoundAll(carry, blocks, out, slots, window) && Spelled(blocks) && blocks != []
    ensures var b, rest := blocks[0], blocks[1..];
            && Sound(b, slots, window) && ReachesAll(b.cmds, slots, window)
            && SpellsAll(CodesOf(b), b.cmds) && SpellsTail(CodesOf(b), b.tail)
            && 0 < Size(b.cmds, b.tail) <= 0x100_0000 && |Filled(b, out, slots, window)| <= MAX_DECOMP
            && Spelled(rest) && StreamBits(blocks) == HeadedBits(b) + StreamBits(rest)
            && var next, ring := Filled(b, out, slots, window), NextRing(carry, Left(b, out, slots, window));
               && SoundAll(carry, rest, next, ring, window)
               && Written(carry, blocks, out, slots, window) == Written(carry, rest, next, ring, window)
  {
    hide SpellsAll, SpellsTail, CodesOf, DescribesAll, ReachesAll, Filled, Left, Size, HeadedBits;
  }

  // ---- the whole round trip -----------------------------------------------------------------------------

  const WINDOW: nat := 65520

  lemma WindowReads(buf: seq<byte>)
    requires BitsAt(buf, 0, WindowBits())
    ensures StreamHeaderAt(buf, 0) == Ok((16, 1)) && WindowSize(16) == WINDOW
  {
    assert Pow2(1) == 2;
    hide BitsAt, BitsOf, Bits;
    Pow2Sixteen();
    assert WindowBits() + [] == BitsOf(0, 1) + [] == WindowBits();
    ReadNumber(buf, 0, 0, 1, []);
  }

  /** Behind the window descriptor the printed metablocks are decoded. */
  lemma PrintedDecodes(carry: bool, blocks: seq<Block>)
    requires SoundAll(carry, blocks, [], RING_INIT, WINDOW)
    ensures Spelled(blocks) && BitsAt(PrintBlocks(blocks), 0, WindowBits()) && 1 <= BitLen(PrintBlocks(blocks))
    ensures BitsAt(PrintBlocks(blocks), 1, StreamBits(blocks))
    ensures Decode(Reading(carry, false), PrintBlocks(blocks), State([], RING_INIT, 1), WINDOW)
         == Ok(Written(carry, blocks, [], RING_INIT, WINDOW))
  {
    hide SoundAll, Spelled, StreamBits, Written, Decode, BitsAt, Pack;
    SoundIsSpelled(carry, blocks, [], RING_INIT, WINDOW);
    var bits, buf := StreamBits(blocks), PrintBlocks(blocks);
    PackedAt([], WindowBits() + bits, []);
    assert [] + Pack(WindowBits() + bits) + [] == buf;
    BitsAtSplit(buf, 0, WindowBits(), bits);
    DecodeReads(carry, buf, State([], RING_INIT, 1), blocks, WINDOW);
  }

  /**
   Whatever prefix codes are chosen and whatever commands they spell, printing them as
   compressed metablocks and decoding gives the bytes the commands stand for.
   */
  lemma CompressedRoundTrip(blocks: seq<Block>, expected: Option<nat>)
    requires SoundAll(false, blocks, [], RING_INIT, WINDOW)
    requires expected.Some? ==> expected.value == |Written(false, blocks, [], RING_INIT, WINDOW)| <= MAX_DECOMP
    ensures Spelled(blocks)
    ensures OuterResult(PrintBlocks(blocks), expected) == Ok(Written(false, blocks, [], RING_INIT, WINDOW))
  {
    hide SoundAll, Spelled, PrintBlocks, Written, Outer, Decode, BitsAt, StreamHeaderAt, WindowSize;
    PrintedDecodes(false, blocks);
    var buf := PrintBlocks(blocks);
    WindowReads(buf);
    FreshIsOuter(buf, State([], RING_INIT, 1), WINDOW);
  }

  // ---- every byte string ----------------------------------------------------------------------------------

  /** One command of literals only, each with a word of eight bits. */
  function LiteralBlock(w: seq<byte>): Block {
    Block(Many(Copies(8, 256)), One(Compose(TailParts(w))), One(0), [], w)
  }

  lemma {:induction false} SharesOfCopies(l: nat, n: nat)
    ensures Shares(Copies(l, n)) == n * Share(l)
    decreases n
  {
    hide Share;
    if n > 0 {
      assert Copies(l, n)[1..] == Copies(l, n - 1);
      SharesOfCopies(l, n - 1);
      Distribute(n - 1, 1, Share(l));
    }
  }

  lemma EightBitsCover()
    ensures CodeWords.Complete(Copies(8, 256))
  {
    hide Shares;
    SharesOfCopies(8, 256);
    assert Share(8) == 128 by { assert Pow2(7) == 128; }
  }

  lemma LiteralsDescribed(w: seq<byte>)
    ensures DescribesAll(LiteralBlock(w))
  {
    hide CodeWords.Complete, Copies, Compose;
    EightBitsCover();
    SmallPow2();
  }

  /** Every byte string that fits a metablock is printed as compressed literals and decoded back. */
  lemma LiteralRoundTrip(w: seq<byte>)
    requires 0 < |w| <= 0x100_0000
    ensures Spelled([LiteralBlock(w)])
    ensures OuterResult(PrintBlocks([LiteralBlock(w)]), Some(|w|)) == Ok(w)
  {
    hide OuterResult, PrintBlocks, Spelled, SoundAll, Written;
    OneBlock(w);
    CompressedRoundTrip([LiteralBlock(w)], Some(|w|));
  }

  lemma OneBlock(w: seq<byte>)
    requires 0 < |w| <= 0x100_0000
    ensures SoundAll(false, [LiteralBlock(w)], [], RING_INIT, WINDOW)
    ensures Written(false, [LiteralBlock(w)], [], RING_INIT, WINDOW) == w
  {
    hide Sound, Filled, ReachesAll, LiteralBlock, SoundAll, Written;
    LiteralIsSound(w);
    LiteralFills(w);
    SingleBlock(false, LiteralBlock(w), [], RING_INIT, WINDOW);
  }

  lemma LiteralFills(w: seq<byte>)
    requires ReachesAll(LiteralBlock(w).cmds, RING_INIT, WINDOW)
    ensures Filled(LiteralBlock(w), [], RING_INIT, WINDOW) == w
  {
    hide Compose, Copies;
    assert Run([], [], RING_INIT, WINDOW) == ([], RING_INIT) && [] + w == w;
  }

  /** A stream of one metablock. */
  lemma SingleBlock(carry: bool, b: Block, out: seq<byte>, slots: Recent, window: nat)
    requires Sound(b, slots, window) && ReachesAll(b.cmds, slots, window)
    requires |Filled(b, out, slots, window)| <= MAX_DECOMP
    ensures SoundAll(carry, [b], out, slots, window)
    ensures Written(carry, [b], out, slots, window) == Filled(b, out, slots, window)
  {
    hide Sound, Filled, Left, ReachesAll, NextRing;
    assert [b][1..] == [];
    NoBlocks(carry, Filled(b, out, slots, window), NextRing(carry, Left(b, out, slots, window)), window);
  }

  lemma LiteralIsSound(w: seq<byte>)
    requires 0 < |w| <= 0x100_0000
    ensures Sound(LiteralBlock(w), RING_INIT, WINDOW) && ReachesAll(LiteralBlock(w).cmds, RING_INIT, WINDOW)
  {
    hide DescribesAll, Has, TableOf, Compose, Copies, Describable;
    var b := LiteralBlock(w);
    LiteralsDescribed(w);
    DescribedParts(b);
    AnyLiteral(w);
    TableHas(b.command, 10, 704, Compose(TailParts(w)));
  }

  /** The code of eight-bit words has a word for every byte. */
  lemma AnyLiteral(w: seq<byte>)
    ensures HasAll(TableOf(Many(Copies(8, 256)), 256), w)
  {
    hide Has, TableOf, CodeWords.Complete;
    EightBitsCover();
    forall i | 0 <= i < |w|
      ensures Has(TableOf(Many(Copies(8, 256)), 256), w[i])
    {
      TableHas(Many(Copies(8, 256)), 8, 256, w[i]);
    }
  }

  lemma DescribedParts(b: Block)
    requires DescribesAll(b)
    ensures Describable(b.literal, 8, 256) && Describable(b.command, 10, 704) && Describable(b.distance, 6, 64)
  {
    hide Describable;
  }

  // ---- a stream on which carrying distances matters -------------------------------------------------

  /** A metablock of one command. */
  function CopyBlock(c: Cmd, distance: CodeSpec): Block
    requires Named(Parts(c))
  {
    Block(Many(Copies(8, 256)), One(Compose(Parts(c))), distance, [c], [])
  }

  lemma CopyBlockIsSound(c: Cmd, distance: CodeSpec, out: seq<byte>, slots: Recent, window: nat)
    requires Named(Parts(c)) && |c.literals| < 0x10_0000 && 2 <= c.length < 0x10_0000
    requires Describable(distance, 6, 64) && Nameable(TableOf(distance, 64), c.how) && Reaches(c, slots, window)
    ensures Sound(CopyBlock(c, distance), slots, window)
    ensures ReachesAll([c], slots, window)
    ensures (Filled(CopyBlock(c, distance), out, slots, window), Left(CopyBlock(c, distance), out, slots, window))
         == Done(c, out, slots)
  {
    hide Has, TableOf, Compose, Copies, Describable, Nameable, Meant, Copied, CodeWords.Complete, Named;
    var b := CopyBlock(c, distance);
    assert DescribesAll(b) by { OneCommandDescribed(c, distance); }
    hide DescribesAll;
    AnyLiteral(c.literals);
    DescribedParts(b);
    TableHas(b.command, 10, 704, Compose(Parts(c)));
    assert Spells(CodesOf(b), c);
    assert [c][1..] == [];
    assert Size([c], []) == |c.literals| + c.length by { assert Size([], []) == 0; }
    assert ReachesAll([], Meant(c.how, slots).value.1, window);
    var (next, ring) := Done(c, out, slots);
    assert Run([], next, ring, window) == (next, ring);
    assert Run([c], out, slots, window) == (next, ring) && next + [] == next;
  }

  lemma OneCommandDescribed(c: Cmd, distance: CodeSpec)
    requires Named(Parts(c)) && Describable(distance, 6, 64)
    ensures DescribesAll(CopyBlock(c, distance))
  {
    hide CodeWords.Complete, Copies, Compose, Named;
    EightBitsCover();
    SmallPow2();
  }

  const FIRST: Cmd := Cmd([65, 66], 2, Direct(1))
  const SECOND: Cmd := Cmd([67], 2, Implicit)

  lemma Small()
    ensures Named(Parts(FIRST)) && Named(Parts(SECOND)) && DirectCode(1) == 0
  {
    SmallPow2();
    hide Pow2;
    assert RowOf(INSERT_OFFSET, INSERT_EXTRA_BITS, 1, 1) == 1;
    assert RowOf(INSERT_OFFSET, INSERT_EXTRA_BITS, 0, 1) == 1;
    assert RowOf(COPY_OFFSET, COPY_EXTRA_BITS, 0, 2) == 0;
    assert DirectBase(1) == 3 * Pow2(1) - 3;
  }

  lemma FirstWritten(slots: Recent)
    ensures Done(FIRST, [], slots) == ([65, 66, 66, 66], Pushed(slots, 1))
  {
    assert [] + [65, 66] == [65, 66];
    assert Back([65, 66], 1) == 66 && Back([65, 66, 66], 1) == 66;
    assert [65, 66] + [66] == [65, 66, 66] && [65, 66, 66] + [66] == [65, 66, 66, 66];
    assert Copied([65, 66, 66, 66], 1, 0) == [65, 66, 66, 66];
    assert Copied([65, 66, 66], 1, 1) == [65, 66, 66, 66];
  }

  lemma SecondWritten(slots: Recent)
    requires slots[0] == 1 || slots[0] == 4
    ensures Done(SECOND, [65, 66, 66, 66], slots).0
         == [65, 66, 66, 66, 67] + if slots[0] == 1 then [67, 67] else [66, 66]
  {
    var d, x := slots[0], if slots[0] == 1 then 67 else 66;
    var out := [65, 66, 66, 66, 67];
    assert [65, 66, 66, 66] + [67] == out;
    assert Back(out, d) == x && Back(out + [x], d) == x;
    assert out + [x] + [x] == out + [x, x];
    assert Copied(out + [x, x], d, 0) == out + [x, x];
    assert Copied(out + [x], d, 1) == out + [x, x];
  }

  /** Two metablocks, one after the other. */
  lemma OneThenOther(carry: bool, a: Block, b: Block, window: nat, mid: seq<byte>, ring: Recent)
    requires Sound(a, RING_INIT, window) && ReachesAll(a.cmds, RING_INIT, window)
    requires mid == Filled(a, [], RING_INIT, window) && ring == NextRing(carry, Left(a, [], RING_INIT, window))
    requires Sound(b, ring, window) && ReachesAll(b.cmds, ring, window)
    requires |mid| <= MAX_DECOMP && |Filled(b, mid, ring, window)| <= MAX_DECOMP
    ensures SoundAll(carry, [a, b], [], RING_INIT, window)
    ensures Written(carry, [a, b], [], RING_INIT, window) == Filled(b, mid, ring, window)
  {
    hide Sound, Filled, Left, ReachesAll, NextRing;
    SingleBlock(carry, b, mid, ring, window);
    assert [a, b][1..] == [b];
  }

  /** A distance set in one metablock and taken without naming it in the next. */
  lemma TwoBlocksWritten(carry: bool, a: Block, b: Block)
    requires Named(Parts(FIRST)) && Named(Parts(SECOND))
    requires a == CopyBlock(FIRST, One(16)) && b == CopyBlock(SECOND, One(0))
    ensures SoundAll(carry, [a, b], [], RING_INIT, WINDOW)
    ensures Written(carry, [a, b], [], RING_INIT, WINDOW)
         == [65, 66, 66, 66, 67] + if carry then [67, 67] else [66, 66]
  {
    var mid, ring := [65, 66, 66, 66], NextRing(carry, Pushed(RING_INIT, 1));
    FirstWritten(RING_INIT);
    SecondWritten(ring);
    FirstNameable();
    assert Reaches(FIRST, RING_INIT, WINDOW) && Reaches(SECOND, ring, WINDOW);
    hide *;
    CopyBlockIsSound(FIRST, One(16), [], RING_INIT, WINDOW);
    CopyBlockIsSound(SECOND, One(0), mid, ring, WINDOW);
    BlockCommands(FIRST, One(16));
    BlockCommands(SECOND, One(0));
    OneThenOther(carry, a, b, WINDOW, mid, ring);
    ThirdPlace(carry);
  }

  lemma BlockCommands(c: Cmd, distance: CodeSpec)
    requires Named(Parts(c))
    ensures CopyBlock(c, distance).cmds == [c]
  {
  }

  lemma ThirdPlace(carry: bool)
    ensures NextRing(carry, Pushed(RING_INIT, 1))[0] == if carry then 1 else 4
  {
  }

  lemma FirstNameable()
    ensures Describable(One(16), 6, 64) && Nameable(TableOf(One(16), 64), FIRST.how)
    ensures Describable(One(0), 6, 64) && Nameable(TableOf(One(0), 64), SECOND.how)
  {
    Small();
    SmallPow2();
    assert TableOf(One(16), 64)[0].sym == 16;
    hide DirectCode;
  }

  /** The two readings of one stream: started afresh, the distance is 4; carried on, it is 1. */
  lemma ResetSeen() returns (stream: seq<byte>)
    ensures StreamHeaderAt(stream, 0) == Ok((16, 1)) && WindowSize(16) == WINDOW && 1 <= BitLen(stream)
    ensures OuterResult(stream, None) == Ok([65, 66, 66, 66, 67, 66, 66])
    ensures Decode(Reading(true, false), stream, State([], RING_INIT, 1), WINDOW) == Ok([65, 66, 66, 66, 67, 67, 67])
  {
    Small();
    hide *;
    var a, b := CopyBlock(FIRST, One(16)), CopyBlock(SECOND, One(0));
    TwoBlocksWritten(false, a, b);
    TwoBlocksWritten(true, a, b);
    CompressedRoundTrip([a, b], None);
    PrintedDecodes(true, [a, b]);
    stream := PrintBlocks([a, b]);
    WindowReads(stream);
    assert [65, 66, 66, 66, 67] + [66, 66] == [65, 66, 66, 66, 67, 66, 66];
    assert [65, 66, 66, 66, 67] + [67, 67] == [65, 66, 66, 66, 67, 67, 67];
  }
}
