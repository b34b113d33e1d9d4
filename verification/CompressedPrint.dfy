/**
 Printing compressed metablocks: any commands that the chosen prefix codes can spell,
 as a partner for the decoder (sections 5 and 9.3 of RFC 7932).
 */
module CompressedPrint {
  import opened Bytes
  import opened BitReading
  import opened Brotli
  import opened BrotliPrint
  import opened Commands
  import opened Distances
  import opened Lz77
  import opened Huffman
  import opened PrefixCodes
  import opened CodeWords
  import opened Metablock

  // ---- numbers with extra bits -------------------------------------------------------------------

  /** The first row, from `i` on, that ends behind `n`. */
  function RowOf(offset: seq<nat>, bits: seq<nat>, i: nat, n: nat): (k: nat)
    requires |offset| == |bits| && i < |offset|
    ensures i <= k < |offset|
    decreases |offset| - i
  {
    if i + 1 == |offset| || n < offset[i] + Pow2(bits[i]) then i else RowOf(offset, bits, i + 1, n)
  }

  lemma {:induction false} RowOfHolds(offset: seq<nat>, bits: seq<nat>, i: nat, n: nat)
    requires Tiles(offset, bits) && i < |offset|
    requires offset[i] <= n < offset[|offset| - 1] + Pow2(bits[|offset| - 1])
    ensures InRow(offset, bits, RowOf(offset, bits, i, n), n)
    decreases |offset| - i
  {
    if i + 1 < |offset| && n >= offset[i] + Pow2(bits[i]) {
      assert offset[i + 1] == offset[i] + Pow2(bits[i]);
      RowOfHolds(offset, bits, i + 1, n);
    }
  }

  function InsertCode(n: nat): (k: nat)
    ensures k < 24
  {
    RowOf(INSERT_OFFSET, INSERT_EXTRA_BITS, 0, n)
  }

  function CopyCode(n: nat): (k: nat)
    ensures k < 24
  {
    RowOf(COPY_OFFSET, COPY_EXTRA_BITS, 0, n)
  }

  /** The direct code, from `c` on, whose range holds the distance. */
  function DirectFrom(c: nat, d: nat): (k: nat)
    requires c < 48
    ensures c <= k < 48
    decreases 48 - c
  {
    if c == 47 || d < DirectBase(c + 1) then c else DirectFrom(c + 1, d)
  }

  function DirectCode(d: nat): (k: nat)
    ensures k < 48
  {
    DirectFrom(0, d)
  }

  const MAX_INSERT: nat := 22594 + 0x100_0000
  const MAX_COPY: nat := 2118 + 0x100_0000
  const MAX_DISTANCE: nat := 67108860

  lemma CodesInRow(n: nat)
    ensures n < MAX_INSERT ==> InRow(INSERT_OFFSET, INSERT_EXTRA_BITS, InsertCode(n), n)
    ensures 2 <= n < MAX_COPY ==> InRow(COPY_OFFSET, COPY_EXTRA_BITS, CopyCode(n), n)
  {
    LengthTablesTile();
    SmallPow2();
    hide Tiles, InRow, Pow2, RowOf;
    if n < MAX_INSERT { RowOfHolds(INSERT_OFFSET, INSERT_EXTRA_BITS, 0, n); }
    if 2 <= n < MAX_COPY { RowOfHolds(COPY_OFFSET, COPY_EXTRA_BITS, 0, n); }
  }

  lemma {:induction false} DirectFromHolds(c: nat, d: nat)
    requires c < 48 && DirectBase(c) <= d < DirectBase(48)
    ensures var k := DirectFrom(c, d); DirectBase(k) <= d < DirectBase(k + 1)
    decreases 48 - c
  {
    hide DirectBase;
    if c < 47 && d >= DirectBase(c + 1) { DirectFromHolds(c + 1, d); }
  }

  lemma DirectInRange(d: nat)
    requires 1 <= d <= MAX_DISTANCE
    ensures var c := DirectCode(d); DirectBase(c) <= d < DirectBase(c) + Pow2(DirectBits(c)) && DirectBits(c) <= 24
  {
    assert DirectBase(0) == 1;
    assert DirectBase(48) == 2 * Pow2(25) - 3;
    SmallPow2();
    assert Pow2(25) == 2 * Pow2(24);
    hide DirectBase, Pow2;
    DirectFromHolds(0, d);
    NextBase(DirectCode(d));
  }

  /** What is left of a number after the start of its row. */
  function ExtraBits(offset: seq<nat>, bits: seq<nat>, k: nat, n: nat): (r: seq<bool>)
    requires k < |offset| == |bits|
    ensures |r| == bits[k]
  {
    BitsOf(if n >= offset[k] then n - offset[k] else 0, bits[k])
  }

  function InsertBits(n: nat): seq<bool> {
    ExtraBits(INSERT_OFFSET, INSERT_EXTRA_BITS, InsertCode(n), n)
  }

  function CopyBits(n: nat): seq<bool> {
    ExtraBits(COPY_OFFSET, COPY_EXTRA_BITS, CopyCode(n), n)
  }

  lemma LengthReads(buf: seq<byte>, pos: nat, offset: seq<nat>, bits: seq<nat>, k: nat, n: nat)
    requires |offset| == |bits| == 24 && InRow(offset, bits, k, n) && bits[k] <= 32
    requires BitsAt(buf, pos, ExtraBits(offset, bits, k, n))
    ensures LengthAt(buf, pos, k, offset, bits) == Ok((n, pos + bits[k]))
  {
    hide BitsOf, BitsAt, BitsValue;
    assert Pow2(0) == 1;
    if bits[k] > 0 {
      assert BitsOf(n - offset[k], bits[k]) + [] == BitsOf(n - offset[k], bits[k]);
      ReadNumber(buf, pos, n - offset[k], bits[k], []);
    }
  }

  lemma ExtraIsSmall(k: nat)
    requires k < 24
    ensures INSERT_EXTRA_BITS[k] <= 24 && COPY_EXTRA_BITS[k] <= 24
  {
  }

  lemma InsertReads(buf: seq<byte>, pos: nat, n: nat)
    requires n < MAX_INSERT && BitsAt(buf, pos, InsertBits(n))
    ensures InsertLengthAt(buf, pos, InsertCode(n)) == Ok((n, pos + |InsertBits(n)|))
  {
    hide BitsAt, ExtraBits, LengthAt, InsertCode, InRow;
    CodesInRow(n);
    ExtraIsSmall(InsertCode(n));
    LengthReads(buf, pos, INSERT_OFFSET, INSERT_EXTRA_BITS, InsertCode(n), n);
  }

  lemma CopyReads(buf: seq<byte>, pos: nat, n: nat)
    requires 2 <= n < MAX_COPY && BitsAt(buf, pos, CopyBits(n))
    ensures CopyLengthAt(buf, pos, CopyCode(n)) == Ok((n, pos + |CopyBits(n)|))
  {
    hide BitsAt, ExtraBits, LengthAt, CopyCode, InRow;
    CodesInRow(n);
    ExtraIsSmall(CopyCode(n));
    LengthReads(buf, pos, COPY_OFFSET, COPY_EXTRA_BITS, CopyCode(n), n);
  }

  // ---- literals -------------------------------------------------------------------------------------

  ghost predicate HasAll(es: seq<Entry>, lits: seq<byte>) {
    forall i | 0 <= i < |lits| :: Has(es, lits[i])
  }

  function LiteralBits(es: seq<Entry>, lits: seq<byte>): seq<bool>
    requires HasAll(es, lits)
  {
    if lits == [] then [] else SymbolBits(es, lits[0]) + LiteralBits(es, lits[1..])
  }

  lemma {:induction false} LiteralsRead(
      es: seq<Entry>, buf: seq<byte>, pos: nat, out: seq<byte>, lits: seq<byte>, target: nat)
    requires Usable(es) && HasAll(es, lits) && BitsAt(buf, pos, LiteralBits(es, lits))
    requires |out| + |lits| <= target
    ensures LiteralsFrom(es, buf, pos, out, |lits|, target) == Ok((out + lits, pos + |LiteralBits(es, lits)|))
    decreases |lits|
  {
    hide Usable, BitsAt, SymbolBits, SymbolAt;
    if lits == [] {
      assert out + lits == out;
    } else {
      BitsAtSplit(buf, pos, SymbolBits(es, lits[0]), LiteralBits(es, lits[1..]));
      SymbolReads(es, lits[0], buf, pos);
      var p := pos + |SymbolBits(es, lits[0])|;
      if |lits| == 1 {
        assert lits[1..] == [] && out + [lits[0]] == out + lits;
      } else {
        LiteralsRead(es, buf, p, out + [lits[0]], lits[1..], target);
        assert out + [lits[0]] + lits[1..] == out + lits;
      }
    }
  }

  // ---- distances --------------------------------------------------------------------------------------

  /** How a command names its distance: not at all, by a recent one, or outright. */
  datatype How = Implicit | Short(sym: nat) | Direct(distance: nat)

  /** The distance meant, and the recent distances after it. */
  function Meant(how: How, slots: Recent): Result<(nat, Recent), DistanceError> {
    match how
    case Implicit => Ok((slots[0], slots))
    case Short(sym) =>
      (match ShortDistance(sym, slots)
       case Ok((d, update)) => Ok((d, if update then Pushed(slots, d) else slots))
       case Err(e) => Err(e))
    case Direct(d) => Ok((d, Pushed(slots, d)))
  }

  ghost predicate Nameable(es: seq<Entry>, how: How) {
    match how
    case Implicit => true
    case Short(sym) => sym < 16 && Has(es, sym)
    case Direct(d) => 1 <= d <= MAX_DISTANCE && Has(es, 16 + DirectCode(d))
  }

  function DistanceBits(es: seq<Entry>, how: How): seq<bool>
    requires Nameable(es, how)
  {
    match how
    case Implicit => []
    case Short(sym) => SymbolBits(es, sym)
    case Direct(d) =>
      var c := DirectCode(d);
      DirectInRange(d);
      SymbolBits(es, 16 + c) + BitsOf(d - DirectBase(c), DirectBits(c))
  }

  /** A named distance is read back with the recent ones it leaves. */
  lemma DistanceReads(codes: Codes, buf: seq<byte>, st: State, how: How)
    requires Usable(codes.distance) && Nameable(codes.distance, how) && !how.Implicit?
    requires Meant(how, st.slots).Ok? && BitsAt(buf, st.pos, DistanceBits(codes.distance, how))
    ensures var (d, slots) := Meant(how, st.slots).value;
            ExplicitAt(codes, buf, st) == Ok(Decoded(d, slots, st.pos + |DistanceBits(codes.distance, how)|))
  {
    hide Usable, SymbolBits, BitsAt, BitsOf, SymbolAt, Has, DirectCode, BitsValue, DirectBase;
    var es := codes.distance;
    match how
    case Short(sym) => SymbolReads(es, sym, buf, st.pos);
    case Direct(d) =>
      DirectInRange(d);
      DirectReads(es, buf, st.pos, d);
  }

  /** The symbol of a direct distance and its extra bits. */
  lemma DirectReads(es: seq<Entry>, buf: seq<byte>, pos: nat, d: nat)
    requires Usable(es) && Nameable(es, Direct(d)) && BitsAt(buf, pos, DistanceBits(es, Direct(d)))
    requires var c := DirectCode(d); DirectBase(c) <= d < DirectBase(c) + Pow2(DirectBits(c)) && DirectBits(c) <= 24
    ensures var c := DirectCode(d);
            var p := pos + |SymbolBits(es, 16 + c)|;
            && SymbolAt(es, buf, pos) == Ok((16 + c, p))
            && Bits(buf, p, DirectBits(c)) == Ok((d - DirectBase(c), p + DirectBits(c)))
            && p + DirectBits(c) == pos + |DistanceBits(es, Direct(d))|
  {
    hide Usable, SymbolBits, BitsAt, BitsOf, SymbolAt, Has, DirectCode, Bits, DirectBase, Pow2;
    var c := DirectCode(d);
    var word, extra := SymbolBits(es, 16 + c), BitsOf(d - DirectBase(c), DirectBits(c));
    BitsAtSplit(buf, pos, word, extra);
    SymbolReads(es, 16 + c, buf, pos);
    assert extra + [] == extra;
    ReadNumber(buf, pos + |word|, d - DirectBase(c), DirectBits(c), []);
  }

  // ---- commands ---------------------------------------------------------------------------------------

  /** Literals, then a copy. */
  datatype Cmd = Cmd(literals: seq<byte>, length: nat, how: How)

  function Parts(c: Cmd): Components {
    Components(InsertCode(|c.literals|), CopyCode(c.length), c.how.Implicit?)
  }

  /** The codes have words for all parts of the command. */
  ghost predicate Spells(codes: Codes, c: Cmd) {
    && |c.literals| < MAX_INSERT && 2 <= c.length < MAX_COPY
    && Named(Parts(c)) && Has(codes.command, Compose(Parts(c)))
    && HasAll(codes.literal, c.literals) && Nameable(codes.distance, c.how)
  }

  /** The distance is there and within the window. */
  ghost predicate Reaches(c: Cmd, slots: Recent, window: nat) {
    Meant(c.how, slots).Ok? && 1 <= Meant(c.how, slots).value.0 <= window
  }

  function CommandBits(codes: Codes, c: Cmd): seq<bool>
    requires Spells(codes, c)
  {
    SymbolBits(codes.command, Compose(Parts(c)))
    + (InsertBits(|c.literals|)
       + (CopyBits(c.length)
          + (LiteralBits(codes.literal, c.literals)
             + DistanceBits(codes.distance, c.how))))
  }

  /** Output and recent distances after a command. */
  function Done(c: Cmd, out: seq<byte>, slots: Recent): (seq<byte>, Recent)
    requires Meant(c.how, slots).Ok? && Meant(c.how, slots).value.0 >= 1
  {
    var (d, next) := Meant(c.how, slots).value;
    (Copied(out + c.literals, d, c.length), next)
  }

  /** The copy of a printed command. */
  lemma CopyReadsBack(codes: Codes, buf: seq<byte>, st: State, c: Cmd, target: nat, window: nat)
    requires Usable(codes.distance) && Nameable(codes.distance, c.how) && Reaches(c, st.slots, window)
    requires BitsAt(buf, st.pos, DistanceBits(codes.distance, c.how))
    requires |st.out| + c.length <= target && c.length >= 1
    ensures var (d, slots) := Meant(c.how, st.slots).value;
            CopyFrom(codes, buf, st, c.how.Implicit?, c.length, target, window) ==
            Ok(State(Copied(st.out, d, c.length), slots, st.pos + |DistanceBits(codes.distance, c.how)|))
  {
    hide Usable, DistanceBits, BitsAt, ExplicitAt, Copied;
    if c.how.Implicit? {
      assert DistanceBits(codes.distance, c.how) == [] by { ImplicitIsSilent(codes.distance, c.how); }
    } else {
      DistanceReads(codes, buf, st, c.how);
    }
  }

  lemma ImplicitIsSilent(es: seq<Entry>, how: How)
    requires how.Implicit?
    ensures DistanceBits(es, how) == []
  {
  }

  /** Symbol, lengths and literals: all of a command before its copy. */
  lemma FrontReads(codes: Codes, buf: seq<byte>, pos: nat, parts: Components, n: nat, copy: nat,
                   copyBits: seq<bool>, out: seq<byte>, lits: seq<byte>, target: nat)
    requires UsableCodes(codes) && Named(parts) && Has(codes.command, Compose(parts)) && HasAll(codes.literal, lits)
    requires |lits| < MAX_INSERT && parts.insertCode == InsertCode(|lits|) && |out| + |lits| <= target
    requires BitsAt(buf, pos, SymbolBits(codes.command, Compose(parts))
                              + (InsertBits(|lits|) + (copyBits + LiteralBits(codes.literal, lits))))
    requires n == pos + |SymbolBits(codes.command, Compose(parts))| + |InsertBits(|lits|)|
    requires CopyLengthAt(buf, n, parts.copyCode) == Ok((copy, n + |copyBits|))
    ensures var p := n + |copyBits|;
            && Symbol(codes.command, buf, pos) == Ok((Compose(parts), n - |InsertBits(|lits|)|))
            && InsertLengthAt(buf, n - |InsertBits(|lits|)|, parts.insertCode) == Ok((|lits|, n))
            && LiteralsFrom(codes.literal, buf, p, out, |lits|, target)
               == Ok((out + lits, p + |LiteralBits(codes.literal, lits)|))
  {
    hide Usable, SymbolsBelow, BitsAt, SymbolBits, InsertBits, LiteralBits, SymbolAt, LiteralsFrom, Has, HasAll,
         InsertLengthAt, CopyLengthAt, InsertCode, Compose;
    var word, rest := SymbolBits(codes.command, Compose(parts)), LiteralBits(codes.literal, lits);
    BitsAtSplit(buf, pos, word, InsertBits(|lits|) + (copyBits + rest));
    SymbolReads(codes.command, Compose(parts), buf, pos);
    BitsAtSplit(buf, pos + |word|, InsertBits(|lits|), copyBits + rest);
    InsertReads(buf, pos + |word|, |lits|);
    BitsAtSplit(buf, n, copyBits, rest);
    LiteralsRead(codes.literal, buf, n + |copyBits|, out, lits, target);
  }

  /** A printed command is read back: its bytes, its distance, and exactly its bits. */
  lemma CommandReads(codes: Codes, buf: seq<byte>, st: State, c: Cmd, target: nat, window: nat)
    requires UsableCodes(codes) && Spells(codes, c) && Reaches(c, st.slots, window)
    requires BitsAt(buf, st.pos, CommandBits(codes, c)) && |st.out| + |c.literals| + c.length <= target
    ensures var (out, slots) := Done(c, st.out, st.slots);
            CommandFrom(codes, buf, st, target, window) == Ok(State(out, slots, st.pos + |CommandBits(codes, c)|))
  {
    hide *;
    SpelledParts(codes, c);
    var parts := Parts(c);
    var word, ins, cpy := SymbolBits(codes.command, Compose(parts)), InsertBits(|c.literals|), CopyBits(c.length);
    var lits, dist := LiteralBits(codes.literal, c.literals), DistanceBits(codes.distance, c.how);
    var n := st.pos + |word| + |ins|;
    FiveParts(buf, st.pos, word, ins, cpy, lits, dist);
    CopyReads(buf, n, c.length);
    FrontReads(codes, buf, st.pos, parts, n, c.length, cpy, st.out, c.literals, target);
    ComposeDecompose(parts);
    var mid := State(st.out + c.literals, st.slots, n + |cpy| + |lits|);
    DistanceUsable(codes);
    CopyReadsBack(codes, buf, mid, c, target, window);
    var out, slots := DoneParts(c, st.out, st.slots, window);
    CommandByParts(codes, buf, st, target, window, parts, |c.literals|, c.length,
                   [st.pos + |word|, n, n + |cpy|], mid, State(out, slots, mid.pos + |dist|));
  }

  lemma DoneParts(c: Cmd, out: seq<byte>, slots: Recent, window: nat) returns (r: seq<byte>, next: Recent)
    requires Reaches(c, slots, window)
    ensures Meant(c.how, slots).Ok? && Meant(c.how, slots).value.0 >= 1
    ensures Done(c, out, slots) == (r, next) && next == Meant(c.how, slots).value.1
    ensures r == Copied(out + c.literals, Meant(c.how, slots).value.0, c.length)
  {
    hide Copied, Meant;
    r, next := Done(c, out, slots).0, Done(c, out, slots).1;
  }

  lemma SpelledParts(codes: Codes, c: Cmd)
    requires Spells(codes, c)
    ensures Named(Parts(c)) && Has(codes.command, Compose(Parts(c)))
    ensures HasAll(codes.literal, c.literals) && Nameable(codes.distance, c.how)
    ensures |c.literals| < MAX_INSERT && 2 <= c.length < MAX_COPY
    ensures Parts(c).insertCode == InsertCode(|c.literals|) && Parts(c).copyCode == CopyCode(c.length)
    ensures Parts(c).distanceImplicit == c.how.Implicit?
    ensures CommandBits(codes, c)
         == SymbolBits(codes.command, Compose(Parts(c)))
            + (InsertBits(|c.literals|)
               + (CopyBits(c.length) + (LiteralBits(codes.literal, c.literals) + DistanceBits(codes.distance, c.how))))
  {
    hide SymbolBits, InsertBits, CopyBits, LiteralBits, DistanceBits, Named, Has, HasAll, Nameable;
  }

  /** The parts of a command, put together. */
  lemma CommandByParts(codes: Codes, buf: seq<byte>, st: State, target: nat, window: nat, parts: Components,
                       insert: nat, copy: nat, p: seq<nat>, mid: State, s: State)
    requires |p| == 3 && |st.out| < target && |mid.out| < target && mid.slots == st.slots
    requires Named(parts) && Decompose(Compose(parts)) == Ok(parts)
    requires Symbol(codes.command, buf, st.pos) == Ok((Compose(parts), p[0]))
    requires InsertLengthAt(buf, p[0], parts.insertCode) == Ok((insert, p[1]))
    requires CopyLengthAt(buf, p[1], parts.copyCode) == Ok((copy, p[2]))
    requires LiteralsFrom(codes.literal, buf, p[2], st.out, insert, target) == Ok((mid.out, mid.pos))
    requires CopyFrom(codes, buf, mid, parts.distanceImplicit, copy, target, window) == Ok(s)
    ensures CommandFrom(codes, buf, st, target, window) == Ok(s)
  {
    hide Symbol, LiteralsFrom, CopyFrom, InsertLengthAt, CopyLengthAt, Compose, Decompose, Named;
    assert mid == State(mid.out, st.slots, mid.pos);
  }

  lemma DistanceUsable(codes: Codes)
    requires UsableCodes(codes)
    ensures Usable(codes.distance)
  {
    hide Usable, SymbolsBelow;
  }

  /** Five bit strings in a row: the first four together, the third and the last by themselves. */
  lemma FiveParts(buf: seq<byte>, pos: nat, a: seq<bool>, b: seq<bool>, c: seq<bool>, d: seq<bool>, e: seq<bool>)
    requires BitsAt(buf, pos, a + (b + (c + (d + e))))
    ensures BitsAt(buf, pos, a + (b + (c + d))) && BitsAt(buf, pos + |a| + |b|, c)
    ensures BitsAt(buf, pos + |a| + |b| + |c| + |d|, e)
    ensures |a + (b + (c + (d + e)))| == |a| + |b| + |c| + |d| + |e|
  {
    hide BitsAt;
    assert a + (b + (c + (d + e))) == a + (b + (c + d)) + e;
    BitsAtSplit(buf, pos, a + (b + (c + d)), e);
    BitsAtSplit(buf, pos, a, b + (c + d));
    BitsAtSplit(buf, pos + |a|, b, c + d);
    BitsAtSplit(buf, pos + |a| + |b|, c, d);
  }

  // ---- a last command of literals only ------------------------------------------------------------

  function TailParts(lits: seq<byte>): Components {
    Components(InsertCode(|lits|), 0, false)
  }

  ghost predicate SpellsTail(codes: Codes, lits: seq<byte>) {
    lits != [] ==>
      && |lits| < MAX_INSERT && HasAll(codes.literal, lits)
      && Has(codes.command, Compose(TailParts(lits)))
  }

  function TailBits(codes: Codes, lits: seq<byte>): seq<bool>
    requires SpellsTail(codes, lits)
  {
    if lits == [] then []
    else
      SymbolBits(codes.command, Compose(TailParts(lits)))
      + (InsertBits(|lits|) + ([] + LiteralBits(codes.literal, lits)))
  }

  lemma ShortestCopy(buf: seq<byte>, pos: nat)
    ensures CopyLengthAt(buf, pos, 0) == Ok((2, pos))
  {
  }

  lemma TailReads(codes: Codes, buf: seq<byte>, st: State, lits: seq<byte>, window: nat)
    requires UsableCodes(codes) && SpellsTail(codes, lits) && lits != [] && BitsAt(buf, st.pos, TailBits(codes, lits))
    ensures CommandFrom(codes, buf, st, |st.out| + |lits|, window)
         == Ok(State(st.out + lits, st.slots, st.pos + |TailBits(codes, lits)|))
  {
    hide UsableCodes, BitsAt, SymbolBits, InsertBits, LiteralBits, Symbol, LiteralsFrom, CopyFrom, Has, HasAll,
         InsertLengthAt, CopyLengthAt, InsertCode, Compose, Decompose;
    var parts := TailParts(lits);
    var n := st.pos + |SymbolBits(codes.command, Compose(parts))| + |InsertBits(|lits|)|;
    ShortestCopy(buf, n);
    FrontReads(codes, buf, st.pos, parts, n, 2, [], st.out, lits, |st.out| + |lits|);
    ComposeDecompose(parts);
  }

  // ---- the commands of a metablock ---------------------------------------------------------------------

  ghost predicate SpellsAll(codes: Codes, cmds: seq<Cmd>) {
    forall i | 0 <= i < |cmds| :: Spells(codes, cmds[i])
  }

  /** Every distance is there, one command after the other. */
  ghost predicate ReachesAll(cmds: seq<Cmd>, slots: Recent, window: nat) {
    cmds != [] ==>
      Reaches(cmds[0], slots, window) && ReachesAll(cmds[1..], Meant(cmds[0].how, slots).value.1, window)
  }

  /** Output and recent distances after the commands. */
  function Run(cmds: seq<Cmd>, out: seq<byte>, slots: Recent, window: nat): (seq<byte>, Recent)
    requires ReachesAll(cmds, slots, window)
  {
    if cmds == [] then (out, slots)
    else
      var (next, recent) := Done(cmds[0], out, slots);
      Run(cmds[1..], next, recent, window)
  }

  function Size(cmds: seq<Cmd>, tail: seq<byte>): nat {
    if cmds == [] then |tail| else |cmds[0].literals| + cmds[0].length + Size(cmds[1..], tail)
  }

  function BodyBits(codes: Codes, cmds: seq<Cmd>, tail: seq<byte>): seq<bool>
    requires SpellsAll(codes, cmds) && SpellsTail(codes, tail)
  {
    if cmds == [] then TailBits(codes, tail) else CommandBits(codes, cmds[0]) + BodyBits(codes, cmds[1..], tail)
  }

  /** One command, and the rest of the metablock. */
  lemma BodyStep(codes: Codes, buf: seq<byte>, st: State, s: State, target: nat, window: nat)
    requires st.pos <= BitLen(buf) && |st.out| < target && CommandFrom(codes, buf, st, target, window) == Ok(s)
    ensures s.pos <= BitLen(buf)
    ensures BodyFrom(codes, buf, st, target, window) == BodyFrom(codes, buf, s, target, window)
  {
    hide CommandFrom;
    CommandAdvances(codes, buf, st, target, window);
  }

  lemma BodyStops(codes: Codes, buf: seq<byte>, st: State, window: nat)
    requires st.pos <= BitLen(buf)
    ensures BodyFrom(codes, buf, st, |st.out|, window) == Ok(st)
  {
    hide CommandFrom;
  }

  lemma TailEnds(codes: Codes, buf: seq<byte>, st: State, tail: seq<byte>, window: nat)
    requires UsableCodes(codes) && SpellsTail(codes, tail) && BitsAt(buf, st.pos, TailBits(codes, tail))
    ensures st.pos <= BitLen(buf)
    ensures BodyFrom(codes, buf, st, |st.out| + |tail|, window)
         == Ok(State(st.out + tail, st.slots, st.pos + |TailBits(codes, tail)|))
  {
    hide *;
    InStream(buf, st.pos, TailBits(codes, tail));
    if tail == [] {
      assert st.out + tail == st.out;
      NoTail(codes);
      BodyStops(codes, buf, st, window);
    } else {
      TailReads(codes, buf, st, tail, window);
      var s := State(st.out + tail, st.slots, st.pos + |TailBits(codes, tail)|);
      BodyStep(codes, buf, st, s, |s.out|, window);
      BodyStops(codes, buf, s, window);
    }
  }

  lemma NoTail(codes: Codes)
    ensures SpellsTail(codes, []) && TailBits(codes, []) == []
  {
  }

  lemma InStream(buf: seq<byte>, pos: nat, bits: seq<bool>)
    requires BitsAt(buf, pos, bits)
    ensures pos + |bits| <= BitLen(buf)
  {
  }

  /** Printed commands are read back: the decoder gives the bytes they stand for. */
  lemma {:induction false} BodyReads(
      codes: Codes, buf: seq<byte>, st: State, cmds: seq<Cmd>, tail: seq<byte>, window: nat)
    requires UsableCodes(codes) && SpellsAll(codes, cmds) && SpellsTail(codes, tail)
    requires ReachesAll(cmds, st.slots, window) && BitsAt(buf, st.pos, BodyBits(codes, cmds, tail))
    ensures st.pos <= BitLen(buf)
    ensures var (out, slots) := Run(cmds, st.out, st.slots, window);
            BodyFrom(codes, buf, st, |st.out| + Size(cmds, tail), window) ==
            Ok(State(out + tail, slots, st.pos + |BodyBits(codes, cmds, tail)|))
    decreases |cmds|
  {
    hide *;
    InStream(buf, st.pos, BodyBits(codes, cmds, tail));
    if cmds == [] {
      NoCommands(codes, tail, st.out, st.slots, window);
      TailEnds(codes, buf, st, tail, window);
    } else {
      var c, target := cmds[0], |st.out| + Size(cmds, tail);
      FirstCommand(codes, cmds, tail, st.out, st.slots, window);
      BitsAtSplit(buf, st.pos, CommandBits(codes, c), BodyBits(codes, cmds[1..], tail));
      CommandReads(codes, buf, st, c, target, window);
      var out, slots := DoneParts(c, st.out, st.slots, window);
      var next := State(out, slots, st.pos + |CommandBits(codes, c)|);
      BodyStep(codes, buf, st, next, target, window);
      BodyReads(codes, buf, next, cmds[1..], tail, window);
    }
  }

  lemma NoCommands(codes: Codes, tail: seq<byte>, out: seq<byte>, slots: Recent, window: nat)
    requires SpellsTail(codes, tail)
    ensures BodyBits(codes, [], tail) == TailBits(codes, tail) && Size([], tail) == |tail|
    ensures ReachesAll([], slots, window) && Run([], out, slots, window) == (out, slots)
  {
    hide SpellsTail, TailBits;
  }

  /** The first of several commands, and the others. */
  lemma FirstCommand(
      codes: Codes, cmds: seq<Cmd>, tail: seq<byte>, out: seq<byte>, slots: Recent, window: nat)
    requires SpellsAll(codes, cmds) && SpellsTail(codes, tail) && ReachesAll(cmds, slots, window) && cmds != []
    ensures var c, rest := cmds[0], cmds[1..];
            && Spells(codes, c) && SpellsAll(codes, rest) && c.length >= 2
            && Reaches(c, slots, window) && ReachesAll(rest, Meant(c.how, slots).value.1, window)
            && Size(cmds, tail) == |c.literals| + c.length + Size(rest, tail)
            && BodyBits(codes, cmds, tail) == CommandBits(codes, c) + BodyBits(codes, rest, tail)
            && var (next, recent) := Done(c, out, slots);
               Run(cmds, out, slots, window) == Run(rest, next, recent, window)
  {
    hide SpellsTail, TailBits, CommandBits, Meant, Copied;
    CommandIsLong(codes, cmds[0]);
    hide Spells;
  }

  lemma CommandIsLong(codes: Codes, c: Cmd)
    requires Spells(codes, c)
    ensures c.length >= 2
  {
    hide Named, Has, HasAll, Nameable;
  }
}
