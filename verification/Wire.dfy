/**
 Length-prefixed binary encodings: integers, byte strings, text and lists, each
 with a reader that moves a cursor.
 */
module Wire {
  import opened Bytes
  import opened Utf8

  /** What a reader gives: a value and the place after it, or nothing on a short or malformed read. */
  type Parsed<+T> = Option<(T, nat)>

  // ---- integers and byte strings -----------------------------------------------------------

  function SliceAt(b: seq<byte>, p: nat, n: nat): (r: Parsed<seq<byte>>)
    ensures r.Some? ==> r.value.1 == p + n
  {
    if p + n <= |b| then Some((b[p..p + n], p + n)) else None
  }

  function ByteAt(b: seq<byte>, p: nat): Parsed<byte> {
    if p < |b| then Some((b[p], p + 1)) else None
  }

  function U16At(b: seq<byte>, p: nat): Parsed<u16> {
    var (s, q) :- SliceAt(b, p, 2);
    Below16(s);
    Some((FromLE(s), q))
  }

  function U32At(b: seq<byte>, p: nat): Parsed<u32> {
    var (s, q) :- SliceAt(b, p, 4);
    Below32(s);
    Some((FromLE(s), q))
  }

  lemma Below16(s: seq<byte>)
    requires |s| == 2
    ensures FromLE(s) < 0x1_0000
  {
    assert Pow256(2) == 0x1_0000;
  }

  lemma Below32(s: seq<byte>)
    requires |s| == 4
    ensures FromLE(s) < 0x1_0000_0000
  {
    assert Pow256(4) == 0x1_0000_0000 by { assert Pow256(2) == 0x1_0000; }
  }

  /** The reader `dec` undoes the encoding `e` of `x` wherever it stands. */
  ghost predicate Inverts<T(!new)>(e: seq<byte>, dec: (seq<byte>, nat) -> Parsed<T>, x: T) {
    forall b: seq<byte>, p: nat :: At(b, p, e) ==> dec(b, p) == Some((x, p + |e|))
  }

  lemma ReadU16(b: seq<byte>, p: nat, v: nat)
    requires v < 0x1_0000 && At(b, p, ToLE(v, 2))
    ensures U16At(b, p) == Some((v, p + 2))
  {
    assert Pow256(2) == 0x1_0000;
    hide ToLE, FromLE, Pow256;
    FromToLE(v, 2);
  }

  lemma ReadU32(b: seq<byte>, p: nat, v: nat)
    requires v < 0x1_0000_0000 && At(b, p, ToLE(v, 4))
    ensures U32At(b, p) == Some((v, p + 4))
  {
    assert Pow256(4) == 0x1_0000_0000 by { assert Pow256(2) == 0x1_0000; }
    hide ToLE, FromLE, Pow256;
    FromToLE(v, 4);
  }

  lemma U16Law(v: u16)
    ensures Inverts(ToLE(v, 2), U16At, v)
  {
    hide ToLE, At, U16At;
    forall b: seq<byte>, p: nat | At(b, p, ToLE(v, 2))
      ensures U16At(b, p) == Some((v, p + 2))
    {
      ReadU16(b, p, v);
    }
  }

  lemma ReadByte(b: seq<byte>, p: nat, x: byte)
    requires At(b, p, [x])
    ensures ByteAt(b, p) == Some((x, p + 1))
  {
    AtByte(b, p, [x], 0);
  }

  lemma ReadSlice(b: seq<byte>, p: nat, s: seq<byte>)
    requires At(b, p, s)
    ensures SliceAt(b, p, |s|) == Some((s, p + |s|))
  {
  }

  // ---- text ------------------------------------------------------------------------------------

  function PutStr(s: string): seq<byte> {
    ToLE(|Encode(s)|, 2) + Encode(s)
  }

  function PutStr32(s: string): seq<byte> {
    ToLE(|Encode(s)|, 4) + Encode(s)
  }

  function StrAt(b: seq<byte>, p: nat): Parsed<string> {
    var (n, p) :- U16At(b, p);
    var (s, p) :- SliceAt(b, p, n);
    Some((FromUtf8Lossy(s), p))
  }

  function Str32At(b: seq<byte>, p: nat): Parsed<string> {
    var (n, p) :- U32At(b, p);
    var (s, p) :- SliceAt(b, p, n);
    Some((FromUtf8Lossy(s), p))
  }

  predicate Short(s: string) {
    |Encode(s)| < 0x1_0000
  }

  predicate Short32(s: string) {
    |Encode(s)| < 0x1_0000_0000
  }

  lemma ReadStr(b: seq<byte>, p: nat, s: string)
    requires Short(s) && At(b, p, PutStr(s))
    ensures StrAt(b, p) == Some((s, p + |PutStr(s)|))
  {
    hide ToLE, At, FromUtf8Lossy, Encode;
    var e := Encode(s);
    AtSplit(b, p, ToLE(|e|, 2), e);
    ReadU16(b, p, |e|);
    ReadSlice(b, p + 2, e);
    RoundTrip(s);
  }

  lemma ReadStr32(b: seq<byte>, p: nat, s: string)
    requires Short32(s) && At(b, p, PutStr32(s))
    ensures Str32At(b, p) == Some((s, p + |PutStr32(s)|))
  {
    hide ToLE, At, FromUtf8Lossy, Encode;
    var e := Encode(s);
    AtSplit(b, p, ToLE(|e|, 4), e);
    ReadU32(b, p, |e|);
    ReadSlice(b, p + 4, e);
    RoundTrip(s);
  }

  // ---- lists ---------------------------------------------------------------------------------------

  function All<T>(xs: seq<T>, enc: T -> seq<byte>): seq<byte> {
    if xs == [] then [] else enc(xs[0]) + All(xs[1..], enc)
  }

  function ListAt<T>(b: seq<byte>, p: nat, n: nat, dec: (seq<byte>, nat) -> Parsed<T>): Parsed<seq<T>>
    decreases n
  {
    if n == 0 then Some(([], p))
    else
      var (x, q) :- dec(b, p);
      var (xs, r) :- ListAt(b, q, n - 1, dec);
      Some(([x] + xs, r))
  }

  lemma {:induction false} ReadList<T(!new)>(
      b: seq<byte>, p: nat, xs: seq<T>, enc: T -> seq<byte>, dec: (seq<byte>, nat) -> Parsed<T>)
    requires forall i | 0 <= i < |xs| :: Inverts(enc(xs[i]), dec, xs[i])
    requires At(b, p, All(xs, enc))
    ensures ListAt(b, p, |xs|, dec) == Some((xs, p + |All(xs, enc)|))
    decreases |xs|
  {
    hide At;
    if xs != [] {
      AtSplit(b, p, enc(xs[0]), All(xs[1..], enc));
      assert Inverts(enc(xs[0]), dec, xs[0]);
      ReadList(b, p + |enc(xs[0])|, xs[1..], enc, dec);
      assert [xs[0]] + xs[1..] == xs;
    }
  }

  method PutAll<T>(xs: seq<T>, enc: T -> seq<byte>) returns (b: seq<byte>)
    ensures b == All(xs, enc)
  {
    b := [];
    for i := 0 to |xs|
      invariant All(xs, enc) == b + All(xs[i..], enc)
    {
      assert xs[i..][1..] == xs[i + 1..];
      b := b + enc(xs[i]);
    }
  }

  /** Elements read so far in front of those still to come. */
  function Following<T>(xs: seq<T>, rest: Parsed<seq<T>>): Parsed<seq<T>> {
    match rest
    case None => None
    case Some((ys, p)) => Some((xs + ys, p))
  }

  method TakeAll<T>(b: seq<byte>, p: nat, n: nat, dec: (seq<byte>, nat) -> Parsed<T>) returns (r: Parsed<seq<T>>)
    ensures r == ListAt(b, p, n, dec)
  {
    var xs: seq<T>, q: nat := [], p;
    FollowingNothing(ListAt(b, p, n, dec));
    for i := 0 to n
      invariant ListAt(b, p, n, dec) == Following(xs, ListAt(b, q, n - i, dec))
    {
      var x := dec(b, q);
      if x.None? { return None; }
      FollowingOne(xs, x.value.0, ListAt(b, x.value.1, n - i - 1, dec));
      xs := xs + [x.value.0];
      q := x.value.1;
    }
    assert xs + [] == xs;
    r := Some((xs, q));
  }

  lemma FollowingNothing<T>(rest: Parsed<seq<T>>)
    ensures Following([], rest) == rest
  {
    if rest.Some? { assert [] + rest.value.0 == rest.value.0; }
  }

  lemma FollowingOne<T>(xs: seq<T>, x: T, rest: Parsed<seq<T>>)
    ensures Following(xs, Following([x], rest)) == Following(xs + [x], rest)
  {
    if rest.Some? { assert xs + ([x] + rest.value.0) == xs + [x] + rest.value.0; }
  }

  // ---- counted lists -------------------------------------------------------------------------------

  function Counted<T>(xs: seq<T>, enc: T -> seq<byte>): seq<byte> {
    ToLE(|xs|, 2) + All(xs, enc)
  }

  function CountedAt<T>(b: seq<byte>, p: nat, dec: (seq<byte>, nat) -> Parsed<T>): Parsed<seq<T>> {
    var (n, p) :- U16At(b, p);
    ListAt(b, p, n, dec)
  }

  lemma ReadCounted<T(!new)>(b: seq<byte>, p: nat, xs: seq<T>, enc: T -> seq<byte>, dec: (seq<byte>, nat) -> Parsed<T>)
    requires |xs| < 0x1_0000 && forall i | 0 <= i < |xs| :: Inverts(enc(xs[i]), dec, xs[i])
    requires At(b, p, Counted(xs, enc))
    ensures CountedAt(b, p, dec) == Some((xs, p + |Counted(xs, enc)|))
  {
    hide ToLE, At, Inverts, ListAt, All;
    AtSplit(b, p, ToLE(|xs|, 2), All(xs, enc));
    ReadU16(b, p, |xs|);
    ReadList(b, p + 2, xs, enc, dec);
  }

  function Counted32<T>(xs: seq<T>, enc: T -> seq<byte>): seq<byte> {
    ToLE(|xs|, 4) + All(xs, enc)
  }

  function Counted32At<T>(b: seq<byte>, p: nat, dec: (seq<byte>, nat) -> Parsed<T>): Parsed<seq<T>> {
    var (n, p) :- U32At(b, p);
    ListAt(b, p, n, dec)
  }

  lemma ReadCounted32<T(!new)>(
      b: seq<byte>, p: nat, xs: seq<T>, enc: T -> seq<byte>, dec: (seq<byte>, nat) -> Parsed<T>)
    requires |xs| < 0x1_0000_0000 && forall i | 0 <= i < |xs| :: Inverts(enc(xs[i]), dec, xs[i])
    requires At(b, p, Counted32(xs, enc))
    ensures Counted32At(b, p, dec) == Some((xs, p + |Counted32(xs, enc)|))
  {
    hide ToLE, At, Inverts, ListAt, All;
    AtSplit(b, p, ToLE(|xs|, 4), All(xs, enc));
    ReadU32(b, p, |xs|);
    ReadList(b, p + 4, xs, enc, dec);
  }

  method PutCounted<T>(xs: seq<T>, enc: T -> seq<byte>) returns (b: seq<byte>)
    ensures b == Counted(xs, enc)
  {
    var body := PutAll(xs, enc);
    b := ToLE(|xs|, 2) + body;
  }

  method TakeCounted<T>(b: seq<byte>, p: nat, dec: (seq<byte>, nat) -> Parsed<T>) returns (r: Parsed<seq<T>>)
    ensures r == CountedAt(b, p, dec)
  {
    var n := U16At(b, p);
    if n.None? { return None; }
    r := TakeAll(b, n.value.1, n.value.0, dec);
  }

  // ---- optional parts, by a tag byte -------------------------------------------------------------------

  function PutOption(s: Option<string>): seq<byte> {
    match s
    case None => [0]
    case Some(x) => [1] + PutStr32(x)
  }

  function OptionAt(b: seq<byte>, p: nat): Parsed<Option<string>> {
    var (tag, p) :- ByteAt(b, p);
    if tag == 0 then Some((None, p))
    else if tag == 1 then
      var (s, p) :- Str32At(b, p);
      Some((Some(s), p))
    else None
  }

  predicate ShortOption(s: Option<string>) {
    s.Some? ==> Short32(s.value)
  }

  lemma ReadOption(b: seq<byte>, p: nat, s: Option<string>)
    requires ShortOption(s) && At(b, p, PutOption(s))
    ensures OptionAt(b, p) == Some((s, p + |PutOption(s)|))
  {
    hide At, PutStr32, Str32At;
    match s
    case None =>
      ReadByte(b, p, 0);
    case Some(x) =>
      AtSplit(b, p, [1], PutStr32(x));
      ReadByte(b, p, 1);
      ReadStr32(b, p + 1, x);
  }
}
