/**
 Reading prefix codes from a Brotli stream: how much of the code space lengths
 cover, and the simple form of section 3.4 of RFC 7932.
 */
module PrefixCodes {
  import opened Bytes
  import opened BitReading
  import opened Huffman

  function Raw(buf: seq<byte>, pos: nat, n: nat): Read<nat> {
    match ReadAt(buf, pos, n)
    case Ok(x) => Ok(x)
    case Err(e) => Err(BitReaderError(e))
  }

  method TakeBits(r: BitReader, n: nat) returns (v: Result<nat, HuffmanError>)
    modifies r
    ensures match Raw(r.buf, old(r.bitPos), n)
            case Ok((x, p)) => v == Ok(x) && r.bitPos == p
            case Err(e) => v == Err(e)
  {
    var b := r.ReadBits(n);
    match b
    case Ok(x) => v := Ok(x);
    case Err(e) => v := Err(BitReaderError(e));
  }

  lemma RawAdvances(buf: seq<byte>, pos: nat, n: nat)
    requires pos <= BitLen(buf) && Raw(buf, pos, n).Ok?
    ensures pos <= Raw(buf, pos, n).value.1 <= BitLen(buf)
    ensures Raw(buf, pos, n).value.0 < Pow2(n)
  {
  }

  // ---- how much of the code space a list of lengths covers --------------------------------------

  /** The words of length `m` covered by the pairs that are present. */
  function Kraft(ps: seq<Pair>, m: nat): nat
    requires forall i | 0 <= i < |ps| :: ps[i].len <= m
  {
    if ps == [] then 0 else (if ps[0].len > 0 then Pow2(m - ps[0].len) else 0) + Kraft(ps[1..], m)
  }

  ghost predicate Within(ps: seq<Pair>, m: nat) {
    forall i | 0 <= i < |ps| :: ps[i].len <= m
  }

  lemma {:induction false} KraftPresent(ps: seq<Pair>, m: nat)
    requires Within(ps, m)
    ensures Within(Present(ps), m) && Kraft(Present(ps), m) == Kraft(ps, m)
  {
    if ps != [] {
      KraftPresent(ps[1..], m);
      var rest := Present(ps[1..]);
      if ps[0].len > 0 {
        assert Present(ps) == [ps[0]] + rest;
        assert Present(ps)[1..] == rest;
      } else {
        assert Present(ps) == [] + rest == rest;
      }
    }
  }

  lemma {:induction false} KraftInserted(p: Pair, ps: seq<Pair>, m: nat)
    requires Within([p] + ps, m)
    ensures Within(Inserted(p, ps), m) && Kraft(Inserted(p, ps), m) == Kraft([p] + ps, m)
  {
    assert p == ([p] + ps)[0];
    assert ([p] + ps)[1..] == ps;
    assert forall i | 0 <= i < |ps| :: ps[i] == ([p] + ps)[i + 1];
    if ps != [] && !Before(p, ps[0]) {
      var tail := ps[1..];
      assert forall i | 0 <= i < |tail| :: tail[i] == ps[i + 1];
      assert Within([p] + tail, m);
      KraftInserted(p, tail, m);
      assert ([p] + tail)[1..] == tail;
      var r := Inserted(p, tail);
      assert ([ps[0]] + r)[1..] == r;
    }
  }

  lemma {:induction false} KraftSorted(ps: seq<Pair>, m: nat)
    requires Within(ps, m)
    ensures Within(Sorted(ps), m) && Kraft(Sorted(ps), m) == Kraft(ps, m)
  {
    if ps != [] {
      KraftSorted(ps[1..], m);
      var s := Sorted(ps[1..]);
      assert ([ps[0]] + s)[1..] == s;
      KraftInserted(ps[0], s, m);
    }
  }

  /** For pairs that are all present this is the weight of their lengths. */
  lemma {:induction false} KraftIsWeight(ps: seq<Pair>, n: nat, m: nat)
    requires Within(ps, m) && n <= |ps| && forall i | 0 <= i < |ps| :: ps[i].len > 0
    ensures Kraft(ps[..n], m) == Weight(PairLens(ps), n, m)
    decreases n
  {
    if n > 0 {
      KraftIsWeight(ps, n - 1, m);
      assert ps[..n] == ps[..n - 1] + [ps[n - 1]];
      KraftAppend(ps[..n - 1], ps[n - 1], m);
    }
  }

  lemma {:induction false} KraftAppend(ps: seq<Pair>, p: Pair, m: nat)
    requires Within(ps, m) && p.len <= m
    ensures Within(ps + [p], m)
    ensures Kraft(ps + [p], m) == Kraft(ps, m) + if p.len > 0 then Pow2(m - p.len) else 0
  {
    if ps == [] {
      assert ps + [p] == [p];
    } else {
      KraftAppend(ps[1..], p, m);
      assert (ps + [p])[1..] == ps[1..] + [p];
    }
  }

  /** Lengths that cover the code space once give a full code. */
  lemma CompleteIsFull(ps: seq<Pair>, m: nat)
    requires Within(ps, m) && Kraft(ps, m) == Pow2(m)
    ensures FromLengths(ps).Ok? && Full(FromLengths(ps).value)
  {
    hide Kraft, Weight, Sorted, Present, Pow2, InOrder, Canonical;
    var es := Sorted(Present(ps));
    KraftPresent(ps, m);
    KraftSorted(Present(ps), m);
    SortedInOrder(Present(ps));
    PresentStays(ps);
    NotEmpty(es, m);
    AssignedIsCanonical(es);
    KraftIsWeight(es, |es|, m);
    assert es[..|es|] == es;
    var lens, last := PairLens(es), es[|es| - 1].len;
    assert forall k | 0 <= k < |lens| :: lens[k] <= lens[|es| - 1];
    WeightScale(lens, |es|, last, m);
    Pow2Add(last, m - last);
    Cancel(Weight(lens, |es|, last), Pow2(last), Pow2(m - last));
    assert Assigned(es) != [] && Assigned(es)[|es| - 1].len == last;
  }

  lemma NotEmpty(es: seq<Pair>, m: nat)
    requires Within(es, m) && Kraft(es, m) == Pow2(m)
    ensures es != []
  {
  }

  lemma Cancel(a: int, b: int, h: int)
    requires h > 0 && a * h == b * h
    ensures a == b
  {
    if a < b { MulOrder(a + 1, b, h); }
    if b < a { MulOrder(b + 1, a, h); }
  }

  /** The symbols of a code come from the pairs it was built from. */
  ghost predicate SymbolsBelow(es: seq<Entry>, n: nat) {
    forall i | 0 <= i < |es| :: es[i].sym < n
  }

  lemma BuiltSymbols(ps: seq<Pair>, n: nat)
    requires FromLengths(ps).Ok? && forall i | 0 <= i < |ps| :: ps[i].sym < n
    ensures SymbolsBelow(FromLengths(ps).value, n)
  {
    var es := Sorted(Present(ps));
    SortedInOrder(Present(ps));
    AbsentBelow(ps, n);
    forall i | 0 <= i < |es|
      ensures es[i].sym < n
    {
      assert es[i] in multiset(es);
      assert es[i] in multiset(Present(ps));
      assert es[i] in Present(ps);
    }
  }

  lemma {:induction false} AbsentBelow(ps: seq<Pair>, n: nat)
    requires forall i | 0 <= i < |ps| :: ps[i].sym < n
    ensures forall i | 0 <= i < |Absent(ps)| :: Absent(ps)[i] < n
  {
    if ps != [] { AbsentBelow(ps[1..], n); }
  }

  /** A code that decodes any bits: one symbol without bits, or a full code. */
  ghost predicate Usable(es: seq<Entry>) {
    (|es| == 1 && es[0].len == 0) || Full(es)
  }

  // ---- simple codes ------------------------------------------------------------------------------

  function SymbolsAt(buf: seq<byte>, pos: nat, bits: nat, size: nat, n: nat, syms: seq<nat>): Read<seq<nat>>
    decreases n
  {
    if n == 0 then Ok((syms, pos))
    else
      var (s, p) :- Raw(buf, pos, bits);
      if s >= size then Err(SymbolOutOfRange(s, size))
      else if s in syms then Err(DuplicateSymbol(s))
      else SymbolsAt(buf, p, bits, size, n - 1, syms + [s])
  }

  /** The fixed length tables, one per symbol count. */
  function SimpleLengths(buf: seq<byte>, pos: nat, nsym: nat): (r: Read<seq<nat>>)
    requires 1 <= nsym <= 4
    ensures r.Ok? ==> |r.value.0| == nsym
  {
    if nsym == 1 then Ok(([0], pos))
    else if nsym == 2 then Ok(([1, 1], pos))
    else if nsym == 3 then Ok(([1, 2, 2], pos))
    else
      var (select, p) :- Raw(buf, pos, 1);
      Ok((if select == 0 then [2, 2, 2, 2] else [1, 2, 3, 3], p))
  }

  function Zip(syms: seq<nat>, lens: seq<nat>): (ps: seq<Pair>)
    requires |syms| == |lens|
    ensures |ps| == |syms|
  {
    seq(|syms|, i requires 0 <= i < |syms| => Pair(syms[i], lens[i]))
  }

  lemma {:induction false} SymbolsRead(buf: seq<byte>, pos: nat, bits: nat, size: nat, n: nat, syms: seq<nat>)
    requires pos <= BitLen(buf) && SymbolsAt(buf, pos, bits, size, n, syms).Ok?
    requires forall i | 0 <= i < |syms| :: syms[i] < size
    ensures var (r, p) := SymbolsAt(buf, pos, bits, size, n, syms).value;
            |r| == |syms| + n && pos <= p <= BitLen(buf) && forall i | 0 <= i < |r| :: r[i] < size
    decreases n
  {
    if n > 0 {
      RawAdvances(buf, pos, bits);
      var (s, p) := Raw(buf, pos, bits).value;
      SymbolsRead(buf, p, bits, size, n - 1, syms + [s]);
    }
  }

  function SimpleAt(buf: seq<byte>, pos: nat, bits: nat, size: nat): Read<seq<Entry>>
    requires pos <= BitLen(buf)
  {
    var (n1, p) :- Raw(buf, pos, 2);
    RawAdvances(buf, pos, 2);
    assert Pow2(2) == 4;
    var (syms, p) :- SymbolsAt(buf, p, bits, size, n1 + 1, []);
    SymbolsRead(buf, Raw(buf, pos, 2).value.1, bits, size, n1 + 1, []);
    var (lens, p) :- SimpleLengths(buf, p, n1 + 1);
    match FromLengths(Zip(syms, lens))
    case Ok(es) => Ok((es, p))
    case Err(e) => Err(e)
  }

  lemma SimpleKraft(syms: seq<nat>, lens: seq<nat>)
    requires |syms| == |lens| >= 2 && Table(lens)
    ensures Within(Zip(syms, lens), 3) && Kraft(Zip(syms, lens), 3) == Pow2(3)
  {
    var ps := Zip(syms, lens);
    assert Pow2(1) == 2 && Pow2(2) == 4 && Pow2(3) == 8;
    var p0, p1 := ps[0], ps[1];
    assert ps[1..][1..] == ps[2..];
    if |ps| >= 3 { assert ps[2..][1..] == ps[3..] && ps[2..][0] == ps[2]; }
    if |ps| >= 4 { assert ps[3..][1..] == ps[4..] && ps[3..][0] == ps[3] && ps[4..] == []; }
    if |ps| == 2 { assert ps[2..] == []; }
    if |ps| == 3 { assert ps[3..] == []; }
    assert Kraft(ps[1..], 3) == Pow2(3 - p1.len) + Kraft(ps[2..], 3);
    if |ps| >= 3 { assert Kraft(ps[2..], 3) == Pow2(3 - ps[2].len) + Kraft(ps[3..], 3); }
    if |ps| >= 4 { assert Kraft(ps[3..], 3) == Pow2(3 - ps[3].len) + Kraft(ps[4..], 3); }
  }

  /** Every simple code decodes any bits. */
  lemma SimpleIsUsable(buf: seq<byte>, pos: nat, bits: nat, size: nat)
    requires pos <= BitLen(buf) && SimpleAt(buf, pos, bits, size).Ok?
    ensures var (es, p) := SimpleAt(buf, pos, bits, size).value;
            Usable(es) && SymbolsBelow(es, size) && pos <= p <= BitLen(buf)
  {
    hide FromLengths, SymbolsAt, SimpleLengths, Usable, SymbolsBelow, Zip, Raw;
    PowFour();
    RawAdvances(buf, pos, 2);
    var (n1, p1) := Raw(buf, pos, 2).value;
    var (syms, p2) := SymbolsAt(buf, p1, bits, size, n1 + 1, []).value;
    SymbolsRead(buf, p1, bits, size, n1 + 1, []);
    var (lens, p3) := SimpleLengths(buf, p2, n1 + 1).value;
    LengthsRead(buf, p2, n1 + 1);
    TableIsUsable(syms, lens, size);
  }

  ghost predicate Table(lens: seq<nat>) {
    lens == [0] || lens == [1, 1] || lens == [1, 2, 2] || lens == [2, 2, 2, 2] || lens == [1, 2, 3, 3]
  }

  lemma LengthsRead(buf: seq<byte>, pos: nat, nsym: nat)
    requires 1 <= nsym <= 4 && pos <= BitLen(buf) && SimpleLengths(buf, pos, nsym).Ok?
    ensures Table(SimpleLengths(buf, pos, nsym).value.0)
    ensures pos <= SimpleLengths(buf, pos, nsym).value.1 <= BitLen(buf)
  {
    if nsym == 4 { RawAdvances(buf, pos, 1); }
  }

  lemma TableIsUsable(syms: seq<nat>, lens: seq<nat>, size: nat)
    requires |syms| == |lens| && Table(lens) && forall i | 0 <= i < |syms| :: syms[i] < size
    requires FromLengths(Zip(syms, lens)).Ok?
    ensures Usable(FromLengths(Zip(syms, lens)).value) && SymbolsBelow(FromLengths(Zip(syms, lens)).value, size)
  {
    hide FromLengths, Kraft, Full;
    BuiltSymbols(Zip(syms, lens), size);
    if lens == [0] {
      OneSymbol(syms[0]);
      assert Zip(syms, lens) == [Pair(syms[0], 0)];
    } else {
      SimpleKraft(syms, lens);
      CompleteIsFull(Zip(syms, lens), 3);
    }
  }

  lemma PowFour()
    ensures Pow2(2) == 4
  {
  }

  lemma OneSymbol(s: nat)
    ensures FromLengths([Pair(s, 0)]) == Ok([Entry(s, 0, 0)])
  {
    var ps := [Pair(s, 0)];
    assert ps[1..] == [];
    assert Present(ps[1..]) == [] && Absent(ps[1..]) == [];
    assert Present(ps) == [] && Absent(ps) == [s] + Absent(ps[1..]);
  }

  method ReadSimple(r: BitReader, bits: nat, size: nat) returns (res: Result<seq<Entry>, HuffmanError>)
    requires r.bitPos <= BitLen(r.buf)
    modifies r
    ensures match SimpleAt(r.buf, old(r.bitPos), bits, size)
            case Ok((x, p)) => res == Ok(x) && r.bitPos == p
            case Err(e) => res == Err(e)
  {
    hide ReadAt, FromLengths;
    var n1 := TakeBits(r, 2);
    if n1.Err? { return Err(n1.error); }
    RawAdvances(r.buf, old(r.bitPos), 2);
    assert Pow2(2) == 4;
    var nsym := n1.value + 1;
    var syms: seq<nat> := [];
    ghost var start := r.bitPos;
    for i := 0 to nsym
      invariant |syms| == i
      invariant SymbolsAt(r.buf, r.bitPos, bits, size, nsym - i, syms) == SymbolsAt(r.buf, start, bits, size, nsym, [])
    {
      var s := TakeBits(r, bits);
      if s.Err? { return Err(s.error); }
      if s.value >= size { return Err(SymbolOutOfRange(s.value, size)); }
      if s.value in syms { return Err(DuplicateSymbol(s.value)); }
      syms := syms + [s.value];
    }
    var lens: seq<nat>;
    if nsym == 1 {
      lens := [0];
    } else if nsym == 2 {
      lens := [1, 1];
    } else if nsym == 3 {
      lens := [1, 2, 2];
    } else {
      var select := TakeBits(r, 1);
      if select.Err? { return Err(select.error); }
      lens := if select.value == 0 then [2, 2, 2, 2] else [1, 2, 3, 3];
    }
    res := FromSymbolLengths(Zip(syms, lens));
  }
}
