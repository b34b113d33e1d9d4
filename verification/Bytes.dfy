/**
 Bytes, machine integers and their little-endian encodings.

 A byte is an integer below 256; bit operations of the original on single
 bytes are written with division and remainder by powers of two.
 */
module Bytes {

  type byte = x: int | 0 <= x < 256
  type u16 = x: int | 0 <= x < 0x1_0000
  type u32 = x: int | 0 <= x < 0x1_0000_0000

  const TWO127: int := 0x8000_0000_0000_0000_0000_0000_0000_0000
  const TWO128: int := 0x1_0000_0000_0000_0000_0000_0000_0000_0000

  type u128 = x: int | 0 <= x < TWO128
  type i128 = x: int | -TWO127 <= x < TWO127

  datatype Option<+T> = None | Some(value: T) {
    predicate IsFailure() {
      None?
    }
    function PropagateFailure<U>(): Option<U>
      requires None?
    {
      None
    }
    function Extract(): T
      requires Some?
    {
      value
    }
  }

  datatype Result<+T, +E> = Ok(value: T) | Err(error: E) {
    predicate IsFailure() {
      Err?
    }
    function PropagateFailure<U>(): Result<U, E>
      requires Err?
    {
      Err(error)
    }
    function Extract(): T
      requires Ok?
    {
      value
    }
  }

  // ---- little-endian integers ------------------------------------------

  function Pow256(n: nat): (p: nat)
    ensures p > 0
  {
    if n == 0 then 1 else 256 * Pow256(n - 1)
  }

  /** The low `w` bytes of `v`, least significant first. */
  function ToLE(v: nat, w: nat): (s: seq<byte>)
    ensures |s| == w
    decreases w
  {
    if w == 0 then [] else [v % 256] + ToLE(v / 256, w - 1)
  }

  function FromLE(s: seq<byte>): (v: nat)
    ensures v < Pow256(|s|)
  {
    if s == [] then 0 else s[0] + 256 * FromLE(s[1..])
  }

  lemma {:induction false} FromToLE(v: nat, w: nat)
    ensures FromLE(ToLE(v, w)) == v % Pow256(w)
  {
    if w > 0 {
      var s := ToLE(v, w);
      var p := Pow256(w - 1);
      FromToLE(v / 256, w - 1);
      assert s[1..] == ToLE(v / 256, w - 1);
      ModSplit(v, p);
    }
  }

  lemma ModSplit(v: nat, p: nat)
    requires p > 0
    ensures v % (256 * p) == v % 256 + 256 * ((v / 256) % p)
  {
    var q, r := v / 256, v % 256;
    var k := q / p;
    assert v == 256 * (p * k + q % p) + r;
    assert v == (256 * p) * k + (256 * (q % p) + r);
    assert 256 * (q % p) + r < 256 * p;
    ModUnique(v, 256 * p, k, 256 * (q % p) + r);
  }

  lemma ModUnique(v: int, d: int, k: int, r: int)
    requires 0 <= r < d && v == d * k + r
    ensures v % d == r && v / d == k
  {
    var k', r' := v / d, v % d;
    assert v == d * k' + r' && 0 <= r' < d;
    QuotientAtMost(d, k, r, k', r');
    QuotientAtMost(d, k', r', k, r);
  }

  lemma QuotientAtMost(d: int, k: int, r: int, k': int, r': int)
    requires 0 <= r < d && 0 <= r' < d && d * k + r == d * k' + r'
    ensures k <= k'
  {
    if k > k' {
      assert d * (k - k') == d * k - d * k';
      MulAtLeast(d, k - k');
    }
  }

  lemma MulAtLeast(d: int, e: int)
    requires d > 0 && e >= 1
    ensures d * e >= d
  {
  }

  lemma MulAssoc(x: int, y: int, z: int)
    ensures x * y * z == x * (y * z)
  {
  }

  lemma SmallLE(v: nat, w: nat)
    requires v < Pow256(w)
    ensures FromLE(ToLE(v, w)) == v
  {
    FromToLE(v, w);
    ModUnique(v, Pow256(w), 0, v);
  }

  lemma {:induction false} FromLEConcat(a: seq<byte>, b: seq<byte>)
    ensures FromLE(a + b) == FromLE(a) + Pow256(|a|) * FromLE(b)
  {
    if a == [] {
      assert a + b == b;
    } else {
      FromLEConcat(a[1..], b);
      assert (a + b)[1..] == a[1..] + b;
      MulAssoc(256, Pow256(|a| - 1), FromLE(b));
    }
  }

  lemma {:induction false} FromLEZeros(n: nat)
    ensures FromLE(Repeat(0, n)) == 0
  {
    if n > 0 {
      FromLEZeros(n - 1);
      assert Repeat(0 as byte, n)[1..] == Repeat(0, n - 1);
    }
  }

  lemma {:induction false} FromLEOnes(n: nat)
    ensures FromLE(Repeat(255, n)) == Pow256(n) - 1
  {
    if n > 0 {
      FromLEOnes(n - 1);
      assert Repeat(255 as byte, n)[1..] == Repeat(255, n - 1);
    }
  }

  lemma {:induction false} Pow256Add(a: nat, b: nat)
    ensures Pow256(a + b) == Pow256(a) * Pow256(b)
  {
    if a > 0 {
      Pow256Add(a - 1, b);
      assert Pow256(a + b) == 256 * Pow256(a - 1 + b);
      MulAssoc(256, Pow256(a - 1), Pow256(b));
    }
  }

  lemma Pow256Small()
    ensures Pow256(1) == 0x100 && Pow256(2) == 0x1_0000
    ensures Pow256(4) == 0x1_0000_0000
    ensures Pow256(8) == 0x1_0000_0000_0000_0000
    ensures Pow256(16) == TWO128
  {
    Pow256Add(4, 4);
    Pow256Add(8, 8);
  }

  function Repeat(x: byte, n: nat): (s: seq<byte>)
    ensures |s| == n && forall i :: 0 <= i < n ==> s[i] == x
  {
    seq(n, _ => x)
  }

  // ---- two's complement on 128 bits -------------------------------------

  function ToSigned(u: u128): i128 {
    if u >= TWO127 then u - TWO128 else u
  }

  function ToUnsigned(i: i128): u128 {
    if i < 0 then i + TWO128 else i
  }

  /** The value of any integer after 128-bit wrap-around. */
  function Wrap(i: int): i128 {
    ToSigned(i % TWO128)
  }

  // ---- single bits of a byte --------------------------------------------

  function Pow2(n: nat): (p: nat)
    ensures p > 0
  {
    if n == 0 then 1 else 2 * Pow2(n - 1)
  }

  lemma {:induction false} Pow2Monotone(a: nat, b: nat)
    requires a <= b
    ensures Pow2(a) <= Pow2(b)
    decreases b
  {
    if a < b { Pow2Monotone(a, b - 1); }
  }

  /** `b & (1 << k) != 0` */
  predicate BitOf(b: nat, k: nat)
    decreases k
  {
    if k == 0 then b % 2 == 1 else BitOf(b / 2, k - 1)
  }

  /** `b | (1 << k)` when `on`, `b & !(1 << k)` otherwise */
  function PutBit(b: nat, k: nat, on: bool): (r: nat)
    decreases k
  {
    if k == 0 then b / 2 * 2 + (if on then 1 else 0) else b % 2 + 2 * PutBit(b / 2, k - 1, on)
  }

  lemma {:induction false} PutBitBits(b: nat, k: nat, on: bool, j: nat)
    ensures BitOf(PutBit(b, k, on), j) == if j == k then on else BitOf(b, j)
    decreases k
  {
    if k > 0 && j > 0 {
      PutBitBits(b / 2, k - 1, on, j - 1);
      assert PutBit(b, k, on) / 2 == PutBit(b / 2, k - 1, on);
    }
  }

  lemma {:induction false} PutBitBound(b: nat, k: nat, on: bool, n: nat)
    requires b < Pow2(n) && k < n
    ensures PutBit(b, k, on) < Pow2(n)
    decreases k
  {
    if k > 0 {
      PutBitBound(b / 2, k - 1, on, n - 1);
    }
  }

  function SetBit(b: byte, k: nat): byte
    requires k < 8
  {
    PutBitBound(b, k, true, 8);
    PutBit(b, k, true)
  }

  function ClearBit(b: byte, k: nat): byte
    requires k < 8
  {
    PutBitBound(b, k, false, 8);
    PutBit(b, k, false)
  }

  lemma {:induction false} ZeroBits(k: nat)
    ensures !BitOf(0, k)
  {
    if k > 0 { ZeroBits(k - 1); }
  }

  /** A number below 2^n is determined by its low n bits. */
  lemma {:induction false} SameBits(a: nat, b: nat, n: nat)
    requires a < Pow2(n) && b < Pow2(n)
    requires forall k | 0 <= k < n :: BitOf(a, k) == BitOf(b, k)
    ensures a == b
  {
    if n > 0 {
      assert BitOf(a, 0) == BitOf(b, 0);
      forall k | 0 <= k < n - 1
        ensures BitOf(a / 2, k) == BitOf(b / 2, k)
      {
        assert BitOf(a, k + 1) == BitOf(b, k + 1);
      }
      SameBits(a / 2, b / 2, n - 1);
    }
  }

  // ---- bytes at a place --------------------------------------------------

  /** The bytes `e` stand at place `i`. */
  ghost predicate At(b: seq<byte>, i: nat, e: seq<byte>) {
    i + |e| <= |b| && b[i..i + |e|] == e
  }

  lemma AtSplit(b: seq<byte>, i: nat, e: seq<byte>, f: seq<byte>)
    requires At(b, i, e + f)
    ensures At(b, i, e) && At(b, i + |e|, f)
  {
    var s := b[i..i + |e + f|];
    assert s[..|e|] == e && s[|e|..] == f;
    assert b[i..i + |e|] == s[..|e|];
    assert b[i + |e|..i + |e| + |f|] == s[|e|..];
  }

  lemma AtByte(b: seq<byte>, i: nat, e: seq<byte>, k: nat)
    requires At(b, i, e) && k < |e|
    ensures b[i + k] == e[k]
  {
    assert b[i..i + |e|][k] == b[i + k];
  }

  lemma AtJoin(b: seq<byte>, i: nat, e: seq<byte>, f: seq<byte>)
    requires At(b, i, e) && At(b, i + |e|, f)
    ensures At(b, i, e + f)
  {
    assert b[i..i + |e + f|] == b[i..i + |e|] + b[i + |e|..i + |e| + |f|];
  }
}
