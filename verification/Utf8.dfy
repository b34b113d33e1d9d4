/**
 UTF-8: encoding of Unicode scalar values, strict decoding, and decoding that
 replaces ill-formed parts (table 3-7 of the Unicode standard).
 */
module Utf8 {
  import opened Bytes

  const REPLACEMENT: char := '\U{FFFD}'

  function EncodeChar(c: char): (e: seq<byte>)
    ensures 1 <= |e| <= 4
    ensures |e| == 1 <==> c as int < 0x80
    ensures e[0] < 0x80 <==> c as int < 0x80
    ensures c as int < 0x80 ==> e == [c as int]
  {
    var n := c as int;
    if n < 0x80 then [n]
    else if n < 0x800 then [0xC0 + n / 64, 0x80 + n % 64]
    else if n < 0x1_0000 then [0xE0 + n / 4096, 0x80 + n / 64 % 64, 0x80 + n % 64]
    else [0xF0 + n / 262144, 0x80 + n / 4096 % 64, 0x80 + n / 64 % 64, 0x80 + n % 64]
  }

  function Encode(s: string): (b: seq<byte>)
    ensures |b| >= |s|
  {
    if s == [] then [] else EncodeChar(s[0]) + Encode(s[1..])
  }

  predicate IsTail(x: byte) {
    0x80 <= x <= 0xBF
  }

  predicate IsSecondOfThree(b0: byte, b1: byte) {
    if b0 == 0xE0 then 0xA0 <= b1 <= 0xBF else if b0 == 0xED then 0x80 <= b1 <= 0x9F else IsTail(b1)
  }

  predicate IsSecondOfFour(b0: byte, b1: byte) {
    if b0 == 0xF0 then 0x90 <= b1 <= 0xBF else if b0 == 0xF4 then 0x80 <= b1 <= 0x8F else IsTail(b1)
  }

  /** The byte at a place; zero past the end. */
  function Get(b: seq<byte>, i: nat): byte {
    if i < |b| then b[i] else 0
  }

  /** A well-formed character, or the length of the ill-formed part to skip. */
  datatype Step = Good(c: char, len: nat) | Bad(skip: nat)

  function StepAt(b: seq<byte>, i: nat): (s: Step)
    requires i < |b|
    ensures s.Good? ==> 1 <= s.len <= 4 && i + s.len <= |b|
    ensures s.Bad? ==> 1 <= s.skip <= 3 && i + s.skip <= |b|
  {
    var b0 := b[i];
    if b0 < 0x80 then Good(b0 as char, 1)
    else
      var b1, b2, b3 := Get(b, i + 1), Get(b, i + 2), Get(b, i + 3);
      if 0xC2 <= b0 <= 0xDF then
        if !IsTail(b1) then Bad(1) else Good(((b0 - 0xC0) * 64 + (b1 - 0x80)) as char, 2)
      else if 0xE0 <= b0 <= 0xEF then
        if !IsSecondOfThree(b0, b1) then Bad(1)
        else if !IsTail(b2) then Bad(2)
        else Good(((b0 - 0xE0) * 4096 + (b1 - 0x80) * 64 + (b2 - 0x80)) as char, 3)
      else if 0xF0 <= b0 <= 0xF4 then
        if !IsSecondOfFour(b0, b1) then Bad(1)
        else if !IsTail(b2) then Bad(2)
        else if !IsTail(b3) then Bad(3)
        else Good(((b0 - 0xF0) * 262144 + (b1 - 0x80) * 4096 + (b2 - 0x80) * 64 + (b3 - 0x80)) as char, 4)
      else Bad(1)
  }

  /** Strict decoding from a place on. */
  function DecodeFrom(b: seq<byte>, i: nat): Option<string>
    requires i <= |b|
    decreases |b| - i
  {
    if i == |b| then Some("")
    else
      match StepAt(b, i)
      case Bad(_) => None
      case Good(c, n) =>
        var rest :- DecodeFrom(b, i + n);
        Some([c] + rest)
  }

  function FromUtf8(b: seq<byte>): Option<string> {
    DecodeFrom(b, 0)
  }

  /** Decoding that puts a replacement character for each ill-formed part. */
  function LossyFrom(b: seq<byte>, i: nat): string
    requires i <= |b|
    decreases |b| - i
  {
    if i == |b| then ""
    else
      match StepAt(b, i)
      case Bad(n) => [REPLACEMENT] + LossyFrom(b, i + n)
      case Good(c, n) => [c] + LossyFrom(b, i + n)
  }

  function FromUtf8Lossy(b: seq<byte>): string {
    LossyFrom(b, 0)
  }

  /** A number in base 64. */
  lemma Digits(n: nat, h: nat, a: nat, m: nat, l: nat)
    requires n == 262144 * h + 4096 * a + 64 * m + l && a < 64 && m < 64 && l < 64
    ensures n / 262144 == h && n / 4096 == 64 * h + a && n / 4096 % 64 == a
    ensures n / 64 == 4096 * h + 64 * a + m && n / 64 % 64 == m && n % 64 == l
  {
    ModUnique(n, 64, 4096 * h + 64 * a + m, l);
    ModUnique(n / 64, 64, 64 * h + a, m);
    ModUnique(n, 4096, 64 * h + a, 64 * m + l);
    ModUnique(n / 4096, 64, h, a);
    ModUnique(n, 262144, h, 4096 * a + 64 * m + l);
  }

  lemma DigitsOf(n: nat) returns (h: nat, a: nat, m: nat, l: nat)
    ensures n == 262144 * h + 4096 * a + 64 * m + l && a < 64 && m < 64 && l < 64
  {
    var q := n / 64;
    l := n % 64;
    var r := q / 64;
    m := q % 64;
    a := r % 64;
    h := r / 64;
  }

  /** An encoded character is read back, with its own length. */
  lemma CharRoundTrip(b: seq<byte>, i: nat, c: char)
    requires At(b, i, EncodeChar(c))
    ensures StepAt(b, i) == Good(c, |EncodeChar(c)|)
  {
    var n := c as int;
    var h, a, m, l := DigitsOf(n);
    Digits(n, h, a, m, l);
    var e := EncodeChar(c);
    AtByte(b, i, e, 0);
    if n < 0x80 {
    } else if n < 0x800 {
      AtByte(b, i, e, 1);
      ReadTwo(b, i, m, l, c);
    } else if n < 0x1_0000 {
      AtByte(b, i, e, 1);
      AtByte(b, i, e, 2);
      ReadThree(b, i, a, m, l, c);
    } else {
      AtByte(b, i, e, 1);
      AtByte(b, i, e, 2);
      AtByte(b, i, e, 3);
      ReadFour(b, i, h, a, m, l, c);
    }
  }

  lemma ReadTwo(b: seq<byte>, i: nat, m: nat, l: nat, c: char)
    requires i + 2 <= |b| && l < 64 && c as int == 64 * m + l && 0x80 <= c as int < 0x800
    requires b[i] == 0xC0 + m && b[i + 1] == 0x80 + l
    ensures StepAt(b, i) == Good(c, 2)
  {
  }

  lemma ReadThree(b: seq<byte>, i: nat, a: nat, m: nat, l: nat, c: char)
    requires i + 3 <= |b| && m < 64 && l < 64 && c as int == 4096 * a + 64 * m + l && 0x800 <= c as int < 0x1_0000
    requires b[i] == 0xE0 + a && b[i + 1] == 0x80 + m && b[i + 2] == 0x80 + l
    ensures StepAt(b, i) == Good(c, 3)
  {
  }

  lemma ReadFour(b: seq<byte>, i: nat, h: nat, a: nat, m: nat, l: nat, c: char)
    requires i + 4 <= |b| && a < 64 && m < 64 && l < 64
    requires c as int == 262144 * h + 4096 * a + 64 * m + l && 0x1_0000 <= c as int
    requires b[i] == 0xF0 + h && b[i + 1] == 0x80 + a && b[i + 2] == 0x80 + m && b[i + 3] == 0x80 + l
    ensures StepAt(b, i) == Good(c, 4)
  {
  }

  /** A character read strictly stands there in its encoded form. */
  lemma CharIsEncoded(b: seq<byte>, i: nat)
    requires i < |b| && StepAt(b, i).Good?
    ensures |EncodeChar(StepAt(b, i).c)| == StepAt(b, i).len && At(b, i, EncodeChar(StepAt(b, i).c))
  {
    var len := StepAt(b, i).len;
    if len == 1 {
      assert b[i..i + 1] == [b[i]];
    } else if len == 2 {
      TwoStand(b, i);
    } else if len == 3 {
      ThreeStand(b, i);
    } else {
      FourStand(b, i);
    }
  }

  lemma TwoStand(b: seq<byte>, i: nat)
    requires i < |b| && StepAt(b, i).Good? && StepAt(b, i).len == 2
    ensures At(b, i, EncodeChar(StepAt(b, i).c)) && |EncodeChar(StepAt(b, i).c)| == 2
  {
    Digits(StepAt(b, i).c as int, 0, 0, b[i] - 0xC0, b[i + 1] - 0x80);
    assert b[i..i + 2] == [b[i], b[i + 1]];
  }

  lemma ThreeStand(b: seq<byte>, i: nat)
    requires i < |b| && StepAt(b, i).Good? && StepAt(b, i).len == 3
    ensures At(b, i, EncodeChar(StepAt(b, i).c)) && |EncodeChar(StepAt(b, i).c)| == 3
  {
    Digits(StepAt(b, i).c as int, 0, b[i] - 0xE0, b[i + 1] - 0x80, b[i + 2] - 0x80);
    assert b[i..i + 3] == [b[i], b[i + 1], b[i + 2]];
  }

  lemma FourStand(b: seq<byte>, i: nat)
    requires i < |b| && StepAt(b, i).Good? && StepAt(b, i).len == 4
    ensures At(b, i, EncodeChar(StepAt(b, i).c)) && |EncodeChar(StepAt(b, i).c)| == 4
  {
    Digits(StepAt(b, i).c as int, b[i] - 0xF0, b[i + 1] - 0x80, b[i + 2] - 0x80, b[i + 3] - 0x80);
    assert b[i..i + 4] == [b[i], b[i + 1], b[i + 2], b[i + 3]];
  }

  lemma {:induction false} DecodeEncoded(b: seq<byte>, i: nat, s: string)
    requires At(b, i, Encode(s)) && i + |Encode(s)| == |b|
    ensures DecodeFrom(b, i) == Some(s) && LossyFrom(b, i) == s
    decreases |s|
  {
    hide EncodeChar, StepAt, At;
    if s != [] {
      AtSplit(b, i, EncodeChar(s[0]), Encode(s[1..]));
      CharRoundTrip(b, i, s[0]);
      DecodeEncoded(b, i + |EncodeChar(s[0])|, s[1..]);
      assert [s[0]] + s[1..] == s;
    }
  }

  /** Both decoders undo the encoder. */
  lemma RoundTrip(s: string)
    ensures FromUtf8(Encode(s)) == Some(s) && FromUtf8Lossy(Encode(s)) == s
  {
    var b := Encode(s);
    assert b[0..|b|] == b;
    DecodeEncoded(b, 0, s);
  }

  lemma {:induction false} DecodedFrom(b: seq<byte>, i: nat)
    requires i <= |b| && DecodeFrom(b, i).Some?
    ensures At(b, i, Encode(DecodeFrom(b, i).value)) && i + |Encode(DecodeFrom(b, i).value)| == |b|
    decreases |b| - i
  {
    if i < |b| {
      var Good(c, n) := StepAt(b, i);
      CharIsEncoded(b, i);
      DecodedFrom(b, i + n);
      var rest := DecodeFrom(b, i + n).value;
      var s := DecodeFrom(b, i).value;
      assert s[0] == c && s[1..] == rest;
      AtJoin(b, i, EncodeChar(c), Encode(rest));
    }
  }

  /** Strict decoding accepts exactly the encodings of strings. */
  lemma AcceptsEncodings(b: seq<byte>, s: string)
    ensures FromUtf8(b) == Some(s) <==> b == Encode(s)
  {
    RoundTrip(s);
    if FromUtf8(b) == Some(s) {
      DecodedFrom(b, 0);
      assert b[0..|b|] == b;
    }
  }

  lemma {:induction false} EncodeConcat(s: string, t: string)
    ensures Encode(s + t) == Encode(s) + Encode(t)
  {
    hide EncodeChar;
    if s == [] {
      assert s + t == t;
    } else {
      assert (s + t)[0] == s[0] && (s + t)[1..] == s[1..] + t;
      EncodeConcat(s[1..], t);
    }
  }

  predicate IsAscii(s: string) {
    forall i | 0 <= i < |s| :: s[i] as int < 0x80
  }

  function AsciiBytes(s: string): (b: seq<byte>)
    requires IsAscii(s)
    ensures |b| == |s|
  {
    seq(|s|, i requires 0 <= i < |s| => s[i] as int)
  }

  lemma {:induction false} EncodeAscii(s: string)
    requires IsAscii(s)
    ensures Encode(s) == AsciiBytes(s)
  {
    if s != [] { EncodeAscii(s[1..]); }
  }
}
