/** Decimal text of natural numbers, and reading it back; hexadecimal digits. */
module Decimal {

  function Digit(n: nat): char
    requires n < 10
  {
    '0' + n as char
  }

  /** A lower-case hexadecimal digit. */
  function HexChar(n: nat): char
    requires n < 16
  {
    if n < 10 then '0' + n as char else 'a' + (n - 10) as char
  }

  predicate IsDigit(c: char) {
    '0' <= c <= '9'
  }

  predicate AllDigits(s: string) {
    forall i :: 0 <= i < |s| ==> IsDigit(s[i])
  }

  function DigitValue(c: char): (v: nat)
    requires IsDigit(c)
    ensures v < 10
  {
    c as int - '0' as int
  }

  /** Shortest decimal text. */
  function Dec(n: nat): (s: string)
    ensures s != []
    ensures AllDigits(s)
  {
    if n < 10 then [Digit(n)] else Dec(n / 10) + [Digit(n % 10)]
  }

  /** At least `w` digits, padded with zeros on the left. */
  function Padded(n: nat, w: nat): (s: string)
    ensures |s| >= w
    ensures AllDigits(s)
  {
    var t := Dec(n);
    if |t| >= w then t else Zeros(w - |t|) + t
  }

  function Zeros(n: nat): (s: string)
    ensures |s| == n && forall i :: 0 <= i < n ==> s[i] == '0'
  {
    seq(n, _ => '0')
  }

  /** The number a string of digits spells. */
  function Spelled(s: string): nat
    requires AllDigits(s)
  {
    if s == [] then 0 else 10 * Spelled(s[..|s| - 1]) + DigitValue(s[|s| - 1])
  }

  lemma {:induction false} SpelledDec(n: nat)
    ensures Spelled(Dec(n)) == n
  {
    if n >= 10 {
      SpelledDec(n / 10);
      assert Dec(n)[..|Dec(n)| - 1] == Dec(n / 10);
    }
  }

  lemma {:induction false} SpelledZeros(k: nat, t: string)
    requires AllDigits(t)
    ensures Spelled(Zeros(k) + t) == Spelled(t)
    decreases |t|, k
  {
    var s := Zeros(k) + t;
    if t != [] {
      SpelledZeros(k, t[..|t| - 1]);
      assert s[..|s| - 1] == Zeros(k) + t[..|t| - 1];
    } else if k > 0 {
      assert s[..|s| - 1] == Zeros(k - 1) + t;
      SpelledZeros(k - 1, t);
    }
  }

  lemma SpelledPadded(n: nat, w: nat)
    ensures Spelled(Padded(n, w)) == n
  {
    SpelledDec(n);
    if |Dec(n)| < w {
      SpelledZeros(w - |Dec(n)|, Dec(n));
    }
  }

  /** Text of bounded numbers has bounded length. */
  lemma {:induction false} DecLength(n: nat, w: nat)
    requires w > 0 && n < Pow10(w)
    ensures |Dec(n)| <= w
    decreases w
  {
    if n >= 10 {
      DecLength(n / 10, w - 1);
    }
  }

  function Pow10(n: nat): (p: nat)
    ensures p > 0
  {
    if n == 0 then 1 else 10 * Pow10(n - 1)
  }
}
