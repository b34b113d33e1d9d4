/** Text helpers of the HTTP parser: splitting, trimming and number reading. */
module HttpText {
  import opened Bytes
  import Decimal

  /** The Unicode White_Space property. */
  predicate IsWhite(c: char) {
    var n := c as int;
    || 9 <= n <= 13 || n == 0x20 || n == 0x85 || n == 0xA0 || n == 0x1680
    || 0x2000 <= n <= 0x200A || n == 0x2028 || n == 0x2029 || n == 0x202F || n == 0x205F || n == 0x3000
  }

  function TrimStart(s: string): string {
    if s != [] && IsWhite(s[0]) then TrimStart(s[1..]) else s
  }

  function TrimEnd(s: string): string {
    if s != [] && IsWhite(s[|s| - 1]) then TrimEnd(s[..|s| - 1]) else s
  }

  function Trim(s: string): string {
    TrimEnd(TrimStart(s))
  }

  /** Text without white space at either end. */
  predicate IsTrim(s: string) {
    s != [] ==> !IsWhite(s[0]) && !IsWhite(s[|s| - 1])
  }

  lemma TrimKeeps(s: string)
    requires IsTrim(s)
    ensures Trim(s) == s
  {
  }

  lemma TrimSpace(s: string)
    requires IsTrim(s)
    ensures Trim(" " + s) == s
  {
    assert (" " + s)[1..] == s;
    assert TrimStart(" " + s) == TrimStart(s);
  }

  function Lower(c: char): char {
    if 'A' <= c <= 'Z' then (c as int + 32) as char else c
  }

  predicate EqIgnoreCase(s: string, t: string) {
    |s| == |t| && forall i | 0 <= i < |s| :: Lower(s[i]) == Lower(t[i])
  }

  function Find(s: string, c: char): (k: Option<nat>)
    ensures k.Some? ==> k.value < |s| && s[k.value] == c && c !in s[..k.value]
    ensures k.None? ==> c !in s
  {
    if s == [] then None
    else if s[0] == c then Some(0)
    else
      var k := Find(s[1..], c);
      assert s == [s[0]] + s[1..];
      if k.None? then None
      else
        assert s[..k.value + 1] == [s[0]] + s[1..][..k.value];
        Some(k.value + 1)
  }

  lemma FindsFirst(s: string, c: char, t: string)
    requires c !in s
    ensures Find(s + [c] + t, c) == Some(|s|)
  {
    var u := s + [c] + t;
    assert u[|s|] == c;
  }

  /** The part before the first `c`, or all of it. */
  function Before(s: string, c: char): string {
    match Find(s, c)
    case Some(k) => s[..k]
    case None => s
  }

  // ---- lines ---------------------------------------------------------------------------------

  function FindCrLf(s: string): (k: Option<nat>)
    ensures k.Some? ==> k.value + 2 <= |s| && s[k.value] == '\r' && s[k.value + 1] == '\n'
  {
    if |s| < 2 then None
    else if s[0] == '\r' && s[1] == '\n' then Some(0)
    else match FindCrLf(s[1..])
      case None => None
      case Some(k) => Some(k + 1)
  }

  function Lines(s: string): (ls: seq<string>)
    ensures ls != []
  {
    match FindCrLf(s)
    case None => [s]
    case Some(k) => [s[..k]] + Lines(s[k + 2..])
  }

  predicate OneLine(s: string) {
    '\r' !in s && '\n' !in s
  }

  lemma {:induction false} FindsCrLf(s: string, t: string)
    requires '\r' !in s
    ensures FindCrLf(s + "\r\n" + t) == Some(|s|)
  {
    var u := s + "\r\n" + t;
    if s != [] {
      assert u[0] == s[0] && s[0] in s;
      assert u[1..] == s[1..] + "\r\n" + t;
      FindsCrLf(s[1..], t);
    }
  }

  lemma FirstLine(s: string, t: string)
    requires OneLine(s)
    ensures Lines(s + "\r\n" + t) == [s] + Lines(t)
  {
    var u := s + "\r\n" + t;
    FindsCrLf(s, t);
    assert u[..|s|] == s && u[|s| + 2..] == t;
  }

  // ---- numbers -------------------------------------------------------------------------------------

  const TWO64: nat := 0x1_0000_0000_0000_0000

  /** Digits after an optional plus sign, below 2^64. */
  function ParseU64(s: string): Option<nat> {
    var d := if s != [] && s[0] == '+' then s[1..] else s;
    if d == [] || !Decimal.AllDigits(d) then None
    else if Decimal.Spelled(d) >= TWO64 then None
    else Some(Decimal.Spelled(d))
  }

  /** Shortest decimal text reads back. */
  lemma ParsesDec(n: nat)
    requires n < TWO64
    ensures ParseU64(Decimal.Dec(n)) == Some(n)
  {
    Decimal.SpelledDec(n);
    var d := Decimal.Dec(n);
    assert Decimal.IsDigit(d[0]);
  }

  function HexDigit(c: char): Option<nat> {
    if '0' <= c <= '9' then Some(c as int - '0' as int)
    else if 'a' <= c <= 'f' then Some(c as int - 'a' as int + 10)
    else if 'A' <= c <= 'F' then Some(c as int - 'A' as int + 10)
    else None
  }

  function HexValue(s: string): Option<nat> {
    if s == [] then Some(0)
    else
      var hi :- HexValue(s[..|s| - 1]);
      var d :- HexDigit(s[|s| - 1]);
      Some(16 * hi + d)
  }

  /** Hexadecimal digits after an optional plus sign, below 2^64. */
  function ParseHex(s: string): Option<nat> {
    var d := if s != [] && s[0] == '+' then s[1..] else s;
    if d == [] then None
    else
      var v :- HexValue(d);
      if v >= TWO64 then None else Some(v)
  }

  function Hex(n: nat): (s: string)
    ensures s != []
    ensures forall i | 0 <= i < |s| :: HexDigit(s[i]).Some?
  {
    if n < 16 then [Decimal.HexChar(n)] else Hex(n / 16) + [Decimal.HexChar(n % 16)]
  }

  lemma {:induction false} HexReads(n: nat)
    ensures HexValue(Hex(n)) == Some(n)
  {
    if n < 16 {
      var h := Hex(n);
      assert h[..0] == [] && HexValue([]) == Some(0);
    } else {
      HexReads(n / 16);
      var h := Hex(n);
      assert h[..|h| - 1] == Hex(n / 16);
    }
  }

  lemma ParsesHex(n: nat)
    requires n < TWO64
    ensures ParseHex(Hex(n)) == Some(n)
  {
    HexReads(n);
    assert HexDigit(Hex(n)[0]).Some?;
  }
}
