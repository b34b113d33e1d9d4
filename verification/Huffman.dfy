/**
 Brotli prefix codes: canonical code assignment from code lengths and the
 bit-by-bit symbol decoder (section 3 of RFC 7932).
 */
module Huffman {
  import opened Bytes
  import opened BitReading

  datatype HuffmanError =
    | BitReaderError(error: BitError)
    | DuplicateSymbol(sym: nat)
    | SymbolOutOfRange(sym: nat, alphabetSize: nat)
    | NotCanonical
    | InvalidCode
    | RepeatOverrunsAlphabet(needed: nat, alphabetSize: nat)
    | InsufficientNonzeroLengths

  datatype Entry = Entry(sym: nat, code: nat, len: nat)

  // ---- weights of code lengths -------------------------------------------------------------

  ghost predicate Ascending(lens: seq<nat>) {
    forall i, j | 0 <= i <= j < |lens| :: lens[i] <= lens[j]
  }

  /** The first `i` code words cover this many of the words of length `m`. */
  function Weight(lens: seq<nat>, i: nat, m: nat): nat
    requires i <= |lens| && forall j | 0 <= j < i :: lens[j] <= m
    decreases i
  {
    if i == 0 then 0 else Weight(lens, i - 1, m) + Pow2(m - lens[i - 1])
  }

  lemma {:induction false} WeightScale(lens: seq<nat>, i: nat, b: nat, m: nat)
    requires i <= |lens| && b <= m && forall j | 0 <= j < i :: lens[j] <= b
    ensures Weight(lens, i, m) == Weight(lens, i, b) * Pow2(m - b)
    decreases i
  {
    if i > 0 {
      WeightScale(lens, i - 1, b, m);
      Pow2Add(b - lens[i - 1], m - b);
      Distribute(Weight(lens, i - 1, b), Pow2(b - lens[i - 1]), Pow2(m - b));
    }
  }

  lemma Distribute(a: int, b: int, c: int)
    ensures (a + b) * c == a * c + b * c
  {
  }

  lemma {:induction false} Pow2Add(a: nat, b: nat)
    ensures Pow2(a + b) == Pow2(a) * Pow2(b)
    decreases a
  {
    if a > 0 {
      Pow2Add(a - 1, b);
      MulAssoc(2, Pow2(a - 1), Pow2(b));
    }
  }

  lemma WeightNext(lens: seq<nat>, i: nat, m: nat)
    requires i < |lens| && forall k | 0 <= k <= i :: lens[k] <= m
    ensures Weight(lens, i + 1, m) == Weight(lens, i, m) + Pow2(m - lens[i])
  {
  }

  lemma {:induction false} WeightGrows(lens: seq<nat>, i: nat, j: nat, m: nat)
    requires i <= j <= |lens| && forall k | 0 <= k < j :: lens[k] <= m
    ensures Weight(lens, i, m) <= Weight(lens, j, m)
    decreases j
  {
    if i < j { WeightGrows(lens, i, j - 1, m); }
  }

  // ---- canonical codes -----------------------------------------------------------------------

  /** Each code word follows the words covered by the ones before it. */
  ghost predicate Canonical(es: seq<Entry>) {
    var lens := Lens(es);
    && Ascending(lens)
    && forall i | 0 <= i < |es| :: es[i].len >= 1 && es[i].code == Weight(lens, i, lens[i])
  }

  function Lens(es: seq<Entry>): (lens: seq<nat>)
    ensures |lens| == |es| && forall i | 0 <= i < |es| :: lens[i] == es[i].len
  {
    seq(|es|, i requires 0 <= i < |es| => es[i].len)
  }

  function MaxLen(es: seq<Entry>): (m: nat)
    ensures forall e | e in es :: e.len <= m
    ensures es != [] ==> exists e | e in es :: e.len == m
  {
    if es == [] then 0
    else
      var m := MaxLen(es[1..]);
      assert es == [es[0]] + es[1..];
      if es[0].len > m then es[0].len else if es[1..] == [] then es[0].len else m
  }

  /** The code words cover every word, none twice. */
  ghost predicate Full(es: seq<Entry>) {
    && es != []
    && Canonical(es)
    && var m := es[|es| - 1].len; Weight(Lens(es), |es|, m) == Pow2(m)
  }

  // ---- decoding ----------------------------------------------------------------------------------

  type Read<+T> = Result<(T, nat), HuffmanError>

  function BitAt(buf: seq<byte>, pos: nat): Read<nat> {
    match ReadAt(buf, pos, 1)
    case Ok(x) => Ok(x)
    case Err(e) => Err(BitReaderError(e))
  }

  function First(es: seq<Entry>, code: nat, len: nat): Option<nat> {
    if es == [] then None
    else if es[0].len == len && es[0].code == code then Some(es[0].sym)
    else First(es[1..], code, len)
  }

  function Walk(es: seq<Entry>, buf: seq<byte>, pos: nat, code: nat, len: nat, max: nat): Read<nat>
    decreases max - len
  {
    if len >= max then Err(InvalidCode)
    else
      var (b, p) :- BitAt(buf, pos);
      var code := 2 * code + b;
      match First(es, code, len + 1)
      case Some(sym) => Ok((sym, p))
      case None => Walk(es, buf, p, code, len + 1, max)
  }

  function SymbolAt(es: seq<Entry>, buf: seq<byte>, pos: nat): Read<nat> {
    if |es| == 1 && es[0].len == 0 then Ok((es[0].sym, pos))
    else Walk(es, buf, pos, 0, 0, MaxLen(es))
  }

  lemma {:induction false} WalkAdvances(es: seq<Entry>, buf: seq<byte>, pos: nat, code: nat, len: nat, max: nat)
    requires pos <= BitLen(buf) && Walk(es, buf, pos, code, len, max).Ok?
    ensures pos < Walk(es, buf, pos, code, len, max).value.1 <= BitLen(buf)
    decreases max - len
  {
    var (b, p) := BitAt(buf, pos).value;
    if First(es, 2 * code + b, len + 1).None? { WalkAdvances(es, buf, p, 2 * code + b, len + 1, max); }
  }

  /** The next `n` bits as a code word, first bit heaviest. */
  function Word(buf: seq<byte>, pos: nat, n: nat): (v: nat)
    requires pos + n <= BitLen(buf)
    ensures v < Pow2(n)
    decreases n
  {
    if n == 0 then 0 else 2 * Word(buf, pos, n - 1) + Bit(buf, pos + n - 1)
  }

  /** A shorter word is the front of a longer one. */
  lemma {:induction false} WordFront(buf: seq<byte>, pos: nat, l: nat, m: nat)
    requires l <= m && pos + m <= BitLen(buf)
    ensures 0 <= Word(buf, pos, m) - Word(buf, pos, l) * Pow2(m - l) < Pow2(m - l)
    decreases m
  {
    hide Bit;
    if l < m {
      WordFront(buf, pos, l, m - 1);
      FrontStep(Word(buf, pos, l), Pow2(m - 1 - l), Word(buf, pos, m - 1), Bit(buf, pos + m - 1));
      assert Pow2(m - l) == 2 * Pow2(m - 1 - l);
    }
  }

  lemma FrontStep(w: int, h: int, x: int, b: int)
    requires 0 <= x - w * h < h && 0 <= b <= 1
    ensures 0 <= 2 * x + b - w * (2 * h) < 2 * h
  {
    Twice(w, h);
  }

  lemma Twice(w: int, h: int)
    ensures w * (2 * h) == 2 * (w * h)
  {
  }

  /** The words up to and with entry `j` lie before those of entry `i`. */
  lemma EndsBefore(lens: seq<nat>, j: nat, i: nat, a: nat, b: nat, h: nat)
    requires Ascending(lens) && j < i < |lens|
    requires (forall k | 0 <= k < j :: lens[k] <= lens[j]) && a == Weight(lens, j, lens[j])
    requires (forall k | 0 <= k < i :: lens[k] <= lens[i]) && b == Weight(lens, i, lens[i])
    requires lens[j] <= lens[i] && h == Pow2(lens[i] - lens[j])
    ensures a * h + h <= b
  {
    hide Weight, Pow2, Ascending;
    var m := lens[i];
    WeightNext(lens, j, m);
    WeightGrows(lens, j + 1, i, m);
    WeightScale(lens, j, lens[j], m);
    Chain(Weight(lens, j, lens[j]) * Pow2(m - lens[j]), h, Weight(lens, j + 1, m), b);
  }

  lemma Chain(x: int, h: int, y: int, b: int)
    requires y == x + h && y <= b
    ensures x + h <= b
  {
  }

  /** A code word of the table is the front of no later one. */
  lemma NotFront(es: seq<Entry>, i: nat, j: nat)
    requires Canonical(es) && j < i < |es|
    ensures es[j].len <= es[i].len
    ensures es[j].code * Pow2(es[i].len - es[j].len) + Pow2(es[i].len - es[j].len) <= es[i].code
  {
    hide Lens, Pow2, Weight;
    var lens := Lens(es);
    assert lens[j] <= lens[i];
    EndsBefore(lens, j, i, es[j].code, es[i].code, Pow2(es[i].len - es[j].len));
  }

  lemma {:induction false} FirstFinds(es: seq<Entry>, code: nat, len: nat)
    ensures First(es, code, len).None? ==> forall j | 0 <= j < |es| :: !(es[j].len == len && es[j].code == code)
    ensures First(es, code, len).Some? ==>
              exists j :: 0 <= j < |es| && es[j].len == len && es[j].code == code
                          && First(es, code, len) == Some(es[j].sym)
  {
    if es != [] && !(es[0].len == len && es[0].code == code) {
      FirstFinds(es[1..], code, len);
      if First(es[1..], code, len).Some? {
        var j :| 0 <= j < |es[1..]| && es[1..][j].len == len && es[1..][j].code == code
              && First(es[1..], code, len) == Some(es[1..][j].sym);
        assert es[j + 1] == es[1..][j];
      } else {
        forall j | 0 <= j < |es|
          ensures !(es[j].len == len && es[j].code == code)
        {
          if j > 0 { assert es[j] == es[1..][j - 1]; }
        }
      }
    }
  }

  lemma WordIsNotAhead(es: seq<Entry>, buf: seq<byte>, pos: nat, i: nat, j: nat)
    requires Canonical(es) && j < i < |es| && pos + es[i].len <= BitLen(buf)
    requires Word(buf, pos, es[i].len) == es[i].code
    ensures es[j].len <= es[i].len && Word(buf, pos, es[j].len) != es[j].code
  {
    hide Canonical, Word, Pow2;
    NotFront(es, i, j);
    WordFront(buf, pos, es[j].len, es[i].len);
    Apart(es[j].code, Pow2(es[i].len - es[j].len), es[i].code, Word(buf, pos, es[j].len));
  }

  lemma Apart(c: int, h: int, d: int, w: int)
    requires c * h + h <= d && d - w * h < h
    ensures w != c
  {
  }

  /** With the code word of entry `i` in the stream, no shorter front of it matches any entry. */
  lemma OnlyOwnWord(es: seq<Entry>, buf: seq<byte>, pos: nat, i: nat, l: nat)
    requires Canonical(es) && i < |es| && 1 <= l <= es[i].len
    requires pos + es[i].len <= BitLen(buf) && Word(buf, pos, es[i].len) == es[i].code
    ensures First(es, Word(buf, pos, l), l) == if l < es[i].len then None else Some(es[i].sym)
  {
    var w := Word(buf, pos, l);
    FirstFinds(es, w, l);
    assert Pow2(0) == 1;
    hide Canonical, Word, First, Pow2;
    forall j | 0 <= j < |es| && es[j].len == l && es[j].code == w
      ensures j == i
    {
      if j < i {
        WordIsNotAhead(es, buf, pos, i, j);
      } else if i < j {
        NotFront(es, j, i);
      }
    }
  }

  lemma {:induction false} WalkReads(es: seq<Entry>, buf: seq<byte>, pos: nat, i: nat, l: nat, max: nat)
    requires Canonical(es) && i < |es| && l < es[i].len <= max
    requires pos + es[i].len <= BitLen(buf) && Word(buf, pos, es[i].len) == es[i].code
    ensures Walk(es, buf, pos + l, Word(buf, pos, l), l, max) == Ok((es[i].sym, pos + es[i].len))
    decreases es[i].len - l
  {
    hide Bit, First, Canonical;
    assert BitsValue(buf, pos + l, 1) == Bit(buf, pos + l);
    assert Word(buf, pos, l + 1) == 2 * Word(buf, pos, l) + Bit(buf, pos + l);
    hide Word, BitsValue;
    OnlyOwnWord(es, buf, pos, i, l + 1);
    if l + 1 < es[i].len { WalkReads(es, buf, pos, i, l + 1, max); }
  }

  /** A symbol's code word in the stream is decoded as that symbol and nothing beyond it is read. */
  lemma ReadsOwnWord(es: seq<Entry>, buf: seq<byte>, pos: nat, i: nat)
    requires Canonical(es) && i < |es|
    requires pos + es[i].len <= BitLen(buf) && Word(buf, pos, es[i].len) == es[i].code
    ensures SymbolAt(es, buf, pos) == Ok((es[i].sym, pos + es[i].len))
  {
    assert es[i] in es;
    WalkReads(es, buf, pos, i, 0, MaxLen(es));
  }

  /** Some entry covers each word below the weight of the table. */
  lemma {:induction false} CoverOf(lens: seq<nat>, n: nat, m: nat, v: nat) returns (i: nat)
    requires n <= |lens| && (forall k | 0 <= k < n :: lens[k] <= m) && v < Weight(lens, n, m)
    ensures i < n && Weight(lens, i, m) <= v < Weight(lens, i + 1, m)
    decreases n
  {
    if v < Weight(lens, n - 1, m) { i := CoverOf(lens, n - 1, m, v); } else { i := n - 1; }
  }

  /** A full code decodes whatever bits follow. */
  lemma FullNeverFails(es: seq<Entry>, buf: seq<byte>, pos: nat) returns (i: nat)
    requires Full(es) && pos + es[|es| - 1].len <= BitLen(buf)
    ensures i < |es| && Word(buf, pos, es[i].len) == es[i].code
    ensures SymbolAt(es, buf, pos) == Ok((es[i].sym, pos + es[i].len))
  {
    hide Lens, Pow2, Word, SymbolAt, Weight, Bit;
    var lens, m := Lens(es), es[|es| - 1].len;
    assert forall k | 0 <= k < |lens| :: lens[k] <= lens[|es| - 1];
    var v := Word(buf, pos, m);
    i := CoverOf(lens, |es|, m, v);
    var l := lens[i];
    assert forall k | 0 <= k < i :: lens[k] <= l;
    WeightNext(lens, i, m);
    WeightScale(lens, i, l, m);
    WordFront(buf, pos, l, m);
    SameQuotient(Word(buf, pos, l), es[i].code, Pow2(m - l), v);
    ReadsOwnWord(es, buf, pos, i);
  }

  lemma SameQuotient(a: nat, b: nat, h: nat, v: nat)
    requires 0 <= v - a * h < h && 0 <= v - b * h < h
    ensures a == b
  {
    if a < b { MulOrder(a + 1, b, h); }
    if b < a { MulOrder(b + 1, a, h); }
  }

  lemma MulOrder(a: int, b: int, h: int)
    requires a <= b && h >= 0
    ensures a * h <= b * h
  {
  }

  // ---- building a code from lengths ---------------------------------------------------------------

  datatype Pair = Pair(sym: nat, len: nat)

  predicate Before(a: Pair, b: Pair) {
    a.len < b.len || (a.len == b.len && a.sym <= b.sym)
  }

  function Inserted(p: Pair, ps: seq<Pair>): seq<Pair> {
    if ps == [] || Before(p, ps[0]) then [p] + ps else [ps[0]] + Inserted(p, ps[1..])
  }

  function Sorted(ps: seq<Pair>): seq<Pair> {
    if ps == [] then [] else Inserted(ps[0], Sorted(ps[1..]))
  }

  ghost predicate InOrder(ps: seq<Pair>) {
    forall i, j | 0 <= i <= j < |ps| :: Before(ps[i], ps[j])
  }

  lemma {:induction false} InsertedInOrder(p: Pair, ps: seq<Pair>)
    requires InOrder(ps)
    ensures InOrder(Inserted(p, ps))
    ensures multiset(Inserted(p, ps)) == multiset{p} + multiset(ps)
  {
    if ps != [] && !Before(p, ps[0]) {
      InsertedInOrder(p, ps[1..]);
      assert ps == [ps[0]] + ps[1..];
      var r := Inserted(p, ps[1..]);
      forall j | 0 <= j < |r|
        ensures Before(ps[0], r[j])
      {
        HeadIsFirst(p, ps, r, j);
      }
      assert Inserted(p, ps) == [ps[0]] + r;
    }
  }

  lemma HeadIsFirst(p: Pair, ps: seq<Pair>, r: seq<Pair>, j: nat)
    requires ps != [] && InOrder(ps) && !Before(p, ps[0]) && j < |r|
    requires multiset(r) == multiset{p} + multiset(ps[1..])
    ensures Before(ps[0], r[j])
  {
    assert r[j] in multiset(r);
    if r[j] != p {
      assert r[j] in multiset(ps[1..]);
      var k :| 0 <= k < |ps[1..]| && ps[1..][k] == r[j];
      assert ps[k + 1] == r[j];
    }
  }

  lemma {:induction false} SortedInOrder(ps: seq<Pair>)
    ensures InOrder(Sorted(ps)) && multiset(Sorted(ps)) == multiset(ps)
  {
    if ps != [] {
      SortedInOrder(ps[1..]);
      InsertedInOrder(ps[0], Sorted(ps[1..]));
      assert ps == [ps[0]] + ps[1..];
    }
  }

  function Present(ps: seq<Pair>): (r: seq<Pair>)
    ensures forall p | p in r :: p in ps && p.len > 0
  {
    if ps == [] then []
    else (if ps[0].len > 0 then [ps[0]] else []) + Present(ps[1..])
  }

  function PairLens(ps: seq<Pair>): (lens: seq<nat>)
    ensures |lens| == |ps| && forall i | 0 <= i < |ps| :: lens[i] == ps[i].len
  {
    seq(|ps|, i requires 0 <= i < |ps| => ps[i].len)
  }

  /** How many of the first `i` lengths are `l`. */
  function Count(lens: seq<nat>, i: nat, l: nat): nat
    requires i <= |lens|
  {
    if i == 0 then 0 else Count(lens, i - 1, l) + (if lens[i - 1] == l then 1 else 0)
  }

  /** The words of length `b` covered by those of the first `i` that are shorter. */
  function Shorter(lens: seq<nat>, i: nat, b: nat): nat
    requires i <= |lens|
  {
    if i == 0 then 0 else Shorter(lens, i - 1, b) + (if lens[i - 1] < b then Pow2(b - lens[i - 1]) else 0)
  }

  lemma {:induction false} ShorterStep(lens: seq<nat>, i: nat, b: nat)
    requires i <= |lens|
    ensures Shorter(lens, i, b + 1) == 2 * (Shorter(lens, i, b) + Count(lens, i, b))
    decreases i
  {
    if i > 0 {
      ShorterStep(lens, i - 1, b);
      var l := lens[i - 1];
      if l < b {
        assert Pow2(b + 1 - l) == 2 * Pow2(b - l);
      } else if l == b {
        assert Pow2(0) == 1 && Pow2(1) == 2;
      }
    }
  }

  lemma {:induction false} ShorterNone(lens: seq<nat>, i: nat)
    requires i <= |lens| && forall j | 0 <= j < i :: lens[j] >= 1
    ensures Shorter(lens, i, 1) == 0
    decreases i
  {
    if i > 0 { ShorterNone(lens, i - 1); }
  }

  /** In ascending order, the words before entry `i` are the shorter ones and its equals so far. */
  lemma {:induction false} WeightSplits(lens: seq<nat>, i: nat, b: nat)
    requires i <= |lens| && forall j | 0 <= j < i :: lens[j] <= b
    ensures Weight(lens, i, b) == Shorter(lens, i, b) + Count(lens, i, b)
    decreases i
  {
    if i > 0 { WeightSplits(lens, i - 1, b); }
  }

  lemma {:induction false} ShorterStops(lens: seq<nat>, i: nat, n: nat, b: nat)
    requires i <= n <= |lens| && forall j | i <= j < n :: lens[j] >= b
    ensures Shorter(lens, n, b) == Shorter(lens, i, b)
    decreases n
  {
    if i < n { ShorterStops(lens, i, n - 1, b); }
  }

  /** Entries with the codes of section 3.3 of RFC 7932, for pairs already in order. */
  function Assigned(ps: seq<Pair>): (es: seq<Entry>)
    requires Ascending(PairLens(ps))
    ensures |es| == |ps|
  {
    var lens := PairLens(ps);
    seq(|ps|, i requires 0 <= i < |ps| => Entry(ps[i].sym, Weight(lens, i, lens[i]), lens[i]))
  }

  lemma InOrderAscends(ps: seq<Pair>)
    requires InOrder(ps)
    ensures Ascending(PairLens(ps))
  {
    forall i, j | 0 <= i <= j < |ps|
      ensures PairLens(ps)[i] <= PairLens(ps)[j]
    {
      assert Before(ps[i], ps[j]);
    }
  }

  lemma AssignedIsCanonical(ps: seq<Pair>)
    requires InOrder(ps) && forall i | 0 <= i < |ps| :: ps[i].len > 0
    ensures Ascending(PairLens(ps)) && Canonical(Assigned(ps)) && Lens(Assigned(ps)) == PairLens(ps)
  {
    InOrderAscends(ps);
    assert Lens(Assigned(ps)) == PairLens(ps);
  }

  function Absent(ps: seq<Pair>): seq<nat> {
    if ps == [] then []
    else (if ps[0].len == 0 then [ps[0].sym] else []) + Absent(ps[1..])
  }

  function FromLengths(ps: seq<Pair>): Result<seq<Entry>, HuffmanError> {
    var es := Sorted(Present(ps));
    SortedInOrder(Present(ps));
    InOrderAscends(es);
    if es == [] then
      if |Absent(ps)| == 1 then Ok([Entry(Absent(ps)[0], 0, 0)]) else Err(NotCanonical)
    else Ok(Assigned(es))
  }

  /** The code assigned by counting lengths. */
  lemma CountedCode(lens: seq<nat>, i: nat)
    requires Ascending(lens) && i < |lens|
    ensures (forall j | 0 <= j < i :: lens[j] <= lens[i])
    ensures Weight(lens, i, lens[i]) == Shorter(lens, |lens|, lens[i]) + Count(lens, i, lens[i])
  {
    assert forall j | 0 <= j < i :: lens[j] <= lens[i];
    assert forall j | i <= j < |lens| :: lens[i] <= lens[j];
    WeightSplits(lens, i, lens[i]);
    ShorterStops(lens, i, |lens|, lens[i]);
  }

  method CountLengths(lens: seq<nat>, maxLen: nat) returns (counts: array<nat>)
    requires forall i | 0 <= i < |lens| :: lens[i] <= maxLen
    ensures fresh(counts) && counts.Length == maxLen + 1
    ensures forall l | 0 <= l <= maxLen :: counts[l] == Count(lens, |lens|, l)
  {
    counts := new nat[maxLen + 1](_ => 0);
    for i := 0 to |lens|
      invariant forall l | 0 <= l <= maxLen :: counts[l] == Count(lens, i, l)
    {
      counts[lens[i]] := counts[lens[i]] + 1;
    }
  }

  /** The first code of each length. */
  method FirstCodes(lens: seq<nat>, maxLen: nat, counts: array<nat>) returns (next: array<nat>)
    requires forall i | 0 <= i < |lens| :: 1 <= lens[i] <= maxLen
    requires counts.Length == maxLen + 1
    requires forall l | 0 <= l <= maxLen :: counts[l] == Count(lens, |lens|, l)
    ensures fresh(next) && next.Length == maxLen + 2
    ensures forall b | 1 <= b <= maxLen :: next[b] == Shorter(lens, |lens|, b)
  {
    next := new nat[maxLen + 2](_ => 0);
    var code := 0;
    ShorterNone(lens, |lens|);
    NoneBelow(lens, |lens|, 0);
    for bits := 1 to maxLen + 1
      invariant bits == 1 ==> code == 0
      invariant bits > 1 ==> code == Shorter(lens, |lens|, bits - 1)
      invariant forall b | 1 <= b < bits :: next[b] == Shorter(lens, |lens|, b)
      invariant forall l | 0 <= l <= maxLen :: counts[l] == Count(lens, |lens|, l)
    {
      ShorterStep(lens, |lens|, bits - 1);
      code := 2 * (code + counts[bits - 1]);
      next[bits] := code;
    }
  }

  lemma {:induction false} NoneBelow(lens: seq<nat>, i: nat, b: nat)
    requires i <= |lens| && forall j | 0 <= j < i :: lens[j] > b
    ensures Shorter(lens, i, b) == 0 && Count(lens, i, b) == 0
    decreases i
  {
    if i > 0 { NoneBelow(lens, i - 1, b); }
  }

  method FromSymbolLengths(pairs: seq<Pair>) returns (r: Result<seq<Entry>, HuffmanError>)
    ensures r == FromLengths(pairs)
  {
    hide Sorted, Present, Absent, Weight, Count, Shorter;
    var ps := Sorted(Present(pairs));
    SortedInOrder(Present(pairs));
    InOrderAscends(ps);
    if ps == [] {
      var absent := Absent(pairs);
      return if |absent| == 1 then Ok([Entry(absent[0], 0, 0)]) else Err(NotCanonical);
    }
    PresentStays(pairs);
    var lens := PairLens(ps);
    var maxLen := lens[|lens| - 1];
    assert forall i | 0 <= i < |lens| :: lens[i] <= lens[|lens| - 1];
    var counts := CountLengths(lens, maxLen);
    var next := FirstCodes(lens, maxLen, counts);
    var out := [];
    CountNone(lens);
    for i := 0 to |ps|
      invariant |out| == i
      invariant forall j | 0 <= j < i :: out[j] == Assigned(ps)[j]
      invariant forall b | 1 <= b <= maxLen :: next[b] == Shorter(lens, |lens|, b) + Count(lens, i, b)
    {
      var len := lens[i];
      CountedCode(lens, i);
      CountNext(lens, i);
      out := out + [Entry(ps[i].sym, next[len], len)];
      next[len] := next[len] + 1;
    }
    assert out == Assigned(ps);
    r := Ok(out);
  }

  lemma CountNone(lens: seq<nat>)
    ensures forall b :: Count(lens, 0, b) == 0
  {
  }

  lemma CountNext(lens: seq<nat>, i: nat)
    requires i < |lens|
    ensures forall b :: Count(lens, i + 1, b) == Count(lens, i, b) + if lens[i] == b then 1 else 0
  {
  }

  /** Sorting keeps the lengths positive. */
  lemma PresentStays(pairs: seq<Pair>)
    ensures forall i | 0 <= i < |Sorted(Present(pairs))| :: Sorted(Present(pairs))[i].len > 0
  {
    var ps := Sorted(Present(pairs));
    SortedInOrder(Present(pairs));
    forall i | 0 <= i < |ps|
      ensures ps[i].len > 0
    {
      assert ps[i] in multiset(ps);
      assert ps[i] in multiset(Present(pairs));
    }
  }

  method DecodeSymbol(es: seq<Entry>, r: BitReader) returns (res: Result<nat, HuffmanError>)
    modifies r
    ensures match SymbolAt(es, r.buf, old(r.bitPos))
            case Ok((x, p)) => res == Ok(x) && r.bitPos == p
            case Err(e) => res == Err(e)
  {
    hide ReadAt, First;
    if |es| == 1 && es[0].len == 0 { return Ok(es[0].sym); }
    var code: nat, len: nat := 0, 0;
    var maxLen := MaxLen(es);
    while len < maxLen
      invariant Walk(es, r.buf, r.bitPos, code, len, maxLen) == SymbolAt(es, r.buf, old(r.bitPos))
      decreases maxLen - len
    {
      var b := r.ReadBits(1);
      if b.Err? { return Err(BitReaderError(b.error)); }
      code := 2 * code + b.value;
      len := len + 1;
      var found := Find(es, code, len);
      if found.Some? { return Ok(found.value); }
    }
    res := Err(InvalidCode);
  }

  method Find(es: seq<Entry>, code: nat, len: nat) returns (found: Option<nat>)
    ensures found == First(es, code, len)
  {
    for k := 0 to |es|
      invariant First(es[k..], code, len) == First(es, code, len)
    {
      if es[k].len == len && es[k].code == code { return Some(es[k].sym); }
      assert es[k..][1..] == es[k + 1..];
    }
    found := None;
  }
}
