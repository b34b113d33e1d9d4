/**
 The two halves of JSON against each other: rows rendered by the client parse
 back to the same cells.
 */
module JsonRows {
  import opened Bytes
  import opened Utf8
  import opened Wire
  import opened Schema
  import opened TypeDefs
  import Codec
  import Decimal
  import opened JsonParse
  import opened JsonPrint

  // ---- text in a stream --------------------------------------------------------------------------

  /** The text `t` stands at place `i`, in UTF-8. */
  ghost predicate Here(b: seq<byte>, i: nat, t: string) {
    At(b, i, Encode(t))
  }

  function After(i: nat, t: string): nat {
    i + |Encode(t)|
  }

  lemma HereSplit(b: seq<byte>, i: nat, s: string, t: string)
    requires Here(b, i, s + t)
    ensures Here(b, i, s) && Here(b, After(i, s), t) && After(After(i, s), t) == After(i, s + t)
  {
    hide At, Encode;
    EncodeConcat(s, t);
    AtSplit(b, i, Encode(s), Encode(t));
  }

  lemma HereChar(b: seq<byte>, i: nat, c: char)
    requires c as int < 0x80 && Here(b, i, [c])
    ensures i < |b| && b[i] == c as int && After(i, [c]) == i + 1
  {
    EncodeAscii([c]);
    AtByte(b, i, Encode([c]), 0);
  }

  lemma HereAscii(b: seq<byte>, i: nat, t: string)
    requires IsAscii(t) && Here(b, i, t)
    ensures After(i, t) == i + |t| <= |b|
    ensures b[i..i + |t|] == AsciiBytes(t)
    ensures forall k | 0 <= k < |t| :: b[i + k] == t[k] as int
  {
    EncodeAscii(t);
    assert b[i..i + |t|] == AsciiBytes(t);
    forall k | 0 <= k < |t|
      ensures b[i + k] == t[k] as int
    {
      assert b[i..i + |t|][k] == b[i + k];
    }
  }

  lemma WsStays(b: seq<byte>, i: nat)
    requires i < |b| && !IsSpace(b[i])
    ensures Ws(b, i) == i
  {
  }

  // ---- strings -------------------------------------------------------------------------------------

  lemma HexCharReads(n: nat)
    requires n < 16
    ensures Decimal.HexChar(n) as int < 0x80 && HexDigit(Decimal.HexChar(n) as int) == Some(n)
  {
  }

  lemma HexFour(h: seq<byte>, x: nat, y: nat)
    requires x < 16 && y < 16 && h == [0x30, 0x30, Decimal.HexChar(x) as int, Decimal.HexChar(y) as int]
    ensures HexValue(h) == Some(16 * x + y)
  {
    HexCharReads(x);
    HexCharReads(y);
    hide Decimal.HexChar;
    var h3, h2, h1 := h[..3], h[..2], h[..1];
    assert h3[..2] == h2 && h2[..1] == h1 && h1[..0] == [];
    assert h3[2] == h[2] && h2[1] == 0x30 && h1[0] == 0x30;
    assert HexDigits([]) == Some(0);
    assert HexDigits(h1) == Some(0);
    assert HexDigits(h2) == Some(0);
    assert HexDigits(h3) == Some(x);
  }

  /** An escaped character is read as itself. */
  lemma EscapedReads(b: seq<byte>, i: nat, c: char, acc: string)
    requires Here(b, i, Escaped(c))
    ensures After(i, Escaped(c)) <= |b|
    ensures CharsAt(b, i, acc) == CharsAt(b, After(i, Escaped(c)), acc + [c])
  {
    hide Here, Encode, CharsAt;
    if c == '\"' || c == '\\' || c == '\n' || c == '\r' || c == '\t' {
      ShortEscapeReads(b, i, c, acc);
    } else if c as int < 0x20 {
      ControlReads(b, i, c, acc);
    } else {
      PlainReads(b, i, c, acc);
    }
  }

  lemma ShortEscapeReads(b: seq<byte>, i: nat, c: char, acc: string)
    requires c == '\"' || c == '\\' || c == '\n' || c == '\r' || c == '\t'
    requires Here(b, i, Escaped(c))
    ensures After(i, Escaped(c)) <= |b|
    ensures CharsAt(b, i, acc) == CharsAt(b, After(i, Escaped(c)), acc + [c])
  {
    hide Here, Encode;
    var e := Escaped(c);
    HereAscii(b, i, e);
    assert |e| == 2 && e[0] == '\\';
    assert b[i + 0] == BACKSLASH && b[i + 1] == e[1] as int;
    assert EscapeAt(b, i + 1) == Ok((c, i + 2));
    hide EscapeAt;
  }

  lemma ControlReads(b: seq<byte>, i: nat, c: char, acc: string)
    requires c as int < 0x20 && c != '\n' && c != '\r' && c != '\t' && Here(b, i, Escaped(c))
    ensures After(i, Escaped(c)) <= |b|
    ensures CharsAt(b, i, acc) == CharsAt(b, After(i, Escaped(c)), acc + [c])
  {
    HereAscii(b, i, Escaped(c)) by { AsciiEscape(c); }
    ControlEscape(b, i, c);
    hide Escaped, EscapeAt, Here;
  }

  lemma AsciiEscape(c: char)
    requires c as int < 0x20
    ensures IsAscii(Escaped(c))
  {
  }

  lemma ControlEscape(b: seq<byte>, i: nat, c: char)
    requires c as int < 0x20 && c != '\n' && c != '\r' && c != '\t'
    requires i + 6 <= |b| && (forall k | 0 <= k < 6 :: b[i + k] == Escaped(c)[k] as int)
    ensures |Escaped(c)| == 6 && b[i] == BACKSLASH && EscapeAt(b, i + 1) == Ok((c, i + 6))
  {
    var x, y := c as int / 16, c as int % 16;
    hide Decimal.HexChar, HexValue;
    var e := Escaped(c);
    assert e[0] == '\\' && e[1] == 'u' && e[2] == '0' && e[3] == '0';
    assert e[4] == Decimal.HexChar(x) && e[5] == Decimal.HexChar(y);
    var h := b[i + 2..i + 6];
    assert h == [0x30, 0x30, Decimal.HexChar(x) as int, Decimal.HexChar(y) as int];
    HexFour(h, x, y);
  }

  lemma PlainReads(b: seq<byte>, i: nat, c: char, acc: string)
    requires c as int >= 0x20 && c != '\"' && c != '\\' && Here(b, i, [c])
    ensures After(i, [c]) <= |b|
    ensures CharsAt(b, i, acc) == CharsAt(b, After(i, [c]), acc + [c])
  {
    assert Encode([c]) == EncodeChar(c) + [] == EncodeChar(c) by { assert [c][1..] == []; }
    CharRoundTrip(b, i, c);
    AtByte(b, i, EncodeChar(c), 0);
    PlainByte(c);
    hide StepAt, EncodeChar, Encode, EscapeAt;
  }

  lemma PlainByte(c: char)
    requires c as int >= 0x20 && c != '\"' && c != '\\'
    ensures EncodeChar(c)[0] != QUOTE && EncodeChar(c)[0] != BACKSLASH
  {
  }

  lemma {:induction false} CharsRead(b: seq<byte>, i: nat, s: string, acc: string)
    requires Here(b, i, EscapedAll(s) + "\"")
    ensures i <= |b| && CharsAt(b, i, acc) == Ok((acc + s, After(i, EscapedAll(s) + "\"")))
    decreases |s|
  {
    hide Here, Escaped, Encode;
    if s == [] {
      assert EscapedAll(s) + "\"" == "\"";
      HereChar(b, i, '\"');
      assert acc + s == acc;
    } else {
      var e, rest := Escaped(s[0]), EscapedAll(s[1..]) + "\"";
      assert EscapedAll(s) + "\"" == e + rest;
      HereSplit(b, i, e, rest);
      EscapedReads(b, i, s[0], acc);
      CharsRead(b, After(i, e), s[1..], acc + [s[0]]);
      assert acc + [s[0]] + s[1..] == acc + s;
    }
  }

  /** Every string is read back from its printed form, whatever characters it holds. */
  lemma StringReads(b: seq<byte>, i: nat, s: string)
    requires Here(b, i, JsonStr(s))
    ensures i < |b| && b[i] == QUOTE && StringAt(b, i) == Ok((s, After(i, JsonStr(s))))
  {
    hide Here, EscapedAll, Encode, CharsAt;
    HereSplit(b, i, "\"", EscapedAll(s) + "\"");
    HereChar(b, i, '\"');
    CharsRead(b, i + 1, s, "");
    assert "" + s == s;
  }

  // ---- values ----------------------------------------------------------------------------------------

  function JsonOf(v: Codec.Value): Json {
    match v
    case Null => JNull
    case Uint(u) => JNum(IntText(u))
    case Int(i) => JNum(IntText(i))
    case Blob(b) => JStr(BlobText(b))
  }

  lemma {:induction false} NumberStops(b: seq<byte>, i: nat, j: nat)
    requires i <= j < |b| && (forall k | i <= k < j :: IsNumberByte(b[k])) && !IsNumberByte(b[j])
    ensures NumberEnd(b, i) == j
    decreases j - i
  {
    if i < j { NumberStops(b, i + 1, j); }
  }

  predicate IsNumeral(t: string) {
    t != [] && forall k | 0 <= k < |t| :: Decimal.IsDigit(t[k]) || t[k] == '-'
  }

  lemma IntIsNumeral(i: int)
    ensures IsNumeral(IntText(i))
  {
  }

  /** A numeral is read as its own text, up to the byte that ends it. */
  lemma NumeralReads(b: seq<byte>, i: nat, t: string)
    requires IsNumeral(t) && Here(b, i, t) && After(i, t) < |b| && !IsNumberByte(b[After(i, t)])
    ensures ValueAt(b, i) == Ok((JNum(t), After(i, t)))
  {
    assert IsAscii(t);
    HereAscii(b, i, t);
    var j := i + |t|;
    forall k | i <= k < j
      ensures IsNumberByte(b[k])
    {
      assert b[i + (k - i)] == t[k - i] as int;
    }
    NumberStops(b, i, j);
    assert b[i + 0] == t[0] as int;
    WsStays(b, i);
    assert AsciiText(AsciiBytes(t)) == t;
  }

  lemma ValueReads(b: seq<byte>, i: nat, v: Codec.Value)
    requires Here(b, i, JsonValue(v)) && After(i, JsonValue(v)) < |b| && !IsNumberByte(b[After(i, JsonValue(v))])
    ensures ValueAt(b, i) == Ok((JsonOf(v), After(i, JsonValue(v))))
  {
    match v
    case Null =>
      HereAscii(b, i, "null");
      assert b[i + 0] == 'n' as int;
      WsStays(b, i);
    case Uint(u) =>
      IntIsNumeral(u);
      hide Here, IntText, ValueAt;
      NumeralReads(b, i, IntText(u));
    case Int(n) =>
      IntIsNumeral(n);
      hide Here, IntText, ValueAt;
      NumeralReads(b, i, IntText(n));
    case Blob(x) =>
      TextReads(b, i, BlobText(x));
  }

  lemma TextReads(b: seq<byte>, i: nat, s: string)
    requires Here(b, i, JsonStr(s))
    ensures i < |b| && ValueAt(b, i) == Ok((JStr(s), After(i, JsonStr(s))))
  {
    hide Here, JsonStr, StringAt;
    StringReads(b, i, s);
    WsStays(b, i);
  }

  // ---- objects ----------------------------------------------------------------------------------------

  function MembersFrom(names: seq<string>, vals: seq<Codec.Value>, i: nat): seq<(string, Json)>
    requires i <= |vals| == |names|
    decreases |vals| - i
  {
    if i == |vals| then [] else [(names[i], JsonOf(vals[i]))] + MembersFrom(names, vals, i + 1)
  }

  lemma MembersStep(names: seq<string>, vals: seq<Codec.Value>, i: nat, out: seq<(string, Json)>)
    requires i < |vals| == |names|
    ensures out + [(names[i], JsonOf(vals[i]))] + MembersFrom(names, vals, i + 1) == out + MembersFrom(names, vals, i)
    ensures i + 1 == |vals| ==> out + [(names[i], JsonOf(vals[i]))] == out + MembersFrom(names, vals, i)
  {
  }

  /** What follows a member starts with a comma or the closing brace. */
  lemma RestStarts(b: seq<byte>, p: nat, names: seq<string>, vals: seq<Codec.Value>, i: nat)
    requires 0 < i <= |vals| == |names| && Here(b, p, RestText(names, vals, i))
    ensures p < |b| && b[p] == (if i == |vals| then CLOSE_BRACE else COMMA)
    ensures i == |vals| ==> After(p, RestText(names, vals, i)) == p + 1
    ensures i < |vals| ==>
              var rest := MemberText(names[i], vals[i]) + RestText(names, vals, i + 1);
              Here(b, p + 1, rest) && After(p + 1, rest) == After(p, RestText(names, vals, i))
  {
    hide Here, MemberText, Encode;
    if i == |vals| {
      HereChar(b, p, '}');
    } else {
      HereSplit(b, p, ",", MemberText(names[i], vals[i]) + RestText(names, vals, i + 1));
      HereChar(b, p, ',');
    }
  }

  /** One printed member, up to the byte that follows it. */
  lemma MemberReads(b: seq<byte>, p: nat, name: string, v: Codec.Value)
    requires Here(b, p, MemberText(name, v))
    requires After(p, MemberText(name, v)) < |b| && !IsNumberByte(b[After(p, MemberText(name, v))])
    ensures p < |b| && b[p] == QUOTE && StringAt(b, p).Ok? && StringAt(b, p).value.0 == name
    ensures var q := StringAt(b, p).value.1;
            q < |b| && b[q] == COLON && ValueAt(b, q + 1) == Ok((JsonOf(v), After(p, MemberText(name, v))))
  {
    hide Here, JsonStr, JsonValue, Encode, StringAt, ValueAt, JsonOf;
    HereSplit(b, p, JsonStr(name), ":" + JsonValue(v));
    StringReads(b, p, name);
    var q := After(p, JsonStr(name));
    HereSplit(b, q, ":", JsonValue(v));
    HereChar(b, q, ':');
    ValueReads(b, q + 1, v);
  }

  lemma {:induction false} MembersRead(
      b: seq<byte>, p: nat, names: seq<string>, vals: seq<Codec.Value>, i: nat, out: seq<(string, Json)>)
    requires i < |vals| == |names| && Here(b, p, MemberText(names[i], vals[i]) + RestText(names, vals, i + 1))
    ensures p <= |b|
    ensures MembersAt(b, p, out)
         == Ok((JObject(out + MembersFrom(names, vals, i)),
                After(p, MemberText(names[i], vals[i]) + RestText(names, vals, i + 1))))
    decreases |vals| - i
  {
    hide Here, MemberText, RestText, After, StringAt, ValueAt, JsonOf, MembersFrom, MembersAt;
    var m, rest := MemberText(names[i], vals[i]), RestText(names, vals, i + 1);
    HereSplit(b, p, m, rest);
    var t := After(p, m);
    RestStarts(b, t, names, vals, i + 1);
    MemberReads(b, p, names[i], vals[i]);
    OneMember(b, p, out, names[i], JsonOf(vals[i]), StringAt(b, p).value.1, t);
    MembersStep(names, vals, i, out);
    if i + 1 < |vals| {
      MembersRead(b, t + 1, names, vals, i + 1, out + [(names[i], JsonOf(vals[i]))]);
    }
  }

  /** A member and the byte after it, without spaces between. */
  lemma OneMember(b: seq<byte>, p: nat, out: seq<(string, Json)>, k: string, v: Json, q: nat, t: nat)
    requires p < |b| && b[p] == QUOTE && StringAt(b, p) == Ok((k, q))
    requires q < |b| && b[q] == COLON && ValueAt(b, q + 1) == Ok((v, t))
    requires t < |b| && (b[t] == COMMA || b[t] == CLOSE_BRACE)
    ensures MembersAt(b, p, out)
         == if b[t] == COMMA then MembersAt(b, t + 1, out + [(k, v)]) else Ok((JObject(out + [(k, v)]), t + 1))
  {
    hide StringAt, ValueAt, Ws;
    WsStays(b, p);
    WsStays(b, q);
    assert MemberAt(b, p) == Ok(((k, v), t));
    WsStays(b, t);
    hide MemberAt;
  }

  lemma ObjectReads(b: seq<byte>, p: nat, names: seq<string>, vals: seq<Codec.Value>)
    requires 0 < |vals| == |names| && Here(b, p, ObjectText(names, vals))
    ensures p < |b| && ValueAt(b, p) == Ok((JObject(MembersFrom(names, vals, 0)), After(p, ObjectText(names, vals))))
    ensures b[p] == OPEN_BRACE
  {
    hide Here, MemberText, Encode, MembersAt, MembersFrom;
    var m := MemberText(names[0], vals[0]) + RestText(names, vals, 1);
    assert RestText(names, vals, 0) == "" + m == m;
    HereSplit(b, p, "{", m);
    HereChar(b, p, '{');
    KeyStarts(b, p + 1, names, vals);
    WsStays(b, p);
    WsStays(b, p + 1);
    MembersRead(b, p + 1, names, vals, 0, []);
    assert [] + MembersFrom(names, vals, 0) == MembersFrom(names, vals, 0);
  }

  lemma KeyStarts(b: seq<byte>, p: nat, names: seq<string>, vals: seq<Codec.Value>)
    requires 0 < |vals| == |names| && Here(b, p, MemberText(names[0], vals[0]) + RestText(names, vals, 1))
    ensures p < |b| && b[p] == QUOTE
  {
    hide Here, JsonStr, JsonValue, RestText, Encode;
    HereSplit(b, p, MemberText(names[0], vals[0]), RestText(names, vals, 1));
    HereSplit(b, p, JsonStr(names[0]), ":" + JsonValue(vals[0]));
    StringReads(b, p, names[0]);
  }

  // ---- arrays of objects ---------------------------------------------------------------------------------

  function Texts(names: seq<string>, rows: seq<seq<Codec.Value>>): (ts: seq<string>)
    requires forall i | 0 <= i < |rows| :: |rows[i]| == |names|
    ensures |ts| == |rows|
  {
    seq(|rows|, i requires 0 <= i < |rows| => ObjectText(names, rows[i]))
  }

  function Objects(names: seq<string>, rows: seq<seq<Codec.Value>>): (js: seq<Json>)
    requires forall i | 0 <= i < |rows| :: |rows[i]| == |names|
    ensures |js| == |rows|
  {
    seq(|rows|, i requires 0 <= i < |rows| => JObject(MembersFrom(names, rows[i], 0)))
  }

  ghost predicate Shaped(names: seq<string>, rows: seq<seq<Codec.Value>>) {
    names != [] && forall i | 0 <= i < |rows| :: |rows[i]| == |names|
  }

  lemma JoinedText(ts: seq<string>)
    requires ts != []
    ensures Join(ts) + "]" == ts[0] + (if |ts| == 1 then "]" else "," + (Join(ts[1..]) + "]"))
  {
    if |ts| > 1 {
      var t := Join(ts[1..]);
      assert Join(ts) == ts[0] + ("," + t);
      hide Join;
      Regroup(ts[0], ",", t, "]");
    }
  }

  lemma Regroup(a: string, b: string, c: string, d: string)
    ensures a + (b + c) + d == a + (b + (c + d))
  {
  }

  lemma {:induction false} ItemsRead(
      b: seq<byte>, p: nat, names: seq<string>, rows: seq<seq<Codec.Value>>, out: seq<Json>)
    requires Shaped(names, rows) && rows != [] && Here(b, p, Join(Texts(names, rows)) + "]")
    ensures p <= |b|
    ensures ItemsAt(b, p, out) == Ok((JArray(out + Objects(names, rows)), After(p, Join(Texts(names, rows)) + "]")))
    decreases |rows|
  {
    hide Here, ObjectText, Encode, ValueAt, MembersFrom, Join;
    var ts := Texts(names, rows);
    JoinedText(ts);
    var rest := if |ts| == 1 then "]" else "," + (Join(ts[1..]) + "]");
    HereSplit(b, p, ts[0], rest);
    ObjectReads(b, p, names, rows[0]);
    var q := After(p, ts[0]);
    var o := JObject(MembersFrom(names, rows[0], 0));
    if |rows| == 1 {
      HereChar(b, q, ']');
      WsStays(b, q);
      assert out + Objects(names, rows) == out + [o];
    } else {
      HereSplit(b, q, ",", Join(ts[1..]) + "]");
      HereChar(b, q, ',');
      WsStays(b, q);
      assert ts[1..] == Texts(names, rows[1..]);
      ItemsRead(b, q + 1, names, rows[1..], out + [o]);
      assert out + [o] + Objects(names, rows[1..]) == out + Objects(names, rows);
    }
  }

  /** A printed array of objects parses to those objects. */
  lemma ArrayReads(names: seq<string>, rows: seq<seq<Codec.Value>>)
    requires Shaped(names, rows)
    ensures Parse(Encode(ArrayText(Texts(names, rows)))) == Ok(JArray(Objects(names, rows)))
  {
    if rows == [] {
      NoItems();
      assert Texts(names, rows) == [] && Objects(names, rows) == [];
    } else {
      SomeItems(names, rows);
    }
  }

  lemma NoItems()
    ensures Parse(Encode(ArrayText([]))) == Ok(JArray([]))
  {
    var t := ArrayText([]);
    assert t == "[]";
    EncodeAscii(t);
    var b := Encode(t);
    assert b == [OPEN_BRACKET, CLOSE_BRACKET];
    WsStays(b, 0);
    WsStays(b, 1);
    assert ArrayAt(b, 0) == Ok((JArray([]), 2));
  }

  lemma SomeItems(names: seq<string>, rows: seq<seq<Codec.Value>>)
    requires Shaped(names, rows) && rows != []
    ensures Parse(Encode(ArrayText(Texts(names, rows)))) == Ok(JArray(Objects(names, rows)))
  {
    hide ObjectText, Encode, MembersFrom, Here, ItemsAt, Join, Texts, Objects;
    var ts := Texts(names, rows);
    var b := Encode(ArrayText(ts));
    Stands(b, ArrayText(ts));
    HereSplit(b, 0, "[", Join(ts) + "]");
    HereChar(b, 0, '[');
    FirstBrace(b, names, rows);
    WsStays(b, 0);
    WsStays(b, 1);
    ItemsRead(b, 1, names, rows, []);
    var v := JArray(Objects(names, rows));
    assert [] + Objects(names, rows) == Objects(names, rows);
    assert After(1, Join(ts) + "]") == |b|;
    assert ArrayAt(b, 0) == Ok((v, |b|));
    assert ValueAt(b, 0) == Ok((v, |b|));
    assert Ws(b, |b|) == |b|;
  }

  lemma Stands(b: seq<byte>, t: string)
    requires b == Encode(t)
    ensures Here(b, 0, t)
  {
    assert b[0..|b|] == b;
  }

  lemma FirstBrace(b: seq<byte>, names: seq<string>, rows: seq<seq<Codec.Value>>)
    requires Shaped(names, rows) && rows != [] && Here(b, 1, Join(Texts(names, rows)) + "]")
    ensures 1 < |b| && b[1] == OPEN_BRACE
  {
    hide Here, ObjectText, Encode, Join;
    var ts := Texts(names, rows);
    JoinedText(ts);
    HereSplit(b, 1, ts[0], if |ts| == 1 then "]" else "," + (Join(ts[1..]) + "]"));
    ObjectReads(b, 1, names, rows[0]);
  }

  // ---- cells -----------------------------------------------------------------------------------------------

  /** The cell a stored value comes back as. */
  function CellOf(v: Codec.Value): Cell {
    match v
    case Null => CNull
    case Uint(u) => CText(IntText(u))
    case Int(i) => CText(IntText(i))
    case Blob(b) => CText(BlobText(b))
  }

  /** The first column of a name. */
  function Column(names: seq<string>, col: string): (k: nat)
    requires col in names
    ensures k < |names| && names[k] == col && forall j | 0 <= j < k :: names[j] != col
  {
    if names[0] == col then 0
    else
      assert names == [names[0]] + names[1..];
      1 + Column(names[1..], col)
  }

  lemma {:induction false} FindsFrom(names: seq<string>, vals: seq<Codec.Value>, i: nat, k: nat)
    requires i <= k < |vals| == |names| && forall j | i <= j < k :: names[j] != names[k]
    ensures FindMember(MembersFrom(names, vals, i), names[k]) == Some(JsonOf(vals[k]))
    decreases k - i
  {
    var ms := MembersFrom(names, vals, i);
    assert ms[0] == (names[i], JsonOf(vals[i])) && ms[1..] == MembersFrom(names, vals, i + 1);
    if i < k { FindsFrom(names, vals, i + 1, k); }
  }

  predicate DotFree(s: string) {
    '.' !in s
  }

  lemma {:induction false} OneSegment(path: string)
    ensures DotFree(path) ==> Segments(path) == [path]
    ensures !DotFree(path) ==> |Segments(path)| >= 2
  {
    if path != [] {
      OneSegment(path[1..]);
      assert path == [path[0]] + path[1..];
    }
  }

  lemma ReadsColumn(names: seq<string>, vals: seq<Codec.Value>, col: string)
    requires |vals| == |names| && col in names && DotFree(col)
    ensures PathGet(JObject(MembersFrom(names, vals, 0)), col) == Ok(CellOf(vals[Column(names, col)]))
  {
    OneSegment(col);
    FindsFrom(names, vals, 0, Column(names, col));
    hide MembersFrom, Segments, BlobText, IntText;
    var o := JObject(MembersFrom(names, vals, 0));
    assert Walk(o, [col], col) == Ok(JsonOf(vals[Column(names, col)])) by { assert [col][1..] == []; }
  }

  /** A path with a dot never names a cell of a printed row: every member is a scalar. */
  lemma DottedFails(names: seq<string>, vals: seq<Codec.Value>, col: string)
    requires |vals| == |names| && !DotFree(col)
    ensures PathGet(JObject(MembersFrom(names, vals, 0)), col).Err?
  {
    OneSegment(col);
    var segs := Segments(col);
    var ms := MembersFrom(names, vals, 0);
    if FindMember(ms, segs[0]).Some? {
      MembersAreScalars(names, vals, 0, segs[0]);
      var x := FindMember(ms, segs[0]).value;
      assert segs[1..] != [] && Walk(x, segs[1..], col).Err?;
    }
  }

  lemma {:induction false} MembersAreScalars(names: seq<string>, vals: seq<Codec.Value>, i: nat, key: string)
    requires i <= |vals| == |names| && FindMember(MembersFrom(names, vals, i), key).Some?
    ensures !FindMember(MembersFrom(names, vals, i), key).value.JObject?
    decreases |vals| - i
  {
    var ms := MembersFrom(names, vals, i);
    if i < |vals| {
      assert ms[0] == (names[i], JsonOf(vals[i])) && ms[1..] == MembersFrom(names, vals, i + 1);
      if names[i] != key { MembersAreScalars(names, vals, i + 1, key); }
    }
  }

  predicate Readable(names: seq<string>, cols: seq<string>) {
    forall j | 0 <= j < |cols| :: cols[j] in names && DotFree(cols[j])
  }

  /** The cells of one row, column by column. */
  function Cells(names: seq<string>, vals: seq<Codec.Value>, cols: seq<string>): (r: seq<Cell>)
    requires |vals| == |names| && Readable(names, cols)
    ensures |r| == |cols|
  {
    seq(|cols|, j requires 0 <= j < |cols| => CellOf(vals[Column(names, cols[j])]))
  }

  lemma {:induction false} RowReads(names: seq<string>, vals: seq<Codec.Value>, cols: seq<string>)
    requires |vals| == |names| && Readable(names, cols)
    ensures RowOf(JObject(MembersFrom(names, vals, 0)), cols) == Ok(Cells(names, vals, cols))
    decreases |cols|
  {
    hide MembersFrom, PathGet, CellOf;
    if cols == [] {
      assert Cells(names, vals, cols) == [];
    } else {
      ReadsColumn(names, vals, cols[0]);
      RowReads(names, vals, cols[1..]);
      assert [Cells(names, vals, cols)[0]] + Cells(names, vals, cols[1..]) == Cells(names, vals, cols);
    }
  }

  function Table(names: seq<string>, rows: seq<seq<Codec.Value>>, cols: seq<string>): (r: seq<seq<Cell>>)
    requires Shaped(names, rows) && Readable(names, cols)
    ensures |r| == |rows|
  {
    seq(|rows|, i requires 0 <= i < |rows| => Cells(names, rows[i], cols))
  }

  lemma {:induction false} RowsRead(names: seq<string>, rows: seq<seq<Codec.Value>>, cols: seq<string>)
    requires Shaped(names, rows) && Readable(names, cols)
    ensures RowsOf(Objects(names, rows), cols) == Ok(Table(names, rows, cols))
    decreases |rows|
  {
    hide MembersFrom, RowOf, Cells, Readable;
    if rows == [] {
      assert Table(names, rows, cols) == [];
    } else {
      RowReads(names, rows[0], cols);
      RowsRead(names, rows[1..], cols);
      assert Objects(names, rows)[1..] == Objects(names, rows[1..]);
      assert [Table(names, rows, cols)[0]] + Table(names, rows[1..], cols) == Table(names, rows, cols);
    }
  }

  // ---- whole results -----------------------------------------------------------------------------------------

  function PutFrame(rec: seq<byte>): seq<byte> {
    ToLE(|rec|, 4) + rec
  }

  /** Records as the server sends them: each behind its length. */
  function Frames(recs: seq<seq<byte>>): seq<byte> {
    All(recs, PutFrame)
  }

  ghost predicate Sound(fields: seq<Field>, recs: seq<seq<byte>>) {
    forall i | 0 <= i < |recs| :: |recs[i]| < 0x1_0000_0000 && Codec.Complete(fields, recs[i])
  }

  function Values(fields: seq<Field>, recs: seq<seq<byte>>): (rows: seq<seq<Codec.Value>>)
    requires Sound(fields, recs)
    ensures |rows| == |recs| && forall i | 0 <= i < |rows| :: |rows[i]| == |fields|
  {
    seq(|recs|, i requires 0 <= i < |recs| => Codec.Decoded(fields, recs[i]))
  }

  lemma {:induction false} Scans(fields: seq<Field>, rows: seq<byte>, p: nat, recs: seq<seq<byte>>, items: seq<string>)
    requires Sound(fields, recs) && At(rows, p, Frames(recs)) && p + |Frames(recs)| == |rows|
    ensures ScanFrom(fields, rows, p, items)
         == Scanned(items + Texts(Names(fields), Values(fields, recs)), true, |rows|)
    decreases |recs|
  {
    hide ToLE, U32At, Codec.Complete, Codec.Decoded, ObjectText, Names;
    if recs == [] {
      assert items + Texts(Names(fields), Values(fields, recs)) == items;
    } else {
      var rec := recs[0];
      AtSplit(rows, p, PutFrame(rec), Frames(recs[1..]));
      AtSplit(rows, p, ToLE(|rec|, 4), rec);
      ReadU32(rows, p, |rec|);
      var text := ObjectText(Names(fields), Values(fields, recs)[0]);
      var q := p + |PutFrame(rec)|;
      assert Sound(fields, recs[1..]) by { Tail(fields, recs); }
      Scans(fields, rows, q, recs[1..], items + [text]);
      assert Values(fields, recs)[1..] == Values(fields, recs[1..]);
      assert items + [text] + Texts(Names(fields), Values(fields, recs[1..]))
          == items + Texts(Names(fields), Values(fields, recs));
    }
  }

  lemma Tail(fields: seq<Field>, recs: seq<seq<byte>>)
    requires Sound(fields, recs) && recs != []
    ensures Sound(fields, recs[1..])
  {
  }

  /**
   Rows rendered as JSON parse back to the same cells in the same order, for any
   records that decode, any column names and any choice of dot-free columns.
   */
  lemma RenderedRowsParse(typedef: seq<byte>, name: string, fields: seq<Field>, recs: seq<seq<byte>>, cols: seq<string>)
    requires DecodeTypeDef(typedef) == Some((name, fields)) && fields != []
    requires Sound(fields, recs) && Readable(Names(fields), cols)
    ensures RenderRows(typedef, Frames(recs)).Some?
    ensures ExtractResult(Encode(RenderRows(typedef, Frames(recs)).value), cols)
         == Ok(Table(Names(fields), Values(fields, recs), cols))
  {
    hide DecodeTypeDef, ScanFrom, Frames, Parse, RowsOf, Sound, Readable, Texts, Names, Encode, FromUtf8, Table;
    var rows, names, vals := Frames(recs), Names(fields), Values(fields, recs);
    assert rows[0..|rows|] == rows;
    Scans(fields, rows, 0, recs, []);
    assert [] + Texts(names, vals) == Texts(names, vals);
    var text := ArrayText(Texts(names, vals));
    assert RenderRows(typedef, rows) == Some(text);
    ArrayReads(names, vals);
    RoundTrip(text);
    RowsRead(names, vals, cols);
  }

  /** With distinct column names, reading all of them gives each value under its own name. */
  lemma DistinctColumns(names: seq<string>, vals: seq<Codec.Value>, k: nat)
    requires |vals| == |names| && k < |names| && forall i, j | 0 <= i < j < |names| :: names[i] != names[j]
    ensures Column(names, names[k]) == k
  {
    var c := Column(names, names[k]);
    assert names[c] == names[k];
  }

  /** A column can be read back by its name if and only if the name has no dot. */
  lemma ReadableNames(names: seq<string>, vals: seq<Codec.Value>, col: string)
    requires |vals| == |names| && col in names
    ensures PathGet(JObject(MembersFrom(names, vals, 0)), col) == Ok(CellOf(vals[Column(names, col)])) <==> DotFree(col)
  {
    hide MembersFrom, PathGet;
    if DotFree(col) { ReadsColumn(names, vals, col); } else { DottedFails(names, vals, col); }
  }
}
