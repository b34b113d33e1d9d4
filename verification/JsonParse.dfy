/**
 The JSON reader: a recursive-descent parser over UTF-8 bytes, and extraction of
 scalar cells by dotted path.
 */
module JsonParse {
  import opened Bytes
  import opened Utf8

  datatype Json =
    | JNull
    | JBool(b: bool)
    | JNum(text: string)
    | JStr(s: string)
    | JArray(items: seq<Json>)
    | JObject(members: seq<(string, Json)>)

  datatype ParseError =
    | NotUtf8
    | UnexpectedEnd
    | Expected(what: string)
    | BadEscape
    | BadUnicodeEscape
    | InvalidUtf8
    | TrailingData
    | TopLevelNotArray
    | NoKey(path: string, seg: string)
    | NotAnObject(path: string, seg: string)
    | NotAScalar(path: string)

  type Parsed<+T> = Result<(T, nat), ParseError>

  const QUOTE: byte := 0x22
  const BACKSLASH: byte := 0x5C
  const COMMA: byte := 0x2C
  const COLON: byte := 0x3A
  const OPEN_BRACE: byte := 0x7B
  const CLOSE_BRACE: byte := 0x7D
  const OPEN_BRACKET: byte := 0x5B
  const CLOSE_BRACKET: byte := 0x5D

  predicate IsSpace(c: byte) {
    c == 0x20 || c == 0x09 || c == 0x0A || c == 0x0D
  }

  function Ws(b: seq<byte>, i: nat): (j: nat)
    requires i <= |b|
    ensures i <= j <= |b|
    ensures j < |b| ==> !IsSpace(b[j])
    decreases |b| - i
  {
    if i < |b| && IsSpace(b[i]) then Ws(b, i + 1) else i
  }

  // ---- scalars --------------------------------------------------------------------------------

  predicate IsNumberByte(c: byte) {
    0x30 <= c <= 0x39 || c == 0x2D || c == 0x2B || c == 0x2E || c == 0x65 || c == 0x45
  }

  function NumberEnd(b: seq<byte>, i: nat): (j: nat)
    requires i <= |b|
    ensures i <= j <= |b|
    ensures forall k | i <= k < j :: IsNumberByte(b[k])
    decreases |b| - i
  {
    if i < |b| && IsNumberByte(b[i]) then NumberEnd(b, i + 1) else i
  }

  function AsciiText(b: seq<byte>): string
    requires forall i | 0 <= i < |b| :: b[i] < 0x80
  {
    seq(|b|, i requires 0 <= i < |b| => b[i] as char)
  }

  function NumberAt(b: seq<byte>, i: nat): (r: Parsed<Json>)
    requires i <= |b|
    ensures r.Ok? ==> i < r.value.1 <= |b|
  {
    var j := NumberEnd(b, i);
    if j == i then Err(Expected("value")) else Ok((JNum(AsciiText(b[i..j])), j))
  }

  function LiteralAt(b: seq<byte>, i: nat, kw: string, v: Json): (r: Parsed<Json>)
    requires i <= |b| && IsAscii(kw) && kw != []
    ensures r.Ok? ==> i < r.value.1 <= |b|
  {
    var n := |kw|;
    if i + n <= |b| && b[i..i + n] == AsciiBytes(kw) then Ok((v, i + n)) else Err(Expected(kw))
  }

  function HexDigit(c: byte): Option<nat> {
    if 0x30 <= c <= 0x39 then Some(c - 0x30)
    else if 0x61 <= c <= 0x66 then Some(c - 0x61 + 10)
    else if 0x41 <= c <= 0x46 then Some(c - 0x41 + 10)
    else None
  }

  /** Hexadecimal digits, most significant first. */
  function HexDigits(h: seq<byte>): (v: Option<nat>)
    ensures v.Some? ==> v.value < Pow16(|h|)
  {
    if h == [] then Some(0)
    else
      var hi :- HexDigits(h[..|h| - 1]);
      var d :- HexDigit(h[|h| - 1]);
      Some(16 * hi + d)
  }

  function Pow16(n: nat): (p: nat)
    ensures p > 0
  {
    if n == 0 then 1 else 16 * Pow16(n - 1)
  }

  /** Four characters as a number; a leading plus sign is allowed. */
  function HexValue(h: seq<byte>): Option<nat>
    requires |h| == 4
  {
    if h[0] == 0x2B then HexDigits(h[1..]) else HexDigits(h)
  }

  /** A code point, or the replacement character for a surrogate. */
  function ScalarOf(cp: nat): char {
    if cp < 0xD800 || 0xE000 <= cp < 0x11_0000 then cp as char else REPLACEMENT
  }

  /** The character after a backslash. */
  function EscapeAt(b: seq<byte>, i: nat): (r: Parsed<char>)
    requires i <= |b|
    ensures r.Ok? ==> i < r.value.1 <= |b|
  {
    if i >= |b| then Err(UnexpectedEnd)
    else
      var e := b[i];
      if e == QUOTE then Ok(('\"', i + 1))
      else if e == BACKSLASH then Ok(('\\', i + 1))
      else if e == 0x2F then Ok(('/', i + 1))
      else if e == 0x6E then Ok(('\n', i + 1))
      else if e == 0x74 then Ok(('\t', i + 1))
      else if e == 0x72 then Ok(('\r', i + 1))
      else if e == 0x62 then Ok(('\U{0008}', i + 1))
      else if e == 0x66 then Ok(('\U{000C}', i + 1))
      else if e == 0x75 then
        if i + 5 > |b| then Err(BadUnicodeEscape)
        else
          match HexValue(b[i + 1..i + 5])
          case None => Err(BadUnicodeEscape)
          case Some(cp) => Ok((ScalarOf(cp), i + 5))
      else Err(BadEscape)
  }

  /** The rest of a string, with `s` already read. */
  function CharsAt(b: seq<byte>, i: nat, s: string): (r: Parsed<string>)
    requires i <= |b|
    ensures r.Ok? ==> i < r.value.1 <= |b|
    decreases |b| - i
  {
    if i >= |b| then Err(UnexpectedEnd)
    else if b[i] == QUOTE then Ok((s, i + 1))
    else if b[i] == BACKSLASH then
      var (c, p) :- EscapeAt(b, i + 1);
      CharsAt(b, p, s + [c])
    else
      match StepAt(b, i)
      case Bad(_) => Err(InvalidUtf8)
      case Good(c, n) => CharsAt(b, i + n, s + [c])
  }

  function StringAt(b: seq<byte>, i: nat): (r: Parsed<string>)
    requires i < |b|
    ensures r.Ok? ==> i < r.value.1 <= |b|
  {
    CharsAt(b, i + 1, "")
  }

  // ---- values ------------------------------------------------------------------------------------

  function ValueAt(b: seq<byte>, start: nat): (r: Parsed<Json>)
    requires start <= |b|
    ensures r.Ok? ==> start < r.value.1 <= |b|
    decreases |b| - start, 1
  {
    var i := Ws(b, start);
    if i >= |b| then Err(UnexpectedEnd)
    else
      var c := b[i];
      if c == OPEN_BRACE then ObjectAt(b, i)
      else if c == OPEN_BRACKET then ArrayAt(b, i)
      else if c == QUOTE then
        var (s, p) :- StringAt(b, i);
        Ok((JStr(s), p))
      else if c == 0x74 then LiteralAt(b, i, "true", JBool(true))
      else if c == 0x66 then LiteralAt(b, i, "false", JBool(false))
      else if c == 0x6E then LiteralAt(b, i, "null", JNull)
      else NumberAt(b, i)
  }

  function ArrayAt(b: seq<byte>, i: nat): (r: Parsed<Json>)
    requires i < |b|
    ensures r.Ok? ==> i < r.value.1 <= |b|
    decreases |b| - i, 0
  {
    var j := Ws(b, i + 1);
    if j >= |b| then Err(UnexpectedEnd)
    else if b[j] == CLOSE_BRACKET then Ok((JArray([]), j + 1))
    else ItemsAt(b, j, [])
  }

  /** The items of an array from here on, with `out` already read. */
  function ItemsAt(b: seq<byte>, i: nat, out: seq<Json>): (r: Parsed<Json>)
    requires i <= |b|
    ensures r.Ok? ==> i < r.value.1 <= |b|
    decreases |b| - i, 2
  {
    var (v, p) :- ValueAt(b, i);
    var p := Ws(b, p);
    if p >= |b| then Err(UnexpectedEnd)
    else if b[p] == COMMA then ItemsAt(b, p + 1, out + [v])
    else if b[p] == CLOSE_BRACKET then Ok((JArray(out + [v]), p + 1))
    else Err(Expected(", or ]"))
  }

  function ObjectAt(b: seq<byte>, i: nat): (r: Parsed<Json>)
    requires i < |b|
    ensures r.Ok? ==> i < r.value.1 <= |b|
    decreases |b| - i, 0
  {
    var j := Ws(b, i + 1);
    if j >= |b| then Err(UnexpectedEnd)
    else if b[j] == CLOSE_BRACE then Ok((JObject([]), j + 1))
    else MembersAt(b, j, [])
  }

  /** A key, a colon and a value. */
  function MemberAt(b: seq<byte>, start: nat): (r: Parsed<(string, Json)>)
    requires start <= |b|
    ensures r.Ok? ==> start < r.value.1 <= |b|
    decreases |b| - start, 2
  {
    var i := Ws(b, start);
    if i >= |b| then Err(UnexpectedEnd)
    else if b[i] != QUOTE then Err(Expected("object key"))
    else
      var (k, p) :- StringAt(b, i);
      var p := Ws(b, p);
      if p >= |b| then Err(UnexpectedEnd)
      else if b[p] != COLON then Err(Expected(":"))
      else
        var (v, p) :- ValueAt(b, p + 1);
        Ok(((k, v), p))
  }

  /** The members of an object from here on, with `out` already read. */
  function MembersAt(b: seq<byte>, i: nat, out: seq<(string, Json)>): (r: Parsed<Json>)
    requires i <= |b|
    ensures r.Ok? ==> i < r.value.1 <= |b|
    decreases |b| - i, 3
  {
    var (m, p) :- MemberAt(b, i);
    var p := Ws(b, p);
    if p >= |b| then Err(UnexpectedEnd)
    else if b[p] == COMMA then MembersAt(b, p + 1, out + [m])
    else if b[p] == CLOSE_BRACE then Ok((JObject(out + [m]), p + 1))
    else Err(Expected(", or }"))
  }

  function Parse(b: seq<byte>): Result<Json, ParseError> {
    var i := Ws(b, 0);
    var (v, p) :- ValueAt(b, i);
    if Ws(b, p) != |b| then Err(TrailingData) else Ok(v)
  }

  // ---- the parser object ----------------------------------------------------------------------------

  class Parser {
    const b: seq<byte>
    var i: nat

    constructor (b: seq<byte>)
      ensures this.b == b && i == 0
    {
      this.b := b;
      i := 0;
    }

    method SkipSpace()
      requires i <= |b|
      modifies this
      ensures i == Ws(b, old(i))
    {
      while i < |b| && IsSpace(b[i])
        invariant i <= |b| && Ws(b, i) == Ws(b, old(i))
      {
        i := i + 1;
      }
    }

    method Number() returns (r: Result<Json, ParseError>)
      requires i <= |b|
      modifies this
      ensures match NumberAt(b, old(i))
              case Ok((v, p)) => r == Ok(v) && i == p
              case Err(e) => r == Err(e)
    {
      var start := i;
      while i < |b| && IsNumberByte(b[i])
        invariant start <= i <= |b| && NumberEnd(b, i) == NumberEnd(b, start)
      {
        i := i + 1;
      }
      if i == start { return Err(Expected("value")); }
      r := Ok(JNum(AsciiText(b[start..i])));
    }

    method Literal(kw: string, v: Json) returns (r: Result<Json, ParseError>)
      requires i <= |b| && IsAscii(kw) && kw != []
      modifies this
      ensures match LiteralAt(b, old(i), kw, v)
              case Ok((x, p)) => r == Ok(x) && i == p
              case Err(e) => r == Err(e)
    {
      if i + |kw| <= |b| && b[i..i + |kw|] == AsciiBytes(kw) {
        i := i + |kw|;
        r := Ok(v);
      } else {
        r := Err(Expected(kw));
      }
    }

    method Escape() returns (r: Result<char, ParseError>)
      requires i <= |b|
      modifies this
      ensures match EscapeAt(b, old(i))
              case Ok((c, p)) => r == Ok(c) && i == p
              case Err(e) => r == Err(e)
    {
      hide HexValue;
      if i >= |b| { return Err(UnexpectedEnd); }
      var e := b[i];
      i := i + 1;
      if e == QUOTE { return Ok('\"'); }
      if e == BACKSLASH { return Ok('\\'); }
      if e == 0x2F { return Ok('/'); }
      if e == 0x6E { return Ok('\n'); }
      if e == 0x74 { return Ok('\t'); }
      if e == 0x72 { return Ok('\r'); }
      if e == 0x62 { return Ok('\U{0008}'); }
      if e == 0x66 { return Ok('\U{000C}'); }
      if e != 0x75 { return Err(BadEscape); }
      if i + 4 > |b| { return Err(BadUnicodeEscape); }
      var cp := HexValue(b[i..i + 4]);
      if cp.None? { return Err(BadUnicodeEscape); }
      i := i + 4;
      r := Ok(ScalarOf(cp.value));
    }

    method String() returns (r: Result<string, ParseError>)
      requires i < |b|
      modifies this
      ensures match StringAt(b, old(i))
              case Ok((s, p)) => r == Ok(s) && i == p
              case Err(e) => r == Err(e)
    {
      hide EscapeAt, StepAt;
      i := i + 1;
      var s := "";
      while true
        invariant i <= |b| && CharsAt(b, i, s) == StringAt(b, old(i))
        decreases |b| - i
      {
        if i >= |b| { return Err(UnexpectedEnd); }
        var c := b[i];
        if c == QUOTE {
          i := i + 1;
          return Ok(s);
        } else if c == BACKSLASH {
          i := i + 1;
          var e := Escape();
          if e.Err? { return Err(e.error); }
          s := s + [e.value];
        } else {
          match StepAt(b, i) {
            case Bad(_) => return Err(InvalidUtf8);
            case Good(ch, n) =>
              i := i + n;
              s := s + [ch];
          }
        }
      }
    }

    method Value() returns (r: Result<Json, ParseError>)
      requires i <= |b|
      modifies this
      ensures match ValueAt(b, old(i))
              case Ok((v, p)) => r == Ok(v) && i == p
              case Err(e) => r == Err(e)
      decreases |b| - i, 1
    {
      hide StringAt, LiteralAt, NumberAt;
      SkipSpace();
      if i >= |b| { return Err(UnexpectedEnd); }
      var c := b[i];
      if c == OPEN_BRACE { r := Object(); }
      else if c == OPEN_BRACKET { r := Array(); }
      else if c == QUOTE {
        var s := String();
        if s.Err? { return Err(s.error); }
        r := Ok(JStr(s.value));
      }
      else if c == 0x74 { r := Literal("true", JBool(true)); }
      else if c == 0x66 { r := Literal("false", JBool(false)); }
      else if c == 0x6E { r := Literal("null", JNull); }
      else { r := Number(); }
    }

    method Array() returns (r: Result<Json, ParseError>)
      requires i < |b|
      modifies this
      ensures match ArrayAt(b, old(i))
              case Ok((v, p)) => r == Ok(v) && i == p
              case Err(e) => r == Err(e)
      decreases |b| - i, 0
    {
      hide ValueAt;
      i := i + 1;
      SkipSpace();
      if i >= |b| { return Err(UnexpectedEnd); }
      if b[i] == CLOSE_BRACKET {
        i := i + 1;
        return Ok(JArray([]));
      }
      var out := [];
      while true
        invariant old(i) < i <= |b| && ItemsAt(b, i, out) == ArrayAt(b, old(i))
        decreases |b| - i
      {
        var v := Value();
        if v.Err? { return Err(v.error); }
        out := out + [v.value];
        SkipSpace();
        if i >= |b| { return Err(UnexpectedEnd); }
        var c := b[i];
        if c == COMMA {
          i := i + 1;
        } else if c == CLOSE_BRACKET {
          i := i + 1;
          return Ok(JArray(out));
        } else {
          return Err(Expected(", or ]"));
        }
      }
    }

    method Member() returns (r: Result<(string, Json), ParseError>)
      requires i <= |b|
      modifies this
      ensures match MemberAt(b, old(i))
              case Ok((m, p)) => r == Ok(m) && i == p
              case Err(e) => r == Err(e)
      decreases |b| - i, 2
    {
      hide ValueAt, StringAt;
      SkipSpace();
      if i >= |b| { return Err(UnexpectedEnd); }
      if b[i] != QUOTE { return Err(Expected("object key")); }
      var k := String();
      if k.Err? { return Err(k.error); }
      SkipSpace();
      if i >= |b| { return Err(UnexpectedEnd); }
      if b[i] != COLON { return Err(Expected(":")); }
      i := i + 1;
      var v := Value();
      if v.Err? { return Err(v.error); }
      r := Ok((k.value, v.value));
    }

    method Object() returns (r: Result<Json, ParseError>)
      requires i < |b|
      modifies this
      ensures match ObjectAt(b, old(i))
              case Ok((v, p)) => r == Ok(v) && i == p
              case Err(e) => r == Err(e)
      decreases |b| - i, 0
    {
      hide MemberAt;
      i := i + 1;
      SkipSpace();
      if i >= |b| { return Err(UnexpectedEnd); }
      if b[i] == CLOSE_BRACE {
        i := i + 1;
        return Ok(JObject([]));
      }
      var out := [];
      while true
        invariant old(i) < i <= |b| && MembersAt(b, i, out) == ObjectAt(b, old(i))
        decreases |b| - i
      {
        var m := Member();
        if m.Err? { return Err(m.error); }
        out := out + [m.value];
        SkipSpace();
        if i >= |b| { return Err(UnexpectedEnd); }
        var c := b[i];
        if c == COMMA {
          i := i + 1;
        } else if c == CLOSE_BRACE {
          i := i + 1;
          return Ok(JObject(out));
        } else {
          return Err(Expected(", or }"));
        }
      }
    }
  }

  method ParseText(b: seq<byte>) returns (r: Result<Json, ParseError>)
    ensures r == Parse(b)
  {
    hide ValueAt;
    var p := new Parser(b);
    p.SkipSpace();
    var v := p.Value();
    if v.Err? { return Err(v.error); }
    p.SkipSpace();
    if p.i != |b| { return Err(TrailingData); }
    r := Ok(v.value);
  }

  // ---- cells ------------------------------------------------------------------------------------

  datatype Cell = CNull | CBool(b: bool) | CText(text: string)

  /** The parts of a path between dots. */
  function Segments(path: string): (segs: seq<string>)
    ensures segs != []
  {
    if path == [] then [""]
    else
      var rest := Segments(path[1..]);
      if path[0] == '.' then [""] + rest else [[path[0]] + rest[0]] + rest[1..]
  }

  function FindMember(ms: seq<(string, Json)>, key: string): Option<Json> {
    if ms == [] then None
    else if ms[0].0 == key then Some(ms[0].1)
    else FindMember(ms[1..], key)
  }

  function Walk(v: Json, segs: seq<string>, path: string): Result<Json, ParseError>
    decreases |segs|
  {
    if segs == [] then Ok(v)
    else
      match v
      case JObject(ms) =>
        (match FindMember(ms, segs[0])
         case None => Err(NoKey(path, segs[0]))
         case Some(x) => Walk(x, segs[1..], path))
      case _ => Err(NotAnObject(path, segs[0]))
  }

  function ScalarCell(v: Json, path: string): Result<Cell, ParseError> {
    match v
    case JNull => Ok(CNull)
    case JBool(b) => Ok(CBool(b))
    case JNum(n) => Ok(CText(n))
    case JStr(s) => Ok(CText(s))
    case _ => Err(NotAScalar(path))
  }

  function PathGet(v: Json, path: string): Result<Cell, ParseError> {
    var x :- Walk(v, Segments(path), path);
    ScalarCell(x, path)
  }

  method GetPath(v: Json, path: string) returns (r: Result<Cell, ParseError>)
    ensures r == PathGet(v, path)
  {
    var cur, segs := v, Segments(path);
    for k := 0 to |segs|
      invariant Walk(cur, segs[k..], path) == Walk(v, segs, path)
    {
      assert segs[k..][1..] == segs[k + 1..];
      match cur {
        case JObject(ms) =>
          var x := FindMember(ms, segs[k]);
          if x.None? { return Err(NoKey(path, segs[k])); }
          cur := x.value;
        case _ =>
          return Err(NotAnObject(path, segs[k]));
      }
    }
    r := ScalarCell(cur, path);
  }

  function RowOf(v: Json, cols: seq<string>): Result<seq<Cell>, ParseError> {
    if cols == [] then Ok([])
    else
      var c :- PathGet(v, cols[0]);
      var rest :- RowOf(v, cols[1..]);
      Ok([c] + rest)
  }

  function RowsOf(vs: seq<Json>, cols: seq<string>): Result<seq<seq<Cell>>, ParseError> {
    if vs == [] then Ok([])
    else
      var r :- RowOf(vs[0], cols);
      var rest :- RowsOf(vs[1..], cols);
      Ok([r] + rest)
  }

  function ExtractResult(body: seq<byte>, cols: seq<string>): Result<seq<seq<Cell>>, ParseError> {
    if FromUtf8(body).None? then Err(NotUtf8)
    else
      var v :- Parse(body);
      match v
      case JArray(items) => RowsOf(items, cols)
      case _ => Err(TopLevelNotArray)
  }

  /** What was collected, in front of what is still to come. */
  function Onto<T>(done: seq<T>, rest: Result<seq<T>, ParseError>): Result<seq<T>, ParseError> {
    match rest
    case Ok(xs) => Ok(done + xs)
    case Err(e) => Err(e)
  }

  lemma OntoStep<T>(done: seq<T>, x: T, rest: Result<seq<T>, ParseError>)
    ensures Onto([], rest) == rest
    ensures Onto(done, Onto([x], rest)) == Onto(done + [x], rest)
  {
    if rest.Ok? {
      assert [] + rest.value == rest.value;
      assert done + ([x] + rest.value) == done + [x] + rest.value;
    }
  }

  method ReadRow(v: Json, cols: seq<string>) returns (r: Result<seq<Cell>, ParseError>)
    ensures r == RowOf(v, cols)
  {
    hide PathGet;
    var row: seq<Cell> := [];
    OntoStep([], CNull, RowOf(v, cols));
    assert cols[0..] == cols;
    for k := 0 to |cols|
      invariant RowOf(v, cols) == Onto(row, RowOf(v, cols[k..]))
    {
      assert cols[k..][1..] == cols[k + 1..];
      var c := GetPath(v, cols[k]);
      if c.Err? { return Err(c.error); }
      OntoStep(row, c.value, RowOf(v, cols[k + 1..]));
      row := row + [c.value];
    }
    assert row + [] == row;
    r := Ok(row);
  }

  method Extract(body: seq<byte>, cols: seq<string>) returns (r: Result<seq<seq<Cell>>, ParseError>)
    ensures r == ExtractResult(body, cols)
  {
    hide Parse, RowOf, FromUtf8;
    if FromUtf8(body).None? { return Err(NotUtf8); }
    var v := ParseText(body);
    if v.Err? { return Err(v.error); }
    if !v.value.JArray? { return Err(TopLevelNotArray); }
    var items := v.value.items;
    var rows: seq<seq<Cell>> := [];
    OntoStep([], [], RowsOf(items, cols));
    assert items[0..] == items;
    for k := 0 to |items|
      invariant RowsOf(items, cols) == Onto(rows, RowsOf(items[k..], cols))
    {
      assert items[k..][1..] == items[k + 1..];
      var row := ReadRow(items[k], cols);
      if row.Err? { return Err(row.error); }
      OntoStep(rows, row.value, RowsOf(items[k + 1..], cols));
      rows := rows + [row.value];
    }
    assert rows + [] == rows;
    r := Ok(rows);
  }

  // ---- the index stays on character boundaries ------------------------------------------------------

  /** From this place on the bytes are well-formed text. */
  ghost predicate Boundary(b: seq<byte>, i: nat) {
    i <= |b| && DecodeFrom(b, i).Some?
  }

  lemma PastAscii(b: seq<byte>, i: nat)
    requires Boundary(b, i) && i < |b| && b[i] < 0x80
    ensures Boundary(b, i + 1)
  {
  }

  lemma {:induction false} WsBoundary(b: seq<byte>, i: nat)
    requires i <= |b| && Boundary(b, i)
    ensures Boundary(b, Ws(b, i))
    decreases |b| - i
  {
    hide DecodeFrom;
    if i < |b| && IsSpace(b[i]) {
      PastAscii(b, i);
      WsBoundary(b, i + 1);
    }
  }

  lemma {:induction false} AsciiRun(b: seq<byte>, i: nat, j: nat)
    requires Boundary(b, i) && i <= j <= |b| && forall k | i <= k < j :: b[k] < 0x80
    ensures Boundary(b, j)
    decreases j - i
  {
    hide DecodeFrom;
    if i < j {
      PastAscii(b, i);
      AsciiRun(b, i + 1, j);
    }
  }

  lemma {:induction false} HexIsAscii(h: seq<byte>)
    requires HexDigits(h).Some?
    ensures forall k | 0 <= k < |h| :: h[k] < 0x80
  {
    if h != [] { HexIsAscii(h[..|h| - 1]); }
  }

  lemma EscapeBoundary(b: seq<byte>, i: nat)
    requires Boundary(b, i)
    ensures EscapeAt(b, i).Ok? ==> Boundary(b, EscapeAt(b, i).value.1)
    ensures EscapeAt(b, i).Err? ==> EscapeAt(b, i).error != InvalidUtf8
  {
    hide DecodeFrom, HexDigits;
    if EscapeAt(b, i).Ok? {
      var p := EscapeAt(b, i).value.1;
      if b[i] == 0x75 {
        var h := b[i + 1..i + 5];
        assert h == [h[0]] + h[1..];
        if h[0] == 0x2B { HexIsAscii(h[1..]); } else { HexIsAscii(h); }
        forall k | i <= k < p
          ensures b[k] < 0x80
        {
          if k > i { assert b[k] == h[k - i - 1]; }
        }
      }
      AsciiRun(b, i, p);
    }
  }

  /** From a boundary, reading a string never meets ill-formed text and ends on a boundary. */
  lemma {:induction false} CharsBoundary(b: seq<byte>, i: nat, s: string)
    requires Boundary(b, i)
    ensures CharsAt(b, i, s).Ok? ==> Boundary(b, CharsAt(b, i, s).value.1)
    ensures CharsAt(b, i, s).Err? ==> CharsAt(b, i, s).error != InvalidUtf8
    decreases |b| - i
  {
    hide EscapeAt;
    if i < |b| {
      if b[i] == QUOTE {
        PastAscii(b, i);
      } else if b[i] == BACKSLASH {
        PastAscii(b, i);
        EscapeBoundary(b, i + 1);
        if EscapeAt(b, i + 1).Ok? {
          var (c, p) := EscapeAt(b, i + 1).value;
          CharsBoundary(b, p, s + [c]);
        }
      } else {
        var Good(c, n) := StepAt(b, i);
        CharsBoundary(b, i + n, s + [c]);
      }
    }
  }

  /** What it is for a result to have stayed on boundaries. */
  ghost predicate Stayed<T>(b: seq<byte>, r: Parsed<T>) {
    match r
    case Ok((_, p)) => Boundary(b, p)
    case Err(e) => e != InvalidUtf8
  }

  lemma ScalarBoundary(b: seq<byte>, i: nat)
    requires Boundary(b, i) && i < |b|
    ensures Stayed(b, NumberAt(b, i))
    ensures Stayed(b, LiteralAt(b, i, "true", JBool(true)))
    ensures Stayed(b, LiteralAt(b, i, "false", JBool(false)))
    ensures Stayed(b, LiteralAt(b, i, "null", JNull))
    ensures b[i] == QUOTE ==> Stayed(b, StringAt(b, i))
  {
    hide DecodeFrom, CharsAt;
    AsciiRun(b, i, NumberEnd(b, i));
    LiteralBoundary(b, i, "true", JBool(true));
    LiteralBoundary(b, i, "false", JBool(false));
    LiteralBoundary(b, i, "null", JNull);
    if b[i] == QUOTE {
      PastAscii(b, i);
      CharsBoundary(b, i + 1, "");
    }
  }

  lemma LiteralBoundary(b: seq<byte>, i: nat, kw: string, v: Json)
    requires Boundary(b, i) && IsAscii(kw) && kw != []
    ensures Stayed(b, LiteralAt(b, i, kw, v))
  {
    hide DecodeFrom;
    if LiteralAt(b, i, kw, v).Ok? {
      var j := i + |kw|;
      forall k | i <= k < j
        ensures b[k] < 0x80
      {
        assert b[i..j][k - i] == b[k];
      }
      AsciiRun(b, i, j);
    }
  }

  lemma {:induction false} ValueBoundary(b: seq<byte>, start: nat)
    requires start <= |b| && Boundary(b, start)
    ensures Stayed(b, ValueAt(b, start))
    decreases |b| - start, 1
  {
    hide DecodeFrom, StringAt, LiteralAt, NumberAt, ArrayAt, ObjectAt;
    WsBoundary(b, start);
    var i := Ws(b, start);
    if i < |b| {
      ScalarBoundary(b, i);
      if b[i] == OPEN_BRACE { ObjectBoundary(b, i); }
      if b[i] == OPEN_BRACKET { ArrayBoundary(b, i); }
    }
  }

  lemma {:induction false} ArrayBoundary(b: seq<byte>, i: nat)
    requires Boundary(b, i) && i < |b| && b[i] == OPEN_BRACKET
    ensures Stayed(b, ArrayAt(b, i))
    decreases |b| - i, 0
  {
    hide DecodeFrom, ItemsAt;
    PastAscii(b, i);
    WsBoundary(b, i + 1);
    var j := Ws(b, i + 1);
    if j < |b| {
      if b[j] == CLOSE_BRACKET { PastAscii(b, j); } else { ItemsBoundary(b, j, []); }
    }
  }

  lemma {:induction false} ItemsBoundary(b: seq<byte>, i: nat, out: seq<Json>)
    requires Boundary(b, i)
    ensures Stayed(b, ItemsAt(b, i, out))
    decreases |b| - i, 2
  {
    hide DecodeFrom, ValueAt;
    ValueBoundary(b, i);
    if ValueAt(b, i).Ok? {
      var (v, q) := ValueAt(b, i).value;
      WsBoundary(b, q);
      var p := Ws(b, q);
      if p < |b| && (b[p] == COMMA || b[p] == CLOSE_BRACKET) {
        PastAscii(b, p);
        if b[p] == COMMA { ItemsBoundary(b, p + 1, out + [v]); }
      }
    }
  }

  lemma {:induction false} ObjectBoundary(b: seq<byte>, i: nat)
    requires Boundary(b, i) && i < |b| && b[i] == OPEN_BRACE
    ensures Stayed(b, ObjectAt(b, i))
    decreases |b| - i, 0
  {
    hide DecodeFrom, MembersAt;
    PastAscii(b, i);
    WsBoundary(b, i + 1);
    var j := Ws(b, i + 1);
    if j < |b| {
      if b[j] == CLOSE_BRACE { PastAscii(b, j); } else { MembersBoundary(b, j, []); }
    }
  }

  lemma {:induction false} MemberBoundary(b: seq<byte>, start: nat)
    requires start <= |b| && Boundary(b, start)
    ensures Stayed(b, MemberAt(b, start))
    decreases |b| - start, 2
  {
    hide Boundary, ValueAt, StringAt, Ws;
    WsBoundary(b, start);
    var i := Ws(b, start);
    if i < |b| && b[i] == QUOTE {
      ScalarBoundary(b, i);
      if StringAt(b, i).Ok? {
        var q := StringAt(b, i).value.1;
        PastSeparator(b, q);
        var c := Ws(b, q);
        if c < |b| && b[c] == COLON { ValueBoundary(b, c + 1); }
      }
    }
  }

  lemma {:induction false} MembersBoundary(b: seq<byte>, i: nat, out: seq<(string, Json)>)
    requires i <= |b| && Boundary(b, i)
    ensures Stayed(b, MembersAt(b, i, out))
    decreases |b| - i, 3
  {
    hide Boundary, MemberAt, Ws;
    MemberBoundary(b, i);
    if MemberAt(b, i).Ok? {
      var (m, q) := MemberAt(b, i).value;
      PastSeparator(b, q);
      var p := Ws(b, q);
      if p < |b| && b[p] == COMMA { MembersBoundary(b, p + 1, out + [m]); }
    }
  }

  lemma PastSeparator(b: seq<byte>, i: nat)
    requires i <= |b| && Boundary(b, i)
    ensures Boundary(b, Ws(b, i))
    ensures Ws(b, i) < |b| && b[Ws(b, i)] < 0x80 ==> Boundary(b, Ws(b, i) + 1)
  {
    hide DecodeFrom;
    WsBoundary(b, i);
    if Ws(b, i) < |b| && b[Ws(b, i)] < 0x80 { PastAscii(b, Ws(b, i)); }
  }

  /** On text that is valid UTF-8 the parser only ever looks at whole characters. */
  lemma ParseSeesCharacters(b: seq<byte>)
    requires FromUtf8(b).Some?
    ensures Parse(b).Err? ==> Parse(b).error != InvalidUtf8
  {
    hide DecodeFrom, ValueAt;
    WsBoundary(b, 0);
    ValueBoundary(b, Ws(b, 0));
  }
}
