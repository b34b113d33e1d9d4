/**
 The JSON writer of the client: escaped strings, scalar values and rows of
 records rendered as an array of objects.
 */
module JsonPrint {
  import opened Bytes
  import opened Wire
  import opened Schema
  import opened TypeDefs
  import Codec
  import Decimal

  // ---- scalars ------------------------------------------------------------------------------

  function Escaped(c: char): string {
    if c == '\"' then "\\\""
    else if c == '\\' then "\\\\"
    else if c == '\n' then "\\n"
    else if c == '\r' then "\\r"
    else if c == '\t' then "\\t"
    else if c as int < 0x20 then ['\\', 'u', '0', '0', Decimal.HexChar(c as int / 16), Decimal.HexChar(c as int % 16)]
    else [c]
  }

  function EscapedAll(s: string): string {
    if s == [] then "" else Escaped(s[0]) + EscapedAll(s[1..])
  }

  function JsonStr(s: string): string {
    "\"" + (EscapedAll(s) + "\"")
  }

  method WriteStr(s: string) returns (o: string)
    ensures o == JsonStr(s)
  {
    hide Escaped;
    o := "\"";
    for i := 0 to |s|
      invariant o + EscapedAll(s[i..]) == "\"" + EscapedAll(s)
    {
      assert s[i..][1..] == s[i + 1..];
      assert o + (Escaped(s[i]) + EscapedAll(s[i + 1..])) == o + Escaped(s[i]) + EscapedAll(s[i + 1..]);
      o := o + Escaped(s[i]);
    }
    assert o + [] == o;
    o := o + "\"";
  }

  function IntText(i: int): string {
    if i < 0 then "-" + Decimal.Dec(-i) else Decimal.Dec(i)
  }

  /** A blob without its zero padding. */
  function Trimmed(b: seq<byte>): (t: seq<byte>)
    ensures t <= b
    ensures t != [] ==> t[|t| - 1] != 0
  {
    if b == [] then [] else if b[|b| - 1] == 0 then Trimmed(b[..|b| - 1]) else b
  }

  predicate IsPrintable(b: seq<byte>) {
    forall i | 0 <= i < |b| :: 0x20 <= b[i] <= 0x7E
  }

  function Printed(b: seq<byte>): string
    requires IsPrintable(b)
  {
    seq(|b|, i requires 0 <= i < |b| => b[i] as char)
  }

  function Hex(b: seq<byte>): string {
    if b == [] then "" else [Decimal.HexChar(b[0] / 16), Decimal.HexChar(b[0] % 16)] + Hex(b[1..])
  }

  function BlobText(b: seq<byte>): string {
    var t := Trimmed(b);
    if IsPrintable(t) then Printed(t) else "0x" + Hex(t)
  }

  method FormatBlob(b: seq<byte>) returns (s: string)
    ensures s == BlobText(b)
  {
    var t := Trimmed(b);
    if IsPrintable(t) { return Printed(t); }
    s := "0x";
    for i := 0 to |t|
      invariant s + Hex(t[i..]) == "0x" + Hex(t)
    {
      assert t[i..][1..] == t[i + 1..];
      s := s + [Decimal.HexChar(t[i] / 16), Decimal.HexChar(t[i] % 16)];
    }
  }

  function JsonValue(v: Codec.Value): string {
    match v
    case Null => "null"
    case Uint(u) => IntText(u)
    case Int(i) => IntText(i)
    case Blob(b) => JsonStr(BlobText(b))
  }

  // ---- objects ----------------------------------------------------------------------------------

  function MemberText(name: string, v: Codec.Value): string {
    JsonStr(name) + (":" + JsonValue(v))
  }

  /** An object from member `i` on, with its closing brace. */
  function RestText(names: seq<string>, vals: seq<Codec.Value>, i: nat): string
    requires i <= |vals| == |names|
    decreases |vals| - i
  {
    if i == |vals| then "}"
    else (if i > 0 then "," else "") + (MemberText(names[i], vals[i]) + RestText(names, vals, i + 1))
  }

  function ObjectText(names: seq<string>, vals: seq<Codec.Value>): string
    requires |vals| == |names|
  {
    "{" + RestText(names, vals, 0)
  }

  method WriteObject(names: seq<string>, vals: seq<Codec.Value>) returns (o: string)
    requires |vals| == |names|
    ensures o == ObjectText(names, vals)
  {
    hide JsonStr, JsonValue;
    o := "{";
    for i := 0 to |vals|
      invariant o + RestText(names, vals, i) == ObjectText(names, vals)
    {
      ghost var had := o;
      if i > 0 { o := o + ","; }
      var key := WriteStr(names[i]);
      o := o + key;
      o := o + ":";
      o := o + JsonValue(vals[i]);
      ghost var rest := RestText(names, vals, i + 1);
      Joined(had, if i > 0 then "," else "", JsonStr(names[i]), ":", JsonValue(vals[i]), rest);
    }
    o := o + "}";
  }

  lemma Joined(a: string, c: string, k: string, s: string, v: string, r: string)
    ensures a + (c + ((k + (s + v)) + r)) == a + c + k + s + v + r
    ensures c == "" ==> a + c == a
  {
    assert a + c + k + s + v + r == a + c + (k + (s + v)) + r;
  }

  // ---- rows ---------------------------------------------------------------------------------------

  function Names(fields: seq<Field>): (ns: seq<string>)
    ensures |ns| == |fields|
  {
    seq(|fields|, i requires 0 <= i < |fields| => fields[i].name)
  }

  /** One record as an object; nothing if it does not decode. */
  function RecordText(fields: seq<Field>, rec: seq<byte>): Option<string> {
    if Codec.Complete(fields, rec) then Some(ObjectText(Names(fields), Codec.Decoded(fields, rec))) else None
  }

  method WriteRecord(ot: ObjectType, names: seq<string>, rec: seq<byte>) returns (o: Option<string>)
    requires names == Names(ot.fields)
    ensures o == RecordText(ot.fields, rec)
  {
    hide ObjectText;
    var vals := Codec.Decode(ot, rec);
    if vals.Err? { return None; }
    var text := WriteObject(names, vals.value);
    o := Some(text);
  }

  function Join(items: seq<string>): string {
    if items == [] then ""
    else if |items| == 1 then items[0]
    else items[0] + ("," + Join(items[1..]))
  }

  function ArrayText(items: seq<string>): string {
    "[" + (Join(items) + "]")
  }

  /** What reading length-prefixed records comes to. */
  datatype Scan = CutShort | Scanned(items: seq<string>, clean: bool, p: nat)

  function ScanFrom(fields: seq<Field>, rows: seq<byte>, p: nat, items: seq<string>): Scan
    decreases |rows| - p
  {
    if p + 4 > |rows| then Scanned(items, true, p)
    else
      var n := U32At(rows, p).value.0;
      if p + 4 + n > |rows| then CutShort
      else
        match RecordText(fields, rows[p + 4..p + 4 + n])
        case None => Scanned(items, false, p + 4 + n)
        case Some(o) => ScanFrom(fields, rows, p + 4 + n, items + [o])
  }

  function RowsText(fields: seq<Field>, rows: seq<byte>): Option<string> {
    match ScanFrom(fields, rows, 0, [])
    case CutShort => None
    case Scanned(items, clean, p) =>
      if !clean || p != |rows| then
        if rows == [] then Some("[]")
        else
          var o :- RecordText(fields, rows);
          Some(ArrayText([o]))
      else Some(ArrayText(items))
  }

  function RenderRows(typedef: seq<byte>, rows: seq<byte>): Option<string> {
    var (name, fields) :- DecodeTypeDef(typedef);
    if fields == [] then None else RowsText(FromDef(name, fields).fields, rows)
  }

  method WriteRows(typedef: seq<byte>, rows: seq<byte>) returns (r: Option<string>)
    ensures r == RenderRows(typedef, rows)
  {
    hide RecordText, DecodeTypeDef, FromLE;
    var def := ReadTypeDef(typedef);
    if def.None? { return None; }
    var ot := FromDef(def.value.0, def.value.1);
    var names := Names(ot.fields);
    if names == [] { return None; }
    var items, p, clean := [], 0, true;
    while p + 4 <= |rows| && clean
      invariant 0 <= p
      invariant clean ==> ScanFrom(ot.fields, rows, 0, []) == ScanFrom(ot.fields, rows, p, items)
      invariant !clean ==> ScanFrom(ot.fields, rows, 0, []) == Scanned(items, false, p)
      decreases clean, |rows| - p
    {
      var n := U32At(rows, p).value.0;
      p := p + 4;
      if p + n > |rows| { return None; }
      var o := WriteRecord(ot, names, rows[p..p + n]);
      p := p + n;
      if o.Some? {
        items := items + [o.value];
      } else {
        clean := false;
      }
    }
    if !clean || p != |rows| {
      if rows == [] { return Some("[]"); }
      var o := WriteRecord(ot, names, rows);
      if o.None? { return None; }
      return Some(ArrayText([o.value]));
    }
    r := Some(ArrayText(items));
  }
}
