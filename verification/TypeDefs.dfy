/**
 The serialized form of a type definition: name and fields, then optional
 trailers for defaults, the serial key and foreign keys.
 */
module TypeDefs {
  import opened Bytes
  import opened Utf8
  import opened Wire
  import opened Schema

  // ---- fields ---------------------------------------------------------------------------------

  function Tag(k: FieldKind): byte {
    match k
    case U8 => 1
    case U16 => 2
    case U32 => 3
    case U64 => 4
    case U128 => 5
    case I8 => 6
    case I16 => 7
    case I32 => 8
    case I64 => 9
    case I128 => 10
    case Bool => 11
    case Fixed(_) => 12
    case Char(_) => 13
    case Bytes(_) => 14
    case Timestamp => 15
    case Ref => 16
    case OverflowRef => 17
  }

  function Arg(k: FieldKind): u16 {
    match k
    case Fixed(scale) => scale
    case Char(n) => n
    case Bytes(n) => n
    case _ => 0
  }

  function FromTag(tag: byte, arg: u16): Option<FieldKind> {
    if tag == 1 then Some(U8)
    else if tag == 2 then Some(U16)
    else if tag == 3 then Some(U32)
    else if tag == 4 then Some(U64)
    else if tag == 5 then Some(U128)
    else if tag == 6 then Some(I8)
    else if tag == 7 then Some(I16)
    else if tag == 8 then Some(I32)
    else if tag == 9 then Some(I64)
    else if tag == 10 then Some(I128)
    else if tag == 11 then Some(Bool)
    else if tag == 12 then Some(Fixed(arg % 256))
    else if tag == 13 then Some(FieldKind.Char(arg))
    else if tag == 14 then Some(FieldKind.Bytes(arg))
    else if tag == 15 then Some(Timestamp)
    else if tag == 16 then Some(Ref)
    else if tag == 17 then Some(OverflowRef)
    else None
  }

  /** Every kind is recovered from its tag and argument, and under no other tag. */
  lemma KindRoundTrip(k: FieldKind)
    ensures FromTag(Tag(k), Arg(k)) == Some(k)
    ensures forall t: byte, a: u16 :: FromTag(t, a) == Some(k) ==> t == Tag(k)
  {
  }

  function EncodeField(f: Field): seq<byte> {
    ToLE(f.fieldId, 2) +
    ([if f.nullable then 1 else 0] +
     ([Tag(f.kind)] +
      (ToLE(Arg(f.kind), 2) +
       PutStr(f.name))))
  }

  function FieldAt(b: seq<byte>, p: nat): Parsed<Field> {
    var (fieldId, p) :- U16At(b, p);
    var (nullable, p) :- ByteAt(b, p);
    var (tag, p) :- ByteAt(b, p);
    var (arg, p) :- U16At(b, p);
    var kind :- FromTag(tag, arg);
    var (name, p) :- StrAt(b, p);
    Some((Field(fieldId, name, kind, nullable != 0), p))
  }

  function DecodeField(b: seq<byte>): Option<Field> {
    var (f, _) :- FieldAt(b, 0);
    Some(f)
  }

  predicate FieldFits(f: Field) {
    |EncodeField(f)| < 0x1_0000
  }

  lemma ReadField(b: seq<byte>, p: nat, f: Field)
    requires FieldFits(f) && At(b, p, EncodeField(f))
    ensures FieldAt(b, p) == Some((f, p + |EncodeField(f)|))
  {
    hide At, ToLE, StrAt, U16At, ByteAt, FromTag, Encode;
    var n: byte := if f.nullable then 1 else 0;
    var e4 := PutStr(f.name);
    var e3 := ToLE(Arg(f.kind), 2) + e4;
    var e2 := [Tag(f.kind)] + e3;
    AtSplit(b, p, ToLE(f.fieldId, 2), [n] + e2);
    AtSplit(b, p + 2, [n], e2);
    AtSplit(b, p + 3, [Tag(f.kind)], e3);
    AtSplit(b, p + 4, ToLE(Arg(f.kind), 2), e4);
    ReadU16(b, p, f.fieldId);
    ReadByte(b, p + 2, n);
    ReadByte(b, p + 3, Tag(f.kind));
    ReadU16(b, p + 4, Arg(f.kind));
    KindRoundTrip(f.kind);
    ReadStr(b, p + 6, f.name);
  }

  /** A field behind its own length. */
  function FramedField(f: Field): seq<byte> {
    ToLE(|EncodeField(f)|, 2) + EncodeField(f)
  }

  function FramedFieldAt(b: seq<byte>, p: nat): Parsed<Field> {
    var (n, p) :- U16At(b, p);
    var (s, p) :- SliceAt(b, p, n);
    var f :- DecodeField(s);
    Some((f, p))
  }

  lemma ReadFramedField(b: seq<byte>, p: nat, f: Field)
    requires FieldFits(f) && At(b, p, FramedField(f))
    ensures FramedFieldAt(b, p) == Some((f, p + |FramedField(f)|))
  {
    hide ToLE, U16At, FieldAt, EncodeField;
    var e := EncodeField(f);
    AtSplit(b, p, ToLE(|e|, 2), e);
    ReadU16(b, p, |e|);
    assert e[0..|e|] == e;
    ReadField(e, 0, f);
  }

  lemma FramedFieldLaw(f: Field)
    requires FieldFits(f)
    ensures Inverts(FramedField(f), FramedFieldAt, f)
  {
    hide At, FramedField, FramedFieldAt, EncodeField;
    forall b: seq<byte>, p: nat | At(b, p, FramedField(f))
      ensures FramedFieldAt(b, p) == Some((f, p + |FramedField(f)|))
    {
      ReadFramedField(b, p, f);
    }
  }

  // ---- name and fields -----------------------------------------------------------------------------

  function EncodeTypeDef(name: string, fields: seq<Field>): seq<byte> {
    PutStr(name) + Counted(fields, FramedField)
  }

  function DecodeTypeDef(b: seq<byte>): Option<(string, seq<Field>)> {
    var (name, p) :- StrAt(b, 0);
    var (fields, _) :- CountedAt(b, p, FramedFieldAt);
    Some((name, fields))
  }

  predicate TypeDefFits(name: string, fields: seq<Field>) {
    Short(name) && |fields| < 0x1_0000 && forall i | 0 <= i < |fields| :: FieldFits(fields[i])
  }

  /** A blob that starts with a definition decodes to it, whatever follows. */
  lemma TypeDefRoundTrip(b: seq<byte>, name: string, fields: seq<Field>)
    requires TypeDefFits(name, fields) && At(b, 0, EncodeTypeDef(name, fields))
    ensures DecodeTypeDef(b) == Some((name, fields))
  {
    hide At, StrAt, CountedAt, Counted, PutStr, FieldFits;
    AtSplit(b, 0, PutStr(name), Counted(fields, FramedField));
    ReadStr(b, 0, name);
    forall i | 0 <= i < |fields|
      ensures Inverts(FramedField(fields[i]), FramedFieldAt, fields[i])
    {
      FramedFieldLaw(fields[i]);
    }
    ReadCounted(b, |PutStr(name)|, fields, FramedField, FramedFieldAt);
  }

  method WriteTypeDef(name: string, fields: seq<Field>) returns (b: seq<byte>)
    ensures b == EncodeTypeDef(name, fields)
  {
    b := PutStr(name);
    var body := PutCounted(fields, FramedField);
    b := b + body;
  }

  method ReadTypeDef(b: seq<byte>) returns (r: Option<(string, seq<Field>)>)
    ensures r == DecodeTypeDef(b)
  {
    var name := StrAt(b, 0);
    if name.None? { return None; }
    var fields := TakeCounted(b, name.value.1, FramedFieldAt);
    if fields.None? { return None; }
    r := Some((name.value.0, fields.value.0));
  }

  // ---- trailers --------------------------------------------------------------------------------------

  function PutDefault(d: (u16, seq<byte>)): seq<byte> {
    ToLE(d.0, 2) + (ToLE(|d.1|, 2) + d.1)
  }

  function DefaultAt(b: seq<byte>, p: nat): Parsed<(u16, seq<byte>)> {
    var (fid, p) :- U16At(b, p);
    var (n, p) :- U16At(b, p);
    var (raw, p) :- SliceAt(b, p, n);
    Some(((fid, raw), p))
  }

  predicate DefaultFits(d: (u16, seq<byte>)) {
    |d.1| < 0x1_0000
  }

  lemma ReadDefault(b: seq<byte>, p: nat, d: (u16, seq<byte>))
    requires DefaultFits(d) && At(b, p, PutDefault(d))
    ensures DefaultAt(b, p) == Some((d, p + |PutDefault(d)|))
  {
    hide At, ToLE, U16At, SliceAt;
    AtSplit(b, p, ToLE(d.0, 2), ToLE(|d.1|, 2) + d.1);
    AtSplit(b, p + 2, ToLE(|d.1|, 2), d.1);
    ReadU16(b, p, d.0);
    ReadU16(b, p + 2, |d.1|);
    ReadSlice(b, p + 4, d.1);
  }

  lemma DefaultLaw(d: (u16, seq<byte>))
    requires DefaultFits(d)
    ensures Inverts(PutDefault(d), DefaultAt, d)
  {
    hide At, PutDefault, DefaultAt;
    forall b: seq<byte>, p: nat | At(b, p, PutDefault(d))
      ensures DefaultAt(b, p) == Some((d, p + |PutDefault(d)|))
    {
      ReadDefault(b, p, d);
    }
  }

  datatype FkSpec = FkSpec(childCol: string, refTable: string, refCol: Option<string>, onDelete: byte)

  function PutRefCol(c: Option<string>): seq<byte> {
    match c
    case None => [0]
    case Some(s) => [1] + PutStr(s)
  }

  function RefColAt(b: seq<byte>, p: nat): Parsed<Option<string>> {
    var (has, p) :- ByteAt(b, p);
    if has == 1 then
      var (s, p) :- StrAt(b, p);
      Some((Some(s), p))
    else Some((None, p))
  }

  function PutFk(fk: FkSpec): seq<byte> {
    PutStr(fk.childCol) + (PutStr(fk.refTable) + (PutRefCol(fk.refCol) + [fk.onDelete]))
  }

  function FkAt(b: seq<byte>, p: nat): Parsed<FkSpec> {
    var (childCol, p) :- StrAt(b, p);
    var (refTable, p) :- StrAt(b, p);
    var (refCol, p) :- RefColAt(b, p);
    var (onDelete, p) :- ByteAt(b, p);
    Some((FkSpec(childCol, refTable, refCol, onDelete), p))
  }

  predicate FkFits(fk: FkSpec) {
    Short(fk.childCol) && Short(fk.refTable) && (fk.refCol.Some? ==> Short(fk.refCol.value))
  }

  lemma ReadRefCol(b: seq<byte>, p: nat, c: Option<string>)
    requires (c.Some? ==> Short(c.value)) && At(b, p, PutRefCol(c))
    ensures RefColAt(b, p) == Some((c, p + |PutRefCol(c)|))
  {
    hide At, PutStr, StrAt;
    match c
    case None =>
      ReadByte(b, p, 0);
    case Some(s) =>
      AtSplit(b, p, [1], PutStr(s));
      ReadByte(b, p, 1);
      ReadStr(b, p + 1, s);
  }

  lemma ReadFk(b: seq<byte>, p: nat, fk: FkSpec)
    requires FkFits(fk) && At(b, p, PutFk(fk))
    ensures FkAt(b, p) == Some((fk, p + |PutFk(fk)|))
  {
    hide At, PutStr, StrAt, PutRefCol, RefColAt, ByteAt;
    var c, t, r := PutStr(fk.childCol), PutStr(fk.refTable), PutRefCol(fk.refCol);
    AtSplit(b, p, c, t + (r + [fk.onDelete]));
    AtSplit(b, p + |c|, t, r + [fk.onDelete]);
    AtSplit(b, p + |c| + |t|, r, [fk.onDelete]);
    ReadStr(b, p, fk.childCol);
    ReadStr(b, p + |c|, fk.refTable);
    ReadRefCol(b, p + |c| + |t|, fk.refCol);
    ReadByte(b, p + |c| + |t| + |r|, fk.onDelete);
  }

  lemma FkLaw(fk: FkSpec)
    requires FkFits(fk)
    ensures Inverts(PutFk(fk), FkAt, fk)
  {
    hide At, PutFk, FkAt;
    forall b: seq<byte>, p: nat | At(b, p, PutFk(fk))
      ensures FkAt(b, p) == Some((fk, p + |PutFk(fk)|))
    {
      ReadFk(b, p, fk);
    }
  }

  const FK_TRAILER_MARKER: byte := 0xFE

  function SerialTrailer(serialField: Option<u16>): seq<byte> {
    [1] + match serialField
      case Some(fid) => [1] + ToLE(fid, 2)
      case None => [0]
  }

  /** Defaults and serial key; the defaults count is there whenever either is. */
  function EncodeFull(
      name: string, fields: seq<Field>, defaults: seq<(u16, seq<byte>)>, serialPk: bool, serialField: Option<u16>)
    : seq<byte>
  {
    EncodeTypeDef(name, fields)
    + (if defaults != [] || serialPk then Counted(defaults, PutDefault) else [])
    + (if serialPk then SerialTrailer(serialField) else [])
  }

  /** Foreign keys behind a marker; a zero defaults count anchors them when there is nothing else. */
  function FkTrailer(fks: seq<FkSpec>, anchored: bool): seq<byte> {
    if fks == [] then []
    else (if anchored then [] else ToLE(0, 2)) + ([FK_TRAILER_MARKER] + Counted(fks, PutFk))
  }

  function EncodeFullFk(
      name: string, fields: seq<Field>, defaults: seq<(u16, seq<byte>)>, serialPk: bool, serialField: Option<u16>,
      fks: seq<FkSpec>)
    : seq<byte>
  {
    EncodeFull(name, fields, defaults, serialPk, serialField) + FkTrailer(fks, defaults != [] || serialPk)
  }

  method WriteFull(
      name: string, fields: seq<Field>, defaults: seq<(u16, seq<byte>)>, serialPk: bool, serialField: Option<u16>)
    returns (b: seq<byte>)
    ensures b == EncodeFull(name, fields, defaults, serialPk, serialField)
  {
    hide EncodeTypeDef, Counted;
    b := WriteTypeDef(name, fields);
    ghost var base := b;
    if defaults != [] || serialPk {
      var ds := PutCounted(defaults, PutDefault);
      b := b + ds;
    } else {
      assert b + [] == b;
    }
    ghost var withDefaults := b;
    if serialPk {
      b := b + [1];
      match serialField {
        case Some(fid) => b := b + [1] + ToLE(fid, 2);
        case None => b := b + [0];
      }
      assert b == withDefaults + SerialTrailer(serialField);
    } else {
      assert b + [] == b;
    }
  }

  method WriteFullFk(
      name: string, fields: seq<Field>, defaults: seq<(u16, seq<byte>)>, serialPk: bool, serialField: Option<u16>,
      fks: seq<FkSpec>)
    returns (b: seq<byte>)
    ensures b == EncodeFullFk(name, fields, defaults, serialPk, serialField, fks)
  {
    hide EncodeFull, Counted;
    b := WriteFull(name, fields, defaults, serialPk, serialField);
    ghost var full := b;
    if fks != [] {
      if defaults == [] && !serialPk { b := b + ToLE(0, 2); }
      b := b + [FK_TRAILER_MARKER];
      var body := PutCounted(fks, PutFk);
      b := b + body;
      assert b == full + FkTrailer(fks, defaults != [] || serialPk);
    } else {
      assert b + [] == b;
    }
  }

  // ---- finding the trailers ---------------------------------------------------------------------------

  /** Steps over `n` length-prefixed fields without looking at them. */
  function SkipFields(b: seq<byte>, p: nat, n: nat): Option<nat>
    decreases n
  {
    if n == 0 then Some(p)
    else
      var (len, q) :- U16At(b, p);
      SkipFields(b, q + len, n - 1)
  }

  /** Where name and fields end. */
  function BaseEnd(b: seq<byte>): Option<nat> {
    var (_, p) :- StrAt(b, 0);
    var (n, p) :- U16At(b, p);
    SkipFields(b, p, n)
  }

  function SkipDefaults(b: seq<byte>, p: nat, n: nat): Option<nat>
    decreases n
  {
    if n == 0 then Some(p)
    else
      var (len, q) :- U16At(b, p + 2);
      SkipDefaults(b, q + len, n - 1)
  }

  /** Where the defaults trailer ends; nothing if there are no trailers. */
  function SerialOffset(b: seq<byte>): Option<nat> {
    var p :- BaseEnd(b);
    if p >= |b| then None
    else
      var (n, p) :- U16At(b, p);
      SkipDefaults(b, p, n)
  }

  /** Where the serial trailer ends. */
  function FkOffset(b: seq<byte>): Option<nat> {
    var p :- SerialOffset(b);
    if p < |b| && b[p] == 1 then
      var (has, p) :- ByteAt(b, p + 1);
      Some(if has == 1 then p + 2 else p)
    else Some(p)
  }

  function DefaultsOf(b: seq<byte>): seq<(u16, seq<byte>)> {
    match ParseDefaults(b)
    case Some(ds) => ds
    case None => []
  }

  function ParseDefaults(b: seq<byte>): Option<seq<(u16, seq<byte>)>> {
    var p :- BaseEnd(b);
    if p >= |b| then Some([])
    else
      var (ds, _) :- CountedAt(b, p, DefaultAt);
      Some(ds)
  }

  predicate SerialPkOf(b: seq<byte>) {
    match SerialOffset(b)
    case Some(p) => p < |b| && b[p] == 1
    case None => false
  }

  function SerialFieldOf(b: seq<byte>): Option<u16> {
    var p :- SerialOffset(b);
    var (flag, p) :- ByteAt(b, p);
    if flag != 1 then None
    else
      var (has, p) :- ByteAt(b, p);
      if has != 1 then None
      else
        var (fid, _) :- U16At(b, p);
        Some(fid)
  }

  function FksOf(b: seq<byte>): seq<FkSpec> {
    match ParseFks(b)
    case Some(fks) => fks
    case None => []
  }

  function ParseFks(b: seq<byte>): Option<seq<FkSpec>> {
    var p :- FkOffset(b);
    var (marker, p) :- ByteAt(b, p);
    if marker != FK_TRAILER_MARKER then Some([])
    else
      var (fks, _) :- CountedAt(b, p, FkAt);
      Some(fks)
  }

  method FindBaseEnd(b: seq<byte>) returns (r: Option<nat>)
    ensures r == BaseEnd(b)
  {
    hide U16At, StrAt;
    var name := StrAt(b, 0);
    if name.None? { return None; }
    var count := U16At(b, name.value.1);
    if count.None? { return None; }
    var n: nat, p: nat := count.value.0, count.value.1;
    ghost var want := SkipFields(b, p, n);
    for i := 0 to n
      invariant want == SkipFields(b, p, n - i)
    {
      var len := U16At(b, p);
      if len.None? { return None; }
      p := len.value.1 + len.value.0;
    }
    r := Some(p);
  }

  method FindSerialOffset(b: seq<byte>) returns (r: Option<nat>)
    ensures r == SerialOffset(b)
  {
    hide U16At, BaseEnd;
    var end := FindBaseEnd(b);
    if end.None? { return None; }
    if end.value >= |b| { return None; }
    var count := U16At(b, end.value);
    if count.None? { return None; }
    var n: nat, p: nat := count.value.0, count.value.1;
    ghost var want := SkipDefaults(b, p, n);
    for i := 0 to n
      invariant want == SkipDefaults(b, p, n - i)
    {
      var len := U16At(b, p + 2);
      if len.None? { return None; }
      p := len.value.1 + len.value.0;
    }
    r := Some(p);
  }

  method ReadDefaults(b: seq<byte>) returns (ds: seq<(u16, seq<byte>)>)
    ensures ds == DefaultsOf(b)
  {
    hide BaseEnd, CountedAt;
    var end := FindBaseEnd(b);
    if end.None? { return []; }
    if end.value >= |b| { return []; }
    var r := TakeCounted(b, end.value, DefaultAt);
    ds := if r.Some? then r.value.0 else [];
  }

  method ReadFks(b: seq<byte>) returns (fks: seq<FkSpec>)
    ensures fks == FksOf(b)
  {
    hide SerialOffset, CountedAt;
    var serial := FindSerialOffset(b);
    if serial.None? { return []; }
    var p := serial.value;
    if p < |b| && b[p] == 1 {
      p := p + 1;
      if p >= |b| { return []; }
      var has := b[p];
      p := p + 1;
      if has == 1 { p := p + 2; }
    }
    if p >= |b| || b[p] != FK_TRAILER_MARKER { return []; }
    var r := TakeCounted(b, p + 1, FkAt);
    fks := if r.Some? then r.value.0 else [];
  }

  // ---- the trailers do not disturb each other ---------------------------------------------------------------

  lemma {:induction false} SkipsFields(b: seq<byte>, p: nat, fields: seq<Field>)
    requires (forall i | 0 <= i < |fields| :: FieldFits(fields[i])) && At(b, p, All(fields, FramedField))
    ensures SkipFields(b, p, |fields|) == Some(p + |All(fields, FramedField)|)
    decreases |fields|
  {
    hide At, U16At, EncodeField, ToLE;
    if fields != [] {
      var f := fields[0];
      AtSplit(b, p, FramedField(f), All(fields[1..], FramedField));
      AtSplit(b, p, ToLE(|EncodeField(f)|, 2), EncodeField(f));
      ReadU16(b, p, |EncodeField(f)|);
      SkipsFields(b, p + |FramedField(f)|, fields[1..]);
    }
  }

  lemma {:induction false} SkipsDefaults(b: seq<byte>, p: nat, ds: seq<(u16, seq<byte>)>)
    requires (forall i | 0 <= i < |ds| :: DefaultFits(ds[i])) && At(b, p, All(ds, PutDefault))
    ensures SkipDefaults(b, p, |ds|) == Some(p + |All(ds, PutDefault)|)
    decreases |ds|
  {
    hide At, U16At, ToLE;
    if ds != [] {
      var d := ds[0];
      AtSplit(b, p, PutDefault(d), All(ds[1..], PutDefault));
      AtSplit(b, p, ToLE(d.0, 2), ToLE(|d.1|, 2) + d.1);
      AtSplit(b, p + 2, ToLE(|d.1|, 2), d.1);
      ReadU16(b, p + 2, |d.1|);
      SkipsDefaults(b, p + |PutDefault(d)|, ds[1..]);
    }
  }

  lemma BaseEnds(b: seq<byte>, name: string, fields: seq<Field>)
    requires TypeDefFits(name, fields) && At(b, 0, EncodeTypeDef(name, fields))
    ensures BaseEnd(b) == Some(|EncodeTypeDef(name, fields)|)
  {
    hide At, U16At, StrAt, PutStr, ToLE, All, FieldFits;
    var n := PutStr(name);
    AtSplit(b, 0, n, Counted(fields, FramedField));
    ReadStr(b, 0, name);
    AtSplit(b, |n|, ToLE(|fields|, 2), All(fields, FramedField));
    ReadU16(b, |n|, |fields|);
    SkipsFields(b, |n| + 2, fields);
  }

  predicate DefaultsFit(ds: seq<(u16, seq<byte>)>) {
    |ds| < 0x1_0000 && forall i | 0 <= i < |ds| :: DefaultFits(ds[i])
  }

  predicate FksFit(fks: seq<FkSpec>) {
    |fks| < 0x1_0000 && forall i | 0 <= i < |fks| :: FkFits(fks[i])
  }

  /** What stands behind the defaults: the serial trailer and the marked foreign keys. */
  function Behind(serialPk: bool, serialField: Option<u16>, fks: seq<FkSpec>): seq<byte> {
    SerialPart(serialPk, serialField) + FkPart(fks)
  }

  function SerialPart(serialPk: bool, serialField: Option<u16>): seq<byte> {
    if serialPk then SerialTrailer(serialField) else []
  }

  function FkPart(fks: seq<FkSpec>): seq<byte> {
    if fks == [] then [] else [FK_TRAILER_MARKER] + Counted(fks, PutFk)
  }

  /** Any blob with a trailer has the defaults count behind its base; one without is the base alone. */
  lemma BlobShape(
      name: string, fields: seq<Field>, defaults: seq<(u16, seq<byte>)>, serialPk: bool, serialField: Option<u16>,
      fks: seq<FkSpec>)
    ensures EncodeFullFk(name, fields, defaults, serialPk, serialField, fks)
         == if defaults == [] && !serialPk && fks == [] then EncodeTypeDef(name, fields)
            else EncodeTypeDef(name, fields) + (Counted(defaults, PutDefault) + Behind(serialPk, serialField, fks))
  {
    NoDefaults(defaults);
    hide EncodeTypeDef, ToLE, Counted, SerialTrailer;
    var base, ds := EncodeTypeDef(name, fields), Counted(defaults, PutDefault);
    var sp, fp := SerialPart(serialPk, serialField), FkPart(fks);
    if defaults != [] || serialPk {
      Regroup(base, ds, sp, fp);
    } else {
      Regroup(base, [], [], ToLE(0, 2) + fp);
      Regroup(base, [], [], []);
      assert [] + fp == fp;
      assert [] + ([] + (ToLE(0, 2) + fp)) == ToLE(0, 2) + fp;
      assert base + ([] + ([] + [])) == base;
    }
  }

  lemma NoDefaults(defaults: seq<(u16, seq<byte>)>)
    ensures defaults == [] ==> Counted(defaults, PutDefault) == ToLE(0, 2)
  {
    assert ToLE(0, 2) + [] == ToLE(0, 2);
  }

  lemma Regroup(a: seq<byte>, b: seq<byte>, c: seq<byte>, d: seq<byte>)
    ensures a + b + c + d == a + (b + (c + d))
  {
  }

  lemma SerialStarts(b: seq<byte>, name: string, fields: seq<Field>, defaults: seq<(u16, seq<byte>)>, rest: seq<byte>)
    requires TypeDefFits(name, fields) && DefaultsFit(defaults)
    requires b == EncodeTypeDef(name, fields) + (Counted(defaults, PutDefault) + rest)
    ensures DecodeTypeDef(b) == Some((name, fields))
    ensures DefaultsOf(b) == defaults
    ensures |rest| <= |b| && SerialOffset(b) == Some(|b| - |rest|) && At(b, |b| - |rest|, rest)
  {
    hide EncodeTypeDef, DecodeTypeDef, BaseEnd, U16At, CountedAt, ToLE, All, TypeDefFits, DefaultFits;
    var base, ds := EncodeTypeDef(name, fields), Counted(defaults, PutDefault);
    assert b[0..|b|] == b;
    AtSplit(b, 0, base, ds + rest);
    AtSplit(b, |base|, ds, rest);
    TypeDefRoundTrip(b, name, fields);
    BaseEnds(b, name, fields);
    forall i | 0 <= i < |defaults|
      ensures Inverts(PutDefault(defaults[i]), DefaultAt, defaults[i])
    {
      DefaultLaw(defaults[i]);
    }
    ReadCounted(b, |base|, defaults, PutDefault, DefaultAt);
    AtSplit(b, |base|, ToLE(|defaults|, 2), All(defaults, PutDefault));
    ReadU16(b, |base|, |defaults|);
    SkipsDefaults(b, |base| + 2, defaults);
  }

  /** Behind the defaults, the serial decoders see only the serial part. */
  lemma SerialDecodes(b: seq<byte>, p: nat, serialPk: bool, serialField: Option<u16>, fks: seq<FkSpec>)
    requires SerialOffset(b) == Some(p) && At(b, p, Behind(serialPk, serialField, fks))
    requires p + |Behind(serialPk, serialField, fks)| == |b|
    ensures SerialPkOf(b) == serialPk
    ensures SerialFieldOf(b) == if serialPk then serialField else None
    ensures FkOffset(b) == Some(p + |SerialPart(serialPk, serialField)|)
    ensures At(b, p + |SerialPart(serialPk, serialField)|, FkPart(fks))
  {
    hide SerialOffset, ToLE, U16At, Counted;
    var sp, fp := SerialPart(serialPk, serialField), FkPart(fks);
    AtSplit(b, p, sp, fp);
    if serialPk {
      AtByte(b, p, sp, 0);
      AtByte(b, p, sp, 1);
      if serialField.Some? {
        var fid := ToLE(serialField.value, 2);
        assert sp == [1, 1] + fid;
        AtSplit(b, p, [1, 1], fid);
        ReadU16(b, p + 2, serialField.value);
      }
    } else {
      assert sp + fp == fp;
      if fks != [] { AtByte(b, p, fp, 0); }
    }
  }

  lemma FksDecode(b: seq<byte>, p: nat, fks: seq<FkSpec>)
    requires FkOffset(b) == Some(p) && At(b, p, FkPart(fks)) && p + |FkPart(fks)| == |b| && FksFit(fks)
    ensures FksOf(b) == fks
  {
    hide FkOffset, CountedAt, Counted, FkFits;
    if fks != [] {
      AtSplit(b, p, [FK_TRAILER_MARKER], Counted(fks, PutFk));
      ReadByte(b, p, FK_TRAILER_MARKER);
      forall i | 0 <= i < |fks|
        ensures Inverts(PutFk(fks[i]), FkAt, fks[i])
      {
        FkLaw(fks[i]);
      }
      ReadCounted(b, p + 1, fks, PutFk, FkAt);
    }
  }

  /**
   For every combination of the four parts, each decoder recovers its own part
   from the whole blob, and name and fields decode unchanged.
   */
  lemma TrailersIndependent(
      name: string, fields: seq<Field>, defaults: seq<(u16, seq<byte>)>, serialPk: bool, serialField: Option<u16>,
      fks: seq<FkSpec>)
    requires TypeDefFits(name, fields) && DefaultsFit(defaults) && FksFit(fks)
    ensures var b := EncodeFullFk(name, fields, defaults, serialPk, serialField, fks);
            && DecodeTypeDef(b) == Some((name, fields))
            && DefaultsOf(b) == defaults
            && SerialPkOf(b) == serialPk
            && SerialFieldOf(b) == (if serialPk then serialField else None)
            && FksOf(b) == fks
  {
    hide EncodeFullFk, EncodeTypeDef, DecodeTypeDef, Behind, SerialPart, FkPart, Counted, CountedAt, TypeDefFits,
        DefaultsFit, FksFit, BaseEnd;
    var b := EncodeFullFk(name, fields, defaults, serialPk, serialField, fks);
    BlobShape(name, fields, defaults, serialPk, serialField, fks);
    if defaults == [] && !serialPk && fks == [] {
      assert b[0..|b|] == b;
      TypeDefRoundTrip(b, name, fields);
      BaseEnds(b, name, fields);
    } else {
      ThreeParts(b, name, fields, defaults, serialPk, serialField, fks);
    }
  }

  lemma ThreeParts(
      b: seq<byte>, name: string, fields: seq<Field>,
      defaults: seq<(u16, seq<byte>)>, serialPk: bool, serialField: Option<u16>, fks: seq<FkSpec>)
    requires TypeDefFits(name, fields) && DefaultsFit(defaults) && FksFit(fks)
    requires b == EncodeTypeDef(name, fields) + (Counted(defaults, PutDefault) + Behind(serialPk, serialField, fks))
    ensures DecodeTypeDef(b) == Some((name, fields))
    ensures DefaultsOf(b) == defaults
    ensures SerialPkOf(b) == serialPk
    ensures SerialFieldOf(b) == if serialPk then serialField else None
    ensures FksOf(b) == fks
  {
    hide EncodeTypeDef, DecodeTypeDef, SerialPart, FkPart, Counted, TypeDefFits, DefaultsFit, FksFit, DefaultsOf,
        SerialPkOf, SerialFieldOf, FksOf, SerialOffset, FkOffset, At;
    var rest := Behind(serialPk, serialField, fks);
    SerialStarts(b, name, fields, defaults, rest);
    var p := |b| - |rest|;
    SerialDecodes(b, p, serialPk, serialField, fks);
    FksDecode(b, p + |SerialPart(serialPk, serialField)|, fks);
  }

  /** Parts that are absent add no bytes, but for the zero count that anchors lone foreign keys. */
  lemma AbsentPartsAddNothing(name: string, fields: seq<Field>, serialField: Option<u16>, fks: seq<FkSpec>)
    ensures EncodeFullFk(name, fields, [], false, serialField, []) == EncodeTypeDef(name, fields)
    ensures |EncodeFullFk(name, fields, [], false, serialField, fks)|
         == |EncodeTypeDef(name, fields)| + if fks == [] then 0 else 2 + |FkPart(fks)|
  {
    BlobShape(name, fields, [], false, serialField, []);
    BlobShape(name, fields, [], false, serialField, fks);
  }
}
