/**
 Object types and the fixed-width layout of their records:
 `[schema version: 4][field count: 2][null bitmap: 8][field data ...]`,
 padded with zeros to a power of two.
 */
module Schema {
  import opened Bytes

  const MAX_FIELDS := 64
  const NULL_BITMAP_BYTES := 8
  const SCHEMA_VER_BYTES := 4
  const HEADER_BYTES := 14
  const BITMAP_OFF := 6

  datatype FieldKind =
    | U8 | U16 | U32 | U64 | U128
    | I8 | I16 | I32 | I64 | I128
    | Bool
    | Fixed(scale: byte)
    | Char(len: u16)
    | Bytes(len: u16)
    | Timestamp
    | Ref
    | OverflowRef
  {
    function Width(): u16 {
      match this
      case U8 | I8 | Bool => 1
      case U16 | I16 => 2
      case U32 | I32 => 4
      case U64 | I64 | Timestamp => 8
      case Fixed(_) => 8
      case U128 | I128 => 16
      case Ref => 16
      case OverflowRef => 8
      case Char(n) => n
      case Bytes(n) => n
    }

    predicate IsSigned() {
      I8? || I16? || I32? || I64? || I128? || Fixed?
    }

    predicate IsBlob() {
      Char? || Bytes? || Ref? || OverflowRef?
    }
  }

  datatype Field = Field(fieldId: u16, name: string, kind: FieldKind, nullable: bool)

  datatype ObjectType = ObjectType(
    typeId: u32,
    name: string,
    schemaVer: u32,
    fields: seq<Field>,
    indexes: seq<u16>,
    unique: seq<u16>,
    fks: seq<(u16, u32, byte)>,
    checks: seq<seq<byte>>,
    triggers: seq<seq<byte>>,
    ordered: seq<u16>,
    composite: seq<seq<u16>>,
    defaults: seq<(u16, seq<byte>)>,
    serialPk: bool,
    serialFieldId: Option<u16>)

  /** A type known only by name and fields. */
  function FromDef(name: string, fields: seq<Field>): ObjectType {
    ObjectType(0, name, 1, fields, [], [], [], [], [], [], [], [], false, None)
  }

  // ---- layout --------------------------------------------------------------

  /** Where field `i` starts; for `i == |fields|`, where the data ends. */
  function Offset(fields: seq<Field>, i: nat): (o: nat)
    requires i <= |fields|
    ensures o >= HEADER_BYTES
  {
    if i == 0 then HEADER_BYTES else Offset(fields, i - 1) + fields[i - 1].kind.Width()
  }

  ghost predicate IsPow2(p: nat) {
    exists k: nat :: p == Pow2(k)
  }

  /** The least power of two that is at least `p` (itself one) and at least `n`. */
  function NextPow2From(p: nat, n: nat): (r: nat)
    requires p > 0
    ensures r >= n && r >= p
    decreases n - p
  {
    if p < n then NextPow2From(2 * p, n) else p
  }

  function NextPow2(n: nat): nat {
    NextPow2From(16, n)
  }

  function RecordSize(fields: seq<Field>): (r: nat)
    ensures r >= 16 && r >= Offset(fields, |fields|)
  {
    NextPow2(Offset(fields, |fields|))
  }

  datatype Layout = Layout(recordSize: nat, offsets: seq<nat>)

  method ComputeNextPow2(n: nat) returns (p: nat)
    ensures p == NextPow2(n)
  {
    p := 16;
    while p < n
      invariant p > 0 && NextPow2From(p, n) == NextPow2(n)
      decreases n - p
    {
      p := 2 * p;
    }
  }

  lemma FirstOffset(fields: seq<Field>)
    ensures Offset(fields, 0) == HEADER_BYTES
  {
  }

  lemma OffsetStep(fields: seq<Field>, k: nat)
    requires k < |fields|
    ensures Offset(fields, k + 1) == Offset(fields, k) + fields[k].kind.Width()
  {
  }

  method ComputeLayout(ot: ObjectType) returns (l: Layout)
    ensures |l.offsets| == |ot.fields| && l.recordSize == RecordSize(ot.fields)
    ensures forall i :: 0 <= i < |ot.fields| ==> l.offsets[i] == Offset(ot.fields, i)
  {
    hide Offset, NextPow2;
    FirstOffset(ot.fields);
    var offsets: seq<nat> := [];
    var cur := HEADER_BYTES;
    for k := 0 to |ot.fields|
      invariant cur == Offset(ot.fields, k) && |offsets| == k
      invariant forall i :: 0 <= i < k ==> offsets[i] == Offset(ot.fields, i)
    {
      OffsetStep(ot.fields, k);
      offsets := offsets + [cur];
      cur := cur + ot.fields[k].kind.Width();
    }
    var size := ComputeNextPow2(cur);
    l := Layout(size, offsets);
  }

  lemma {:induction false} NextPow2FromIsLeast(k: nat, n: nat)
    ensures var r := NextPow2From(Pow2(k), n);
            && IsPow2(r)
            && forall q: nat :: IsPow2(q) && q >= n && q >= Pow2(k) ==> r <= q
    decreases n - Pow2(k)
  {
    if Pow2(k) < n {
      NextPow2FromIsLeast(k + 1, n);
      forall q: nat | IsPow2(q) && q >= n && q >= Pow2(k)
        ensures q >= Pow2(k + 1)
      {
        var j: nat :| q == Pow2(j);
        if j <= k { Pow2Monotone(j, k); } else { Pow2Monotone(k + 1, j); }
      }
    }
  }

  /** The record size is the least power of two, from 16 up, that holds all the data. */
  lemma RecordSizeIsLeastPow2(fields: seq<Field>)
    ensures var r := RecordSize(fields);
            && IsPow2(r) && r >= 16 && r >= Offset(fields, |fields|)
            && forall q: nat :: IsPow2(q) && q >= 16 && q >= Offset(fields, |fields|) ==> r <= q
  {
    assert Pow2(4) == 16;
    NextPow2FromIsLeast(4, Offset(fields, |fields|));
  }

  /** Appending columns moves no existing column. */
  lemma {:induction false} OffsetsSurviveAppend(fields: seq<Field>, more: seq<Field>, i: nat)
    requires i <= |fields|
    ensures Offset(fields + more, i) == Offset(fields, i)
    decreases i
  {
    if i > 0 { OffsetsSurviveAppend(fields, more, i - 1); }
  }

  lemma {:induction false} OffsetsGrow(fields: seq<Field>, i: nat, j: nat)
    requires i < j <= |fields|
    ensures Offset(fields, i) + fields[i].kind.Width() <= Offset(fields, j)
    decreases j
  {
    if i + 1 < j { OffsetsGrow(fields, i, j - 1); }
  }

  // ---- finding a column -------------------------------------------------------

  predicate HasField(fields: seq<Field>, fid: u16) {
    exists i :: 0 <= i < |fields| && fields[i].fieldId == fid
  }

  /** Position of the first field with this id. */
  function FieldIndex(fields: seq<Field>, fid: u16): (r: Option<nat>)
    ensures r.None? <==> !HasField(fields, fid)
    ensures r.Some? ==> r.value < |fields| && fields[r.value].fieldId == fid
    ensures r.Some? ==> forall i :: 0 <= i < r.value ==> fields[i].fieldId != fid
  {
    if fields == [] then None
    else if fields[0].fieldId == fid then Some(0)
    else
      assert fields == [fields[0]] + fields[1..];
      match FieldIndex(fields[1..], fid)
      case None => None
      case Some(i) => Some(i + 1)
  }

  predicate DistinctIds(fields: seq<Field>) {
    forall i, j :: 0 <= i < j < |fields| ==> fields[i].fieldId != fields[j].fieldId
  }
}
