/**
 LOAD_FIELD and the record decoder are two separate readers of one format.
 They agree on every stored row, under its own schema or a wider one.
 */
module Loads {
  import opened Bytes
  import opened Schema
  import opened Expr
  import Codec

  lemma StoredRowIsCodecRecord(ot: ObjectType, values: seq<Codec.Value>, wide: seq<Field>)
    requires Codec.Storable(ot.fields, values) && 0 < |ot.fields| <= MAX_FIELDS
    requires Codec.Extends(wide, ot.fields)
    ensures var rec := Codec.Record(ot, values);
            |rec| >= 16 && Codec.StoredCount(rec) == |ot.fields| && IsCodecRecord(wide, rec)
  {
    Codec.RecordCount(ot, values);
  }

  /** Both readers turn the same raw bytes into corresponding values. */
  ghost predicate Corresponds(v: Value, d: Codec.Value) {
    match d
    case Null => v == VNull
    case Int(i) => v == VInt(i)
    case Blob(b) => v == VBytes(b)
    case Uint(u) => v.VInt? && (v.n == u <==> u < TWO127) && (u >= TWO127 ==> v.n == u - TWO128)
  }

  lemma RawCorresponds(kind: FieldKind, raw: seq<byte>)
    requires |raw| == kind.Width()
    ensures Corresponds(ValueOfRaw(kind, raw), Codec.ValueFromRaw(kind, raw))
  {
    hide Codec.SignExtend, Codec.ZeroExtend, Codec.U128FromLE;
  }

  lemma FirstWithId(fields: seq<Field>, i: nat)
    requires i < |fields| && DistinctIds(fields)
    ensures FieldIndex(fields, fields[i].fieldId) == Some(i)
  {
  }

  /** On a record of codec shape the two readers look at the same bits and bytes. */
  lemma ReadersAgree(fields: seq<Field>, rec: seq<byte>, i: nat)
    requires i < |fields| && |rec| >= HEADER_BYTES && IsCodecRecord(fields, rec)
    requires i < Codec.StoredCount(rec) ==>
               i < MAX_FIELDS && Offset(fields, i) + fields[i].kind.Width() <= |rec|
    ensures Codec.DecodeAt(fields, rec, i).Some?
    ensures Corresponds(LoadAt(fields, rec, i), Codec.DecodeAt(fields, rec, i).value)
  {
    hide IsCodecRecord, ValueOfRaw, Codec.ValueFromRaw, BitOf, Offset;
    if i < Codec.StoredCount(rec) {
      var off, w := Offset(fields, i), fields[i].kind.Width();
      RawCorresponds(fields[i].kind, rec[off..off + w]);
    }
  }

  /**
   Loading a column of a stored row gives what decoding the row gives there:
   NULL exactly where decoding gives NULL, equal bytes and signed integers, and
   an unsigned integer exactly when it is below 2^127.
   */
  lemma LoadAgreesWithDecode(ot: ObjectType, values: seq<Codec.Value>, wide: seq<Field>, i: nat)
    requires Codec.Storable(ot.fields, values) && 0 < |ot.fields| <= MAX_FIELDS
    requires Codec.Extends(wide, ot.fields) && DistinctIds(wide) && i < |wide|
    ensures var rec := Codec.Record(ot, values);
            Codec.Complete(wide, rec)
            && Corresponds(Load(wide, rec, wide[i].fieldId), Codec.Decoded(wide, rec)[i])
  {
    var rec := Codec.Record(ot, values);
    Codec.UpProjection(ot, values, wide);
    StoredRowIsCodecRecord(ot, values, wide);
    FirstWithId(wide, i);
    hide Codec.Record, IsCodecRecord, LoadAt, Codec.DecodeAt, Codec.StoredCount, Offset;
    if i < |ot.fields| {
      Codec.RecordSlice(ot, values, i);
      Codec.ExtendsOffsets(wide, ot.fields, i);
      assert wide[i] == wide[..|ot.fields|][i];
    }
    ReadersAgree(wide, rec, i);
  }
}
