/**
 Encoding rows into fixed-width records and decoding them, possibly under a
 schema that has gained columns since the record was written.
 */
module Codec {
  import opened Bytes
  import opened Schema

  datatype Value = Null | Uint(u: u128) | Int(i: i128) | Blob(b: seq<byte>)

  datatype CodecError =
    | ArityMismatch(expected: nat, got: nat)
    | NullInNonNullable(field: nat)
    | BlobTooLong(field: nat, max: nat, got: nat)
    | ShortRecord
      // The original aborts with an index error at this field.
    | Panics(field: nat)

  // ---- one field ------------------------------------------------------------

  /** The bytes field data of width `w` holds for `v`; NULL is stored as zeros. */
  function RawOf(w: nat, v: Value): (raw: seq<byte>)
    requires v.Blob? ==> |v.b| <= w
    ensures |raw| == w
  {
    match v
    case Null => Repeat(0, w)
    case Uint(u) => ToLE(u, w)
    case Int(i) => ToLE(ToUnsigned(i), w)
    case Blob(b) => b + Repeat(0, w - |b|)
  }

  /** Sixteen bytes: the raw bytes, then their sign. */
  function SignExtend(raw: seq<byte>): (le: seq<byte>)
    requires 0 < |raw| <= 16
    ensures |le| == 16
  {
    raw + Repeat(if raw[|raw| - 1] >= 128 then 255 else 0, 16 - |raw|)
  }

  function ZeroExtend(raw: seq<byte>): (le: seq<byte>)
    ensures |le| == 16
  {
    var n := if |raw| < 16 then |raw| else 16;
    raw[..n] + Repeat(0, 16 - n)
  }

  function U128FromLE(le: seq<byte>): u128
    requires |le| == 16
  {
    Pow256Small();
    FromLE(le)
  }

  function ValueFromRaw(kind: FieldKind, raw: seq<byte>): Value
    requires |raw| == kind.Width()
  {
    if kind.IsSigned() then Int(ToSigned(U128FromLE(SignExtend(raw))))
    else if kind.IsBlob() then Blob(raw)
    else Uint(U128FromLE(ZeroExtend(raw)))
  }

  // ---- encoding -----------------------------------------------------------------

  function FieldError(fields: seq<Field>, values: seq<Value>, i: nat): (e: Option<CodecError>)
    requires i < |fields| == |values|
  {
    var w := fields[i].kind.Width();
    match values[i]
    case Null =>
      if !fields[i].nullable then Some(NullInNonNullable(i))
      else if i >= MAX_FIELDS then Some(Panics(i))
      else None
    case Uint(_) => if w > 16 then Some(Panics(i)) else None
    case Int(_) => if w > 16 then Some(Panics(i)) else None
    case Blob(b) => if |b| > w then Some(BlobTooLong(i, w, |b|)) else None
  }

  /** The error of the first field, from `i` on, that cannot be stored. */
  function FirstError(fields: seq<Field>, values: seq<Value>, i: nat): (e: Option<CodecError>)
    requires i <= |fields| == |values|
    ensures e.None? <==> forall k | i <= k < |fields| :: FieldError(fields, values, k).None?
    decreases |fields| - i
  {
    if i == |fields| then None
    else if FieldError(fields, values, i).Some? then FieldError(fields, values, i)
    else FirstError(fields, values, i + 1)
  }

  predicate Storable(fields: seq<Field>, values: seq<Value>) {
    |fields| == |values| && FirstError(fields, values, 0).None?
  }

  /** Bit `k` is set when value `k`, among the first `n`, is NULL. */
  function NullBitmap(values: seq<Value>, n: nat): (bm: seq<byte>)
    requires n <= |values|
    ensures |bm| == NULL_BITMAP_BYTES
    decreases n
  {
    if n == 0 then Repeat(0, NULL_BITMAP_BYTES)
    else
      var bm := NullBitmap(values, n - 1);
      if values[n - 1].Null? && n - 1 < MAX_FIELDS
      then bm[(n - 1) / 8 := SetBit(bm[(n - 1) / 8], (n - 1) % 8)]
      else bm
  }

  /** The data of the first `n` fields, in order. */
  function Data(fields: seq<Field>, values: seq<Value>, n: nat): (d: seq<byte>)
    requires Storable(fields, values) && n <= |fields|
    ensures |d| == Offset(fields, n) - HEADER_BYTES
    decreases n
  {
    if n == 0 then []
    else
      assert FieldError(fields, values, n - 1).None?;
      Data(fields, values, n - 1) + RawOf(fields[n - 1].kind.Width(), values[n - 1])
  }

  function Header(ot: ObjectType): (h: seq<byte>)
    ensures |h| == BITMAP_OFF
  {
    ToLE(ot.schemaVer, 4) + ToLE(|ot.fields|, 2)
  }

  function Record(ot: ObjectType, values: seq<Value>): (rec: seq<byte>)
    requires Storable(ot.fields, values)
    ensures |rec| == RecordSize(ot.fields)
  {
    var n := |ot.fields|;
    Header(ot) + NullBitmap(values, n) + Data(ot.fields, values, n)
    + Repeat(0, RecordSize(ot.fields) - Offset(ot.fields, n))
  }

  function EncodeResult(ot: ObjectType, values: seq<Value>): Result<seq<byte>, CodecError> {
    if |values| != |ot.fields| then Err(ArityMismatch(|ot.fields|, |values|))
    else match FirstError(ot.fields, values, 0)
      case Some(e) => Err(e)
      case None => Ok(Record(ot, values))
  }

  method CopyInto(buf: array<byte>, off: nat, src: seq<byte>)
    requires off + |src| <= buf.Length
    modifies buf
    ensures buf[..] == old(buf[..])[..off] + src + old(buf[..])[off + |src|..]
  {
    ghost var was := buf[..];
    for k := 0 to |src|
      invariant buf[..] == was[..off] + src[..k] + was[off + k..]
    {
      buf[off + k] := src[k];
    }
    assert src[..|src|] == src;
  }

  lemma {:induction false} ToLEPrefix(v: nat, n: nat, w: nat)
    requires w <= n
    ensures ToLE(v, n)[..w] == ToLE(v, w)
    decreases n
  {
    if w > 0 {
      ToLEPrefix(v / 256, n - 1, w - 1);
      assert ToLE(v, n)[..w] == [v % 256] + ToLE(v / 256, n - 1)[..w - 1];
    }
  }

  /** Header, an empty bitmap and the data of the first `i` fields. */
  ghost function Written(ot: ObjectType, values: seq<Value>, i: nat): (b: seq<byte>)
    requires Storable(ot.fields, values) && i <= |ot.fields|
    ensures |b| == Offset(ot.fields, i)
  {
    Header(ot) + Repeat(0, NULL_BITMAP_BYTES) + Data(ot.fields, values, i)
  }

  /** The whole buffer at that point. */
  ghost function Filled(ot: ObjectType, values: seq<Value>, i: nat): (b: seq<byte>)
    requires Storable(ot.fields, values) && i <= |ot.fields|
    requires Offset(ot.fields, i) <= RecordSize(ot.fields)
    ensures |b| == RecordSize(ot.fields)
  {
    Written(ot, values, i) + Repeat(0, RecordSize(ot.fields) - Offset(ot.fields, i))
  }

  /** A buffer with `put` copied over it at `off`. */
  function Spliced(b: seq<byte>, off: nat, put: seq<byte>): (s: seq<byte>)
    requires off + |put| <= |b|
    ensures |s| == |b|
  {
    b[..off] + put + b[off + |put|..]
  }

  lemma Splice(head: seq<byte>, z: nat, put: seq<byte>, w: nat)
    requires |put| <= w <= z
    ensures Spliced(head + Repeat(0, z), |head|, put) == head + (put + Repeat(0, w - |put|)) + Repeat(0, z - w)
  {
  }

  /** The bytes copied into the buffer for one field. */
  function Put(w: nat, v: Value): (put: seq<byte>)
    requires v.Blob? ==> |v.b| <= w
    requires v.Int? || v.Uint? ==> w <= 16
    ensures |put| <= w
  {
    match v
    case Null => []
    case Uint(u) => ToLE(u, 16)[..w]
    case Int(i) => ToLE(ToUnsigned(i), 16)[..w]
    case Blob(b) => b
  }

  lemma PutIsRaw(w: nat, v: Value)
    requires v.Blob? ==> |v.b| <= w
    requires v.Int? || v.Uint? ==> w <= 16
    ensures RawOf(w, v) == Put(w, v) + Repeat(0, w - |Put(w, v)|)
  {
    hide ToLE;
    match v
    case Null =>
    case Uint(u) => ToLEPrefix(u, 16, w);
    case Int(i) => ToLEPrefix(ToUnsigned(i), 16, w);
    case Blob(_) =>
  }

  /** Copying them where field `i` starts stores field `i`. */
  lemma FillNext(ot: ObjectType, values: seq<Value>, i: nat)
    requires Storable(ot.fields, values) && i < |ot.fields|
    requires FieldError(ot.fields, values, i).None?
    requires Offset(ot.fields, i) + ot.fields[i].kind.Width() == Offset(ot.fields, i + 1) <= RecordSize(ot.fields)
    ensures Spliced(Filled(ot, values, i), Offset(ot.fields, i), Put(ot.fields[i].kind.Width(), values[i]))
         == Filled(ot, values, i + 1)
  {
    hide *;
    StorableField(ot.fields, values, i);
    PutFits(ot.fields, values, i);
    FilledIs(ot, values, i);
    FilledIs(ot, values, i + 1);
    var w := ot.fields[i].kind.Width();
    PutIsRaw(w, values[i]);
    WrittenStep(ot, values, i);
    Splice(Written(ot, values, i), RecordSize(ot.fields) - Offset(ot.fields, i), Put(w, values[i]), w);
  }

  lemma PutFits(fields: seq<Field>, values: seq<Value>, i: nat)
    requires i < |fields| == |values| && FieldError(fields, values, i).None?
    ensures values[i].Blob? ==> |values[i].b| <= fields[i].kind.Width()
    ensures values[i].Int? || values[i].Uint? ==> fields[i].kind.Width() <= 16
  {
  }

  lemma FilledIs(ot: ObjectType, values: seq<Value>, i: nat)
    requires Storable(ot.fields, values) && i <= |ot.fields|
    requires Offset(ot.fields, i) <= RecordSize(ot.fields)
    ensures Filled(ot, values, i) == Written(ot, values, i) + Repeat(0, RecordSize(ot.fields) - Offset(ot.fields, i))
  {
    hide Written, RecordSize, Offset, Repeat, Storable;
  }

  lemma WrittenStep(ot: ObjectType, values: seq<Value>, i: nat)
    requires Storable(ot.fields, values) && i < |ot.fields|
    requires FieldError(ot.fields, values, i).None?
    ensures Written(ot, values, i + 1)
            == Written(ot, values, i) + RawOf(ot.fields[i].kind.Width(), values[i])
  {
    hide RawOf, Header, Offset;
  }

  lemma FillFirst(ot: ObjectType, values: seq<Value>)
    requires Storable(ot.fields, values)
    ensures ToLE(ot.schemaVer, 4) + ToLE(|ot.fields|, 2) + Repeat(0, RecordSize(ot.fields) - BITMAP_OFF)
            == Filled(ot, values, 0)
  {
    hide ToLE, NextPow2From;
    assert Data(ot.fields, values, 0) == [];
  }

  lemma FillLast(ot: ObjectType, values: seq<Value>)
    requires Storable(ot.fields, values)
    ensures var n := |ot.fields|; var was := Filled(ot, values, n);
            was[..BITMAP_OFF] + NullBitmap(values, n) + was[HEADER_BYTES..] == Record(ot, values)
  {
    hide ToLE, Data, NextPow2From, NullBitmap;
  }

  /** The room of field `i` ends within the record. */
  lemma RoomFor(fields: seq<Field>, i: nat)
    requires i < |fields|
    ensures Offset(fields, i) + fields[i].kind.Width() == Offset(fields, i + 1) <= RecordSize(fields)
  {
    OffsetsGrow(fields, i, |fields|);
  }

  /** One turn of the encoding loop: copy the field's bytes, or mark it NULL. */
  method StoreField(fields: seq<Field>, values: seq<Value>, i: nat, off: nat,
                    buf: array<byte>, bitmap: seq<byte>)
    returns (r: Result<seq<byte>, CodecError>)
    requires i < |fields| == |values| && |bitmap| == NULL_BITMAP_BYTES
    requires off + fields[i].kind.Width() <= buf.Length
    modifies buf
    ensures match FieldError(fields, values, i)
            case Some(e) => r == Err(e)
            case None =>
              var put := Put(fields[i].kind.Width(), values[i]); var was := old(buf[..]);
              && buf[..] == Spliced(was, off, put)
              && r == Ok(if values[i].Null? then bitmap[i / 8 := SetBit(bitmap[i / 8], i % 8)] else bitmap)
  {
    hide ToLE;
    var w := fields[i].kind.Width();
    match values[i]
    case Null =>
      if !fields[i].nullable {
        return Err(NullInNonNullable(i));
      }
      if i >= MAX_FIELDS {
        return Err(Panics(i));
      }
      assert buf[..] == buf[..][..off] + [] + buf[..][off..];
      return Ok(bitmap[i / 8 := SetBit(bitmap[i / 8], i % 8)]);
    case Uint(u) =>
      if w > 16 {
        return Err(Panics(i));
      }
      CopyInto(buf, off, ToLE(u, 16)[..w]);
      return Ok(bitmap);
    case Int(v) =>
      if w > 16 {
        return Err(Panics(i));
      }
      CopyInto(buf, off, ToLE(ToUnsigned(v), 16)[..w]);
      return Ok(bitmap);
    case Blob(b) =>
      if |b| > w {
        return Err(BlobTooLong(i, w, |b|));
      }
      CopyInto(buf, off, b);
      return Ok(bitmap);
  }

  lemma ZerosFrom(n: nat, k: nat)
    requires k <= n
    ensures Repeat(0, n)[k..] == Repeat(0, n - k)
  {
  }

  /** A zeroed buffer that holds schema version and field count. */
  method StartRecord(ot: ObjectType, size: nat) returns (buf: array<byte>)
    requires size >= BITMAP_OFF
    ensures fresh(buf) && buf.Length == size
    ensures buf[..] == ToLE(ot.schemaVer, 4) + ToLE(|ot.fields|, 2) + Repeat(0, size - BITMAP_OFF)
  {
    hide ToLE;
    buf := new byte[size](_ => 0);
    var ver, count := ToLE(ot.schemaVer, 4), ToLE(|ot.fields|, 2);
    assert buf[..] == Repeat(0, size);
    CopyInto(buf, 0, ver);
    assert buf[..] == ver + Repeat(0, size - SCHEMA_VER_BYTES) by { ZerosFrom(size, SCHEMA_VER_BYTES); }
    CopyInto(buf, SCHEMA_VER_BYTES, count);
    ZerosFrom(size - SCHEMA_VER_BYTES, 2);
    assert (ver + Repeat(0, size - SCHEMA_VER_BYTES))[BITMAP_OFF..] == Repeat(0, size - SCHEMA_VER_BYTES)[2..];
  }

  method Encode(ot: ObjectType, values: seq<Value>) returns (r: Result<seq<byte>, CodecError>)
    ensures r == EncodeResult(ot, values)
  {
    hide ToLE, Put, Filled, Record, RecordSize, FieldError, SetBit;
    if |values| != |ot.fields| {
      return Err(ArityMismatch(|ot.fields|, |values|));
    }
    var layout := ComputeLayout(ot);
    var buf := StartRecord(ot, layout.recordSize);
    var bitmap: seq<byte> := Repeat(0, NULL_BITMAP_BYTES);
    ghost var fine := FirstError(ot.fields, values, 0).None?;
    if fine { FillFirst(ot, values); }
    for i := 0 to |ot.fields|
      invariant FirstError(ot.fields, values, 0) == FirstError(ot.fields, values, i)
      invariant bitmap == NullBitmap(values, i)
      invariant buf.Length == RecordSize(ot.fields) >= Offset(ot.fields, i)
      invariant fine ==> buf[..] == Filled(ot, values, i)
    {
      RoomFor(ot.fields, i);
      var s := StoreField(ot.fields, values, i, layout.offsets[i], buf, bitmap);
      if s.Err? {
        return Err(s.error);
      }
      if fine { FillNext(ot, values, i); }
      NullableFits(ot.fields, values, i);
      bitmap := s.value;
    }
    if fine { FillLast(ot, values); }
    CopyInto(buf, BITMAP_OFF, bitmap);
    r := Ok(buf[..]);
  }

  lemma NullableFits(fields: seq<Field>, values: seq<Value>, i: nat)
    requires i < |fields| == |values| && FieldError(fields, values, i).None?
    ensures values[i].Null? ==> i < MAX_FIELDS
  {
  }

  // ---- decoding --------------------------------------------------------------------

  function StoredCount(rec: seq<byte>): nat
    requires |rec| >= BITMAP_OFF
  {
    FromLE(rec[SCHEMA_VER_BYTES..BITMAP_OFF])
  }

  /** Value of field `i` of a record, `None` when the record is too short to hold it. */
  function DecodeAt(fields: seq<Field>, rec: seq<byte>, i: nat): Option<Value>
    requires i < |fields| && |rec| >= HEADER_BYTES
  {
    var off, w := Offset(fields, i), fields[i].kind.Width();
    if i >= StoredCount(rec) then Some(Null)
    else if i / 8 < NULL_BITMAP_BYTES && BitOf(rec[BITMAP_OFF + i / 8], i % 8) then Some(Null)
    else if off + w > |rec| then None
    else Some(ValueFromRaw(fields[i].kind, rec[off..off + w]))
  }

  predicate Complete(fields: seq<Field>, rec: seq<byte>) {
    |rec| >= HEADER_BYTES && forall i | 0 <= i < |fields| :: DecodeAt(fields, rec, i).Some?
  }

  function Decoded(fields: seq<Field>, rec: seq<byte>): seq<Value>
    requires Complete(fields, rec)
  {
    seq(|fields|, i requires 0 <= i < |fields| => DecodeAt(fields, rec, i).value)
  }

  method Decode(ot: ObjectType, rec: seq<byte>) returns (r: Result<seq<Value>, CodecError>)
    ensures r == if Complete(ot.fields, rec) then Ok(Decoded(ot.fields, rec)) else Err(ShortRecord)
  {
    hide FromLE, BitOf, ValueFromRaw, Offset, RecordSize;
    if |rec| < HEADER_BYTES {
      return Err(ShortRecord);
    }
    var storedFc := FromLE(rec[SCHEMA_VER_BYTES..BITMAP_OFF]);
    var bitmap := rec[BITMAP_OFF..HEADER_BYTES];
    var layout := ComputeLayout(ot);
    var out: seq<Value> := [];
    for i := 0 to |ot.fields|
      invariant |out| == i
      invariant forall k | 0 <= k < i :: DecodeAt(ot.fields, rec, k) == Some(out[k])
    {
      var off := layout.offsets[i];
      var w := ot.fields[i].kind.Width();
      if i >= storedFc {
        out := out + [Null];
      } else if i / 8 < |bitmap| && BitOf(bitmap[i / 8], i % 8) {
        out := out + [Null];
      } else {
        if off + w > |rec| {
          assert DecodeAt(ot.fields, rec, i).None?;
          return Err(ShortRecord);
        }
        out := out + [ValueFromRaw(ot.fields[i].kind, rec[off..off + w])];
      }
    }
    assert out == Decoded(ot.fields, rec);
    r := Ok(out);
  }

  // ---- what is in a record -------------------------------------------------------------

  lemma {:induction false} BitmapBits(values: seq<Value>, n: nat, k: nat)
    requires n <= |values| && k < MAX_FIELDS
    ensures BitOf(NullBitmap(values, n)[k / 8], k % 8) == (k < n && values[k].Null?)
    decreases n
  {
    hide PutBit, BitOf;
    if n == 0 {
      ZeroBits(k % 8);
    } else {
      var m := n - 1;
      var bm := NullBitmap(values, m);
      BitmapBits(values, m, k);
      if values[m].Null? && m < MAX_FIELDS {
        PutBitBits(bm[m / 8], m % 8, true, k % 8);
        assert NullBitmap(values, n)[k / 8]
               == if k / 8 == m / 8 then SetBit(bm[m / 8], m % 8) else bm[k / 8];
      }
    }
  }

  lemma SliceLeft(a: seq<byte>, b: seq<byte>, x: nat, y: nat)
    requires x <= y <= |a|
    ensures (a + b)[x..y] == a[x..y]
  {
  }

  lemma {:induction false} DataSlice(fields: seq<Field>, values: seq<Value>, n: nat, i: nat)
    requires Storable(fields, values) && i < n <= |fields|
    requires FieldError(fields, values, i).None?
    ensures Offset(fields, i) + fields[i].kind.Width() <= Offset(fields, n)
    ensures var a := Offset(fields, i) - HEADER_BYTES; var w := fields[i].kind.Width();
            Data(fields, values, n)[a..a + w] == RawOf(w, values[i])
    decreases n
  {
    hide RawOf, NextPow2From;
    OffsetsGrow(fields, i, n);
    assert FieldError(fields, values, n - 1).None?;
    if i < n - 1 {
      DataSlice(fields, values, n - 1, i);
      var a := Offset(fields, i) - HEADER_BYTES;
      SliceLeft(Data(fields, values, n - 1), RawOf(fields[n - 1].kind.Width(), values[n - 1]),
                a, a + fields[i].kind.Width());
    }
  }

  lemma RecordCount(ot: ObjectType, values: seq<Value>)
    requires Storable(ot.fields, values) && |ot.fields| <= MAX_FIELDS
    ensures |Record(ot, values)| >= 16 && StoredCount(Record(ot, values)) == |ot.fields|
  {
    hide ToLE, FromLE, NullBitmap, Data, Offset, Repeat, Pow256;
    assert Header(ot)[SCHEMA_VER_BYTES..BITMAP_OFF] == ToLE(|ot.fields|, 2);
    assert Record(ot, values)[SCHEMA_VER_BYTES..BITMAP_OFF] == Header(ot)[SCHEMA_VER_BYTES..BITMAP_OFF];
    Pow256Small();
    SmallLE(|ot.fields|, 2);
  }

  lemma RecordBit(ot: ObjectType, values: seq<Value>, k: nat)
    requires Storable(ot.fields, values) && k < MAX_FIELDS
    ensures |Record(ot, values)| >= 16
    ensures BitOf(Record(ot, values)[BITMAP_OFF + k / 8], k % 8) == (k < |ot.fields| && values[k].Null?)
  {
    hide RecordSize, Offset, Data, NullBitmap, Header, Repeat;
    var n := |ot.fields|;
    BitmapBits(values, n, k);
    var bitmap := NullBitmap(values, n);
    var rest := Data(ot.fields, values, n) + Repeat(0, RecordSize(ot.fields) - Offset(ot.fields, n));
    assert Record(ot, values) == Header(ot) + (bitmap + rest);
    assert Record(ot, values)[BITMAP_OFF + k / 8] == bitmap[k / 8];
  }

  lemma RecordParts(ot: ObjectType, values: seq<Value>) returns (head: seq<byte>, pad: seq<byte>)
    requires Storable(ot.fields, values)
    ensures |head| == HEADER_BYTES && Record(ot, values) == head + Data(ot.fields, values, |ot.fields|) + pad
  {
    var n := |ot.fields|;
    head, pad := Header(ot) + NullBitmap(values, n), Repeat(0, RecordSize(ot.fields) - Offset(ot.fields, n));
  }

  lemma RecordSlice(ot: ObjectType, values: seq<Value>, i: nat)
    requires Storable(ot.fields, values) && i < |ot.fields|
    ensures FieldError(ot.fields, values, i).None?
    ensures var rec := Record(ot, values); var off := Offset(ot.fields, i); var w := ot.fields[i].kind.Width();
            off + w <= |rec| && rec[off..off + w] == RawOf(w, values[i])
  {
    hide *;
    StorableField(ot.fields, values, i);
    DataSlice(ot.fields, values, |ot.fields|, i);
    var head, pad := RecordParts(ot, values);
    var w := ot.fields[i].kind.Width();
    InMiddle(Record(ot, values), head, Data(ot.fields, values, |ot.fields|), pad,
             Offset(ot.fields, i), w, RawOf(w, values[i]));
  }

  lemma StorableField(fields: seq<Field>, values: seq<Value>, i: nat)
    requires Storable(fields, values) && i < |fields|
    ensures |fields| == |values| && FieldError(fields, values, i).None?
    ensures values[i].Blob? ==> |values[i].b| <= fields[i].kind.Width()
  {
  }

  lemma InMiddle(rec: seq<byte>, a: seq<byte>, b: seq<byte>, c: seq<byte>, off: nat, w: nat, raw: seq<byte>)
    requires rec == a + b + c && |a| == HEADER_BYTES <= off && off + w <= |a| + |b|
    requires b[off - HEADER_BYTES..off - HEADER_BYTES + w] == raw
    ensures off + w <= |rec| && rec[off..off + w] == raw
  {
  }

  // ---- round trip, under the same schema or one that has gained columns ----------------

  ghost predicate Extends(wide: seq<Field>, fields: seq<Field>) {
    |fields| <= |wide| && wide[..|fields|] == fields
  }

  lemma ExtendsOffsets(wide: seq<Field>, fields: seq<Field>, i: nat)
    requires Extends(wide, fields) && i <= |fields|
    ensures Offset(wide, i) == Offset(fields, i)
  {
    assert wide == fields + wide[|fields|..];
    OffsetsSurviveAppend(fields, wide[|fields|..], i);
  }

  /** Half the range of a `w`-byte integer. */
  function Half(w: nat): int
    requires w > 0
  {
    128 * Pow256(w - 1)
  }

  /** `v` is a value a column of this kind can hold without loss. */
  predicate Fits(kind: FieldKind, v: Value) {
    match v
    case Null => true
    case Uint(u) => !kind.IsSigned() && !kind.IsBlob() && u < Pow256(kind.Width())
    case Int(i) => kind.IsSigned() && -Half(kind.Width()) <= i < Half(kind.Width())
    case Blob(b) => kind.IsBlob() && |b| <= kind.Width()
  }

  /** Blobs come back at full column width. */
  function Padded(kind: FieldKind, v: Value): Value {
    if v.Blob? && |v.b| <= kind.Width() then Blob(v.b + Repeat(0, kind.Width() - |v.b|)) else v
  }

  lemma TopByte(lo: int, p: int, top: int)
    requires 0 <= lo < p && 0 <= top < 256
    ensures top >= 128 <==> lo + p * top >= 128 * p
  {
    if top >= 128 {
      assert p * top >= p * 128;
    } else {
      assert p * top <= p * 127;
    }
  }

  /** The sign bit of the last byte splits the range in half. */
  lemma SignByte(raw: seq<byte>)
    requires 0 < |raw|
    ensures raw[|raw| - 1] >= 128 <==> FromLE(raw) >= Half(|raw|)
  {
    hide FromLE, Pow256;
    var w := |raw|;
    assert raw == raw[..w - 1] + [raw[w - 1]];
    FromLEConcat(raw[..w - 1], [raw[w - 1]]);
    OneByte(raw[w - 1]);
    TopByte(FromLE(raw[..w - 1]), Pow256(w - 1), FromLE([raw[w - 1]]));
  }

  lemma OneByte(x: byte)
    ensures FromLE([x]) == x
  {
    assert [x][1..] == [];
  }

  lemma SixteenBytes(w: nat)
    requires w <= 16
    ensures Pow256(w) * Pow256(16 - w) == TWO128
    ensures Pow256(w) <= TWO128
  {
    Pow256Add(w, 16 - w);
    Pow256Small();
    MulAtLeast(Pow256(w), Pow256(16 - w));
  }

  lemma ExtendOnes(raw: seq<byte>)
    requires |raw| <= 16
    ensures FromLE(raw + Repeat(255, 16 - |raw|)) == FromLE(raw) + TWO128 - Pow256(|raw|)
  {
    hide FromLE, Pow256;
    FromLEConcat(raw, Repeat(255, 16 - |raw|));
    FromLEOnes(16 - |raw|);
    SixteenBytes(|raw|);
    AllOnes(Pow256(|raw|), FromLE(Repeat(255, 16 - |raw|)), Pow256(16 - |raw|));
  }

  lemma {:induction false} ExtendZeros(raw: seq<byte>, n: nat)
    ensures FromLE(raw + Repeat(0, n)) == FromLE(raw)
  {
    hide Repeat;
    if raw == [] {
      assert raw + Repeat(0, n) == Repeat(0, n);
      FromLEZeros(n);
    } else {
      assert (raw + Repeat(0, n))[1..] == raw[1..] + Repeat(0, n);
      ExtendZeros(raw[1..], n);
    }
  }

  lemma AllOnes(p: int, f: int, q: int)
    requires f == q - 1 && p * q == TWO128
    ensures p * f == TWO128 - p
  {
    assert p * f == p * q - p;
  }

  /** What sign extension computes, in integers. */
  lemma SignedRead(raw: seq<byte>)
    requires 0 < |raw| <= 16
    ensures ToSigned(U128FromLE(SignExtend(raw)))
            == if FromLE(raw) >= Half(|raw|) then FromLE(raw) - Pow256(|raw|) else FromLE(raw)
  {
    assert Pow256(|raw|) == 2 * Half(|raw|);
    hide FromLE, Pow256;
    SignByte(raw);
    SixteenBytes(|raw|);
    if raw[|raw| - 1] >= 128 { ExtendOnes(raw); } else { ExtendZeros(raw, 16 - |raw|); }
  }

  lemma UnsignedRead(raw: seq<byte>)
    requires |raw| <= 16
    ensures U128FromLE(ZeroExtend(raw)) == FromLE(raw)
  {
    hide *;
    ZeroExtended(raw);
    ExtendZeros(raw, 16 - |raw|);
    WordValue(ZeroExtend(raw));
  }

  lemma ZeroExtended(raw: seq<byte>)
    requires |raw| <= 16
    ensures ZeroExtend(raw) == raw + Repeat(0, 16 - |raw|)
  {
    hide Repeat;
    assert raw[..|raw|] == raw;
  }

  lemma WordValue(le: seq<byte>)
    requires |le| == 16
    ensures U128FromLE(le) == FromLE(le)
  {
    hide FromLE;
  }

  /** Storing a signed integer in `w` bytes gives it modulo 2^(8w). */
  lemma SignedStore(i: i128, w: nat)
    requires 0 < w <= 16
    ensures FromLE(ToLE(ToUnsigned(i), w)) == i % Pow256(w)
  {
    FromToLE(ToUnsigned(i), w);
    if i < 0 {
      SixteenBytes(w);
      ShiftedMod(i, Pow256(w), Pow256(16 - w));
    }
  }

  lemma ShiftedMod(i: int, p: nat, q: nat)
    requires p > 0
    ensures (i + p * q) % p == i % p
  {
    var k, r := i / p, i % p;
    assert i == p * k + r;
    assert p * (k + q) == p * k + p * q;
    ModUnique(i + p * q, p, k + q, r);
  }

  lemma IntStore(i: i128, w: nat)
    requires 0 < w <= 16
    ensures ToSigned(U128FromLE(SignExtend(ToLE(ToUnsigned(i), w)))) == i
            <==> -Half(w) <= i < Half(w)
  {
    SignedStore(i, w);
    SignedRead(ToLE(ToUnsigned(i), w));
    assert Pow256(w) == 2 * Half(w);
    if 0 <= i < Half(w) {
      ModUnique(i, Pow256(w), 0, i);
    } else if -Half(w) <= i < 0 {
      ModUnique(i, Pow256(w), -1, i + Pow256(w));
    }
  }

  lemma UintStore(u: u128, w: nat)
    requires w <= 16
    ensures U128FromLE(ZeroExtend(ToLE(u, w))) == u <==> u < Pow256(w)
  {
    UnsignedRead(ToLE(u, w));
    FromToLE(u, w);
    if u < Pow256(w) {
      ModUnique(u, Pow256(w), 0, u);
    }
  }

  /** A stored value comes back as it went in exactly when it fits the column. */
  lemma FieldRoundTrip(kind: FieldKind, v: Value)
    requires !v.Null? && (v.Blob? ==> |v.b| <= kind.Width()) && (!v.Blob? ==> kind.Width() <= 16)
    ensures ValueFromRaw(kind, RawOf(kind.Width(), v)) == Padded(kind, v) <==> Fits(kind, v)
  {
    hide ToLE, U128FromLE, SignExtend, ZeroExtend, Pow256, Half, Repeat;
    match v
    case Int(i) => if kind.IsSigned() { IntStore(i, kind.Width()); }
    case Uint(u) => if !kind.IsBlob() { UintStore(u, kind.Width()); }
    case Blob(_) =>
  }

  /**
   A record decodes under the schema it was written with, or any schema with
   columns appended: each stored value comes back unchanged (blobs zero-padded)
   exactly when it fits its column, and the new columns read NULL.
   */
  lemma UpProjection(ot: ObjectType, values: seq<Value>, wide: seq<Field>)
    requires Storable(ot.fields, values) && |ot.fields| <= MAX_FIELDS
    requires Extends(wide, ot.fields)
    ensures var rec := Record(ot, values); var n := |ot.fields|;
      && Complete(wide, rec)
      && (forall i | 0 <= i < n ::
            Decoded(wide, rec)[i] == Padded(wide[i].kind, values[i]) <==> Fits(wide[i].kind, values[i]))
      && (forall i | n <= i < |wide| :: Decoded(wide, rec)[i] == Null)
  {
    var rec, n := Record(ot, values), |ot.fields|;
    RecordCount(ot, values);
    forall i | 0 <= i < |wide|
      ensures DecodeAt(wide, rec, i).Some?
      ensures i < n ==> (DecodeAt(wide, rec, i).value == Padded(wide[i].kind, values[i])
                         <==> Fits(wide[i].kind, values[i]))
      ensures i >= n ==> DecodeAt(wide, rec, i).value == Null
    {
      if i < n {
        DecodeStored(ot, values, wide, i);
        if !values[i].Null? { FieldRoundTrip(wide[i].kind, values[i]); }
      }
    }
  }

  /** What decoding finds in a stored field. */
  lemma DecodeStored(ot: ObjectType, values: seq<Value>, wide: seq<Field>, i: nat)
    requires Storable(ot.fields, values) && |ot.fields| <= MAX_FIELDS
    requires Extends(wide, ot.fields) && i < |ot.fields|
    ensures FieldError(ot.fields, values, i).None?
    ensures |Record(ot, values)| >= HEADER_BYTES && wide[i] == ot.fields[i]
    ensures DecodeAt(wide, Record(ot, values), i)
            == Some(if values[i].Null? then Null
                    else ValueFromRaw(wide[i].kind, RawOf(wide[i].kind.Width(), values[i])))
  {
    hide ValueFromRaw, RawOf, BitOf, Record, FieldError;
    RecordCount(ot, values);
    RecordBit(ot, values, i);
    RecordSlice(ot, values, i);
    ExtendsOffsets(wide, ot.fields, i);
    assert wide[i] == wide[..|ot.fields|][i];
  }
}
