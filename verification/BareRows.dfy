/**
 One record without a length before it, as the primary-key path returns it, rendered
 by the reader of length-prefixed rows.  Its schema version stands where a length would.
 */
module BareRows {
  import opened Bytes
  import opened Wire
  import opened Schema
  import opened TypeDefs
  import opened JsonParse
  import opened JsonPrint
  import opened JsonRows
  import Codec
  import opened Utf8

  /** The record behind the length word at `p`, if the word is there and does not point past the end. */
  function FrameAt(rows: seq<byte>, p: nat): Option<seq<byte>> {
    if p + 4 > |rows| then None
    else
      var n := U32At(rows, p).value.0;
      if p + 4 + n > |rows| then None else Some(rows[p + 4..p + 4 + n])
  }

  /** From `p` on there are only length words and records that decode. */
  ghost predicate Framed(fields: seq<Field>, rows: seq<byte>, p: nat)
    decreases |rows| - p
  {
    || p == |rows|
    || match FrameAt(rows, p)
       case None => false
       case Some(rec) => Codec.Complete(fields, rec) && Framed(fields, rows, p + 4 + |rec|)
  }

  /** From `p` on there are such records, and then a length word that points past the end. */
  ghost predicate Overruns(fields: seq<Field>, rows: seq<byte>, p: nat)
    decreases |rows| - p
  {
    match FrameAt(rows, p)
    case None => p + 4 <= |rows|
    case Some(rec) => Codec.Complete(fields, rec) && Overruns(fields, rows, p + 4 + |rec|)
  }

  lemma {:induction false} ScanCases(fields: seq<Field>, rows: seq<byte>, p: nat, items: seq<string>)
    requires p <= |rows|
    ensures var s := ScanFrom(fields, rows, p, items);
            && (s.CutShort? <==> Overruns(fields, rows, p))
            && (s.Scanned? && s.clean && s.p == |rows| <==> Framed(fields, rows, p))
    decreases |rows| - p
  {
    hide Codec.Complete, ObjectText, FromLE, Names;
    if FrameAt(rows, p).Some? {
      var rec := FrameAt(rows, p).value;
      if RecordText(fields, rec).Some? {
        ScanCases(fields, rows, p + 4 + |rec|, items + [RecordText(fields, rec).value]);
      }
    }
  }

  /** The records of bytes that read as records throughout. */
  ghost function FramesFrom(fields: seq<Field>, rows: seq<byte>, p: nat): (recs: seq<seq<byte>>)
    requires Framed(fields, rows, p)
    ensures JsonRows.Sound(fields, recs)
    ensures recs == [] <==> p == |rows|
    decreases |rows| - p
  {
    if p == |rows| then []
    else
      var rec := FrameAt(rows, p).value;
      [rec] + FramesFrom(fields, rows, p + 4 + |rec|)
  }

  lemma DecodedLength(fields: seq<Field>, rec: seq<byte>)
    requires Codec.Complete(fields, rec)
    ensures |Codec.Decoded(fields, rec)| == |fields|
  {
  }

  /** The first record is one step of the scan. */
  lemma ScansOne(fields: seq<Field>, rows: seq<byte>, p: nat, items: seq<string>)
    requires p < |rows| && Framed(fields, rows, p)
    ensures FrameAt(rows, p).Some? && Codec.Complete(fields, FrameAt(rows, p).value)
    ensures var rec := FrameAt(rows, p).value;
            var q := p + 4 + |rec|;
            && q <= |rows| && Framed(fields, rows, q)
            && FramesFrom(fields, rows, p) == [rec] + FramesFrom(fields, rows, q)
            && ScanFrom(fields, rows, p, items)
               == ScanFrom(fields, rows, q, items + [ObjectText(Names(fields), Codec.Decoded(fields, rec))])
  {
    hide Codec.Complete, Codec.Decoded, ObjectText, FromLE, Names;
  }

  lemma TextsOf(fields: seq<Field>, rec: seq<byte>, recs: seq<seq<byte>>, items: seq<string>)
    requires JsonRows.Sound(fields, [rec] + recs)
    ensures JsonRows.Sound(fields, recs) && Codec.Complete(fields, rec)
    ensures var names := Names(fields);
            items + [ObjectText(names, Codec.Decoded(fields, rec))] + Texts(names, Values(fields, recs))
            == items + Texts(names, Values(fields, [rec] + recs))
  {
    hide Codec.Complete, Codec.Decoded, ObjectText, Names;
    assert ([rec] + recs)[0] == rec && ([rec] + recs)[1..] == recs;
    Tail(fields, [rec] + recs);
  }

  lemma {:induction false} ScansFrames(fields: seq<Field>, rows: seq<byte>, p: nat, items: seq<string>)
    requires p <= |rows| && Framed(fields, rows, p)
    ensures ScanFrom(fields, rows, p, items)
         == Scanned(items + Texts(Names(fields), Values(fields, FramesFrom(fields, rows, p))), true, |rows|)
    decreases |rows| - p
  {
    hide *;
    if p == |rows| {
      ScanEnds(fields, rows, items);
    } else {
      ScansOne(fields, rows, p, items);
      var rec := FrameAt(rows, p).value;
      var q := p + 4 + |rec|;
      DecodedLength(fields, rec);
      ScansFrames(fields, rows, q, items + [ObjectText(Names(fields), Codec.Decoded(fields, rec))]);
      TextsOf(fields, rec, FramesFrom(fields, rows, q), items);
    }
  }

  lemma ScanEnds(fields: seq<Field>, rows: seq<byte>, items: seq<string>)
    ensures Framed(fields, rows, |rows|)
    ensures ScanFrom(fields, rows, |rows|, items)
         == Scanned(items + Texts(Names(fields), Values(fields, FramesFrom(fields, rows, |rows|))), true, |rows|)
  {
    hide Codec.Complete, Codec.Decoded, ObjectText, FromLE, Names;
    var recs := FramesFrom(fields, rows, |rows|);
    assert items + Texts(Names(fields), Values(fields, recs)) == items;
  }

  // ---- records that print alike --------------------------------------------------------------------

  /** Both are NULL, or the same number, or bytes with the same text. */
  ghost predicate PrintAlike(a: seq<Codec.Value>, b: seq<Codec.Value>) {
    |a| == |b| && forall i | 0 <= i < |a| :: JsonOf(a[i]) == JsonOf(b[i])
  }

  lemma {:induction false} AlikeFrom(names: seq<string>, a: seq<Codec.Value>, b: seq<Codec.Value>, i: nat)
    requires i <= |a| == |b| == |names|
    ensures MembersFrom(names, a, i) == MembersFrom(names, b, i)
            <==> forall k | i <= k < |a| :: JsonOf(a[k]) == JsonOf(b[k])
    ensures MembersFrom(names, a, i) == MembersFrom(names, b, i) ==> RestText(names, a, i) == RestText(names, b, i)
    decreases |a| - i
  {
    hide JsonOf, RestText, MembersFrom;
    FirstMember(names, a, b, i);
    if i < |a| { AlikeFrom(names, a, b, i + 1); }
  }

  lemma FirstMember(names: seq<string>, a: seq<Codec.Value>, b: seq<Codec.Value>, i: nat)
    requires i <= |a| == |b| == |names|
    ensures i == |a| ==>
              MembersFrom(names, a, i) == MembersFrom(names, b, i) && RestText(names, a, i) == RestText(names, b, i)
    ensures i < |a| ==>
              && (MembersFrom(names, a, i) == MembersFrom(names, b, i)
                  <==> JsonOf(a[i]) == JsonOf(b[i]) && MembersFrom(names, a, i + 1) == MembersFrom(names, b, i + 1))
              && (JsonOf(a[i]) == JsonOf(b[i]) && RestText(names, a, i + 1) == RestText(names, b, i + 1) ==>
                    RestText(names, a, i) == RestText(names, b, i))
  {
    if i < |a| {
      SameValueText(a[i], b[i]);
      hide JsonOf, JsonValue;
      var x, y := MembersFrom(names, a, i), MembersFrom(names, b, i);
      assert x[0] == (names[i], JsonOf(a[i])) && x[1..] == MembersFrom(names, a, i + 1);
      assert y[0] == (names[i], JsonOf(b[i])) && y[1..] == MembersFrom(names, b, i + 1);
    }
  }

  lemma SameValueText(v: Codec.Value, w: Codec.Value)
    ensures JsonOf(v) == JsonOf(w) ==> JsonValue(v) == JsonValue(w)
  {
    hide IntText, BlobText, JsonStr;
  }

  /** One array of objects has one text, and one text stands for one array of objects. */
  lemma SameText(names: seq<string>, rows: seq<seq<Codec.Value>>, own: seq<Codec.Value>)
    requires Shaped(names, rows) && |own| == |names|
    ensures ArrayText(Texts(names, rows)) == ArrayText([ObjectText(names, own)])
            <==> |rows| == 1 && PrintAlike(rows[0], own)
  {
    hide Join, Parse, Encode, MembersFrom, JsonOf, RestText;
    assert Texts(names, [own]) == [ObjectText(names, own)];
    ArrayReads(names, rows);
    ArrayReads(names, [own]);
    var o := JObject(MembersFrom(names, own, 0));
    assert Objects(names, [own]) == [o];
    if |rows| == 1 {
      AlikeFrom(names, rows[0], own, 0);
      assert Objects(names, rows) == [JObject(MembersFrom(names, rows[0], 0))];
      assert Texts(names, rows) == [ObjectText(names, rows[0])];
    }
  }

  // ---- what a bare record is rendered as -------------------------------------------------------------

  function OwnText(fields: seq<Field>, rec: seq<byte>): string
    requires Codec.Complete(fields, rec)
  {
    ArrayText([ObjectText(Names(fields), Codec.Decoded(fields, rec))])
  }

  /** The bytes are one record behind its length, and it prints as all of them do. */
  ghost predicate OneAlike(fields: seq<Field>, rec: seq<byte>)
    requires Codec.Complete(fields, rec)
  {
    match FrameAt(rec, 0)
    case None => false
    case Some(part) =>
      && 4 + |part| == |rec| && Codec.Complete(fields, part)
      && PrintAlike(Codec.Decoded(fields, part), Codec.Decoded(fields, rec))
  }

  /**
   A bare record that decodes is rendered at all if and only if its bytes do not read as records and
   a length past the end; and as itself if and only if, moreover, they do not read as records
   throughout, or as one record that prints the same.
   */
  lemma BareRecord(typedef: seq<byte>, name: string, fields: seq<Field>, rec: seq<byte>)
    requires DecodeTypeDef(typedef) == Some((name, fields)) && fields != [] && Codec.Complete(fields, rec)
    ensures RenderRows(typedef, rec).Some? <==> !Overruns(fields, rec, 0)
    ensures RenderRows(typedef, rec) == Some(OwnText(fields, rec))
            <==> !Overruns(fields, rec, 0) && (Framed(fields, rec, 0) ==> OneAlike(fields, rec))
  {
    hide DecodeTypeDef, ScanFrom, ObjectText, Join, Codec.DecodeAt, Framed, Overruns, Texts, Names, OneAlike, Values,
         FramesFrom;
    ScanCases(fields, rec, 0, []);
    if Framed(fields, rec, 0) {
      ScansFrames(fields, rec, 0, []);
      var rows := Values(fields, FramesFrom(fields, rec, 0));
      var texts := Texts(Names(fields), rows);
      assert [] + texts == texts;
      SameText(Names(fields), rows, Codec.Decoded(fields, rec));
      OneFrame(fields, rec);
    }
  }

  lemma OneFrame(fields: seq<Field>, rec: seq<byte>)
    requires Codec.Complete(fields, rec) && Framed(fields, rec, 0)
    ensures var rows := Values(fields, FramesFrom(fields, rec, 0));
            OneAlike(fields, rec) <==> |rows| == 1 && PrintAlike(rows[0], Codec.Decoded(fields, rec))
  {
    hide Codec.DecodeAt, FrameAt, PrintAlike;
  }

  // ---- records as they are stored ------------------------------------------------------------------

  lemma VersionWord(ot: ObjectType, values: seq<Codec.Value>)
    requires Codec.Storable(ot.fields, values)
    ensures |Codec.Record(ot, values)| >= 4 && U32At(Codec.Record(ot, values), 0) == Some((ot.schemaVer, 4))
  {
    hide Codec.NullBitmap, Codec.Data, RecordSize, Offset, ToLE;
    var rec := Codec.Record(ot, values);
    assert rec[0..4] == ToLE(ot.schemaVer, 4);
    ReadU32(rec, 0, ot.schemaVer);
  }

  /** A first word that points past the end, or cuts off bytes that are a record themselves, or not. */
  lemma FirstWordDecides(fields: seq<Field>, rec: seq<byte>, v: nat)
    requires |rec| >= 4 && U32At(rec, 0) == Some((v, 4))
    ensures v + 4 > |rec| ==> FrameAt(rec, 0).None? && Overruns(fields, rec, 0)
    ensures v + 4 <= |rec| ==>
              var part := rec[4..4 + v];
              && FrameAt(rec, 0) == Some(part)
              && (Overruns(fields, rec, 0) <==> Codec.Complete(fields, part) && Overruns(fields, rec, 4 + v))
              && (Framed(fields, rec, 0) <==> Codec.Complete(fields, part) && Framed(fields, rec, 4 + v))
  {
    hide U32At, Codec.Complete;
  }

  /**
   A stored record is rendered as itself if and only if its version is at most its size less four and
   does not cut off a record, or one that is all the rest and prints the same, or one before bytes that
   do not read as records.  Below version 14 nothing is cut off; above the bound nothing is rendered.
   */
  lemma StoredRecordRenders(typedef: seq<byte>, name: string, ot: ObjectType, values: seq<Codec.Value>)
    requires Codec.Storable(ot.fields, values) && 0 < |ot.fields| <= MAX_FIELDS
    requires DecodeTypeDef(typedef) == Some((name, ot.fields))
    ensures var rec, v := Codec.Record(ot, values), ot.schemaVer;
            && Codec.Complete(ot.fields, rec)
            && (v + 4 > |rec| ==> RenderRows(typedef, rec) == None)
            && (v < HEADER_BYTES ==>
                  (RenderRows(typedef, rec) == Some(OwnText(ot.fields, rec)) <==> v + 4 <= |rec|))
            && (v + 4 <= |rec| ==>
                  var part := rec[4..4 + v];
                  (RenderRows(typedef, rec) == Some(OwnText(ot.fields, rec)) <==>
                   (Codec.Complete(ot.fields, part) ==>
                      if 4 + v == |rec|
                      then PrintAlike(Codec.Decoded(ot.fields, part), Codec.Decoded(ot.fields, rec))
                      else !Overruns(ot.fields, rec, 4 + v) && !Framed(ot.fields, rec, 4 + v))))
  {
    hide *;
    Sixteen();
    var rec := Codec.Record(ot, values);
    Codec.UpProjection(ot, values, ot.fields) by { OwnFields(ot.fields); }
    VersionWord(ot, values);
    FirstWordDecides(ot.fields, rec, ot.schemaVer);
    BareRecord(typedef, name, ot.fields, rec);
    TooShort(ot.fields, rec, ot.schemaVer);
    NothingLeft(ot.fields, rec);
    OneAlikeCases(ot.fields, rec);
  }

  lemma TooShort(fields: seq<Field>, rec: seq<byte>, v: nat)
    ensures v < HEADER_BYTES && v + 4 <= |rec| ==> !Codec.Complete(fields, rec[4..4 + v])
  {
  }

  lemma OwnFields(fields: seq<Field>)
    ensures Codec.Extends(fields, fields)
  {
  }

  lemma OneAlikeCases(fields: seq<Field>, rec: seq<byte>)
    requires Codec.Complete(fields, rec)
    ensures OneAlike(fields, rec)
            <==> match FrameAt(rec, 0)
                 case None => false
                 case Some(part) =>
                   && 4 + |part| == |rec| && Codec.Complete(fields, part)
                   && PrintAlike(Codec.Decoded(fields, part), Codec.Decoded(fields, rec))
  {
    hide FrameAt, Codec.Complete, PrintAlike, Codec.Decoded;
  }

  lemma NothingLeft(fields: seq<Field>, rec: seq<byte>)
    ensures Framed(fields, rec, |rec|) && !Overruns(fields, rec, |rec|)
  {
  }

  /** A record of NULLs only. */
  function Nulls(n: nat): (vs: seq<Codec.Value>)
    ensures |vs| == n
  {
    seq(n, _ => Codec.Null)
  }

  lemma NoNullsThere(ot: ObjectType, values: seq<Codec.Value>)
    requires Codec.Storable(ot.fields, values) && |ot.fields| <= 16
    ensures |Codec.Record(ot, values)| >= 16
    ensures Codec.Record(ot, values)[8] == 0 && Codec.Record(ot, values)[9] == 0
  {
    hide Codec.Record, RecordSize, Codec.Storable, BitOf;
    var rec := Codec.Record(ot, values);
    Codec.RecordBit(ot, values, 0);
    assert Pow2(8) == 256;
    forall b | 8 <= b <= 9
      ensures rec[b] == 0
    {
      forall k | 0 <= k < 8
        ensures BitOf(rec[b], k) == BitOf(0, k)
      {
        Codec.RecordBit(ot, values, 8 * (b - BITMAP_OFF) + k);
        ZeroBits(k);
      }
      SameBits(rec[b], 0, 8);
    }
  }

  /** What stands behind the version of a record of at most 16 columns reads as a row of NULLs. */
  lemma ReadsAsNulls(ot: ObjectType, values: seq<Codec.Value>, n: nat)
    requires Codec.Storable(ot.fields, values) && |ot.fields| <= 16
    requires HEADER_BYTES <= n <= |Codec.Record(ot, values)| - 4
    ensures var rec := Codec.Record(ot, values)[4..4 + n];
            Codec.Complete(ot.fields, rec) && Codec.Decoded(ot.fields, rec) == Nulls(|ot.fields|)
  {
    hide Codec.Record, RecordSize, Codec.Storable;
    NoNullsThere(ot, values);
    var rec := Codec.Record(ot, values)[4..4 + n];
    assert rec[4..6] == [0, 0];
    assert Codec.StoredCount(rec) == 0 by { assert FromLE([0, 0]) == 0; }
  }

  /** A version that is exactly the size less four turns the record into a row of NULLs. */
  lemma RenderedAsNulls(typedef: seq<byte>, name: string, ot: ObjectType, values: seq<Codec.Value>)
    requires Codec.Storable(ot.fields, values) && 0 < |ot.fields| <= 16
    requires DecodeTypeDef(typedef) == Some((name, ot.fields))
    requires HEADER_BYTES <= ot.schemaVer == RecordSize(ot.fields) - 4
    ensures RenderRows(typedef, Codec.Record(ot, values))
         == Some(ArrayText([ObjectText(Names(ot.fields), Nulls(|ot.fields|))]))
  {
    hide DecodeTypeDef, Codec.Record, RecordSize, U32At, ObjectText, Join, Codec.Complete, Codec.Decoded, Names;
    var rec := Codec.Record(ot, values);
    var n: nat := ot.schemaVer;
    VersionWord(ot, values);
    ReadsAsNulls(ot, values, n);
    var o := ObjectText(Names(ot.fields), Nulls(|ot.fields|));
    assert RecordText(ot.fields, rec[4..4 + n]) == Some(o);
    assert ScanFrom(ot.fields, rec, 4 + n, [] + [o]) == Scanned([o], true, |rec|);
  }

  /** A row of NULLs prints as another row if and only if that is one, too. */
  lemma NullsAlike(ot: ObjectType, values: seq<Codec.Value>)
    requires Codec.Storable(ot.fields, values) && |ot.fields| <= MAX_FIELDS
    ensures Codec.Complete(ot.fields, Codec.Record(ot, values))
    ensures PrintAlike(Nulls(|ot.fields|), Codec.Decoded(ot.fields, Codec.Record(ot, values)))
            <==> forall i | 0 <= i < |values| :: values[i].Null?
  {
    hide *;
    Codec.UpProjection(ot, values, ot.fields) by { OwnFields(ot.fields); }
    var vs := Codec.Decoded(ot.fields, Codec.Record(ot, values));
    DecodedLength(ot.fields, Codec.Record(ot, values));
    OnlyNulls(vs);
    forall i | 0 <= i < |vs|
      ensures i < |values| && (vs[i].Null? <==> values[i].Null?)
    {
      DecodedNull(ot, values, i);
    }
    OneEach(ot, values);
  }

  lemma OneEach(ot: ObjectType, values: seq<Codec.Value>)
    requires Codec.Storable(ot.fields, values)
    ensures |ot.fields| == |values|
  {
  }

  lemma OnlyNulls(vs: seq<Codec.Value>)
    ensures PrintAlike(Nulls(|vs|), vs) <==> forall i | 0 <= i < |vs| :: vs[i].Null?
  {
    hide IntText, BlobText;
    assert forall i | 0 <= i < |vs| :: JsonOf(vs[i]) == JsonOf(Codec.Null) <==> vs[i].Null?;
  }

  lemma DecodedNull(ot: ObjectType, values: seq<Codec.Value>, i: nat)
    requires Codec.Storable(ot.fields, values) && i < |ot.fields| <= MAX_FIELDS
    requires Codec.Complete(ot.fields, Codec.Record(ot, values))
    ensures i < |values| && (Codec.Decoded(ot.fields, Codec.Record(ot, values))[i].Null? <==> values[i].Null?)
  {
    hide Codec.Record, Codec.RawOf, Codec.SignExtend, Codec.ZeroExtend;
    Codec.DecodeStored(ot, values, ot.fields, i);
    hide Codec.DecodeAt;
  }

  /**
   A stored record of at most 16 columns is rendered as itself if and only if its version is below 14,
   or is its size less four and every value is NULL, or is smaller and what follows the bytes it cuts
   off does not read as records.
   */
  lemma SmallRecordRenders(typedef: seq<byte>, name: string, ot: ObjectType, values: seq<Codec.Value>)
    requires Codec.Storable(ot.fields, values) && 0 < |ot.fields| <= 16
    requires DecodeTypeDef(typedef) == Some((name, ot.fields))
    ensures var rec, v := Codec.Record(ot, values), ot.schemaVer;
            && Codec.Complete(ot.fields, rec)
            && (RenderRows(typedef, rec) == Some(OwnText(ot.fields, rec)) <==>
                && v + 4 <= |rec|
                && (v >= HEADER_BYTES ==>
                      if v + 4 == |rec| then forall i | 0 <= i < |values| :: values[i].Null?
                      else !Overruns(ot.fields, rec, 4 + v) && !Framed(ot.fields, rec, 4 + v)))
  {
    hide *;
    Sixteen();
    StoredRecordRenders(typedef, name, ot, values);
    NullsAlike(ot, values);
    var rec, v := Codec.Record(ot, values), ot.schemaVer;
    if HEADER_BYTES <= v <= |rec| - 4 { ReadsAsNulls(ot, values, v); }
  }

  lemma Sixteen()
    ensures 0 < HEADER_BYTES && 16 <= MAX_FIELDS
  {
  }
}
