/**
 The serialized catalog: every type with its lists, then a trailer of external
 recipes in one of three versions.
 */
module Catalogs {
  import opened Bytes
  import opened Wire
  import opened Schema
  import opened TypeDefs
  import opened Recipes

  // ---- lists of a type ------------------------------------------------------------------------

  function PutId(fid: u16): seq<byte> {
    ToLE(fid, 2)
  }

  function PutFkRef(fk: (u16, u32, byte)): seq<byte> {
    ToLE(fk.0, 2) + (ToLE(fk.1, 4) + [fk.2])
  }

  function FkRefAt(b: seq<byte>, p: nat): Parsed<(u16, u32, byte)> {
    var (fid, p) :- U16At(b, p);
    var (rt, p) :- U32At(b, p);
    var (od, p) :- ByteAt(b, p);
    Some(((fid, rt, od), p))
  }

  function PutProg(prog: seq<byte>): seq<byte> {
    ToLE(|prog|, 4) + prog
  }

  function ProgAt(b: seq<byte>, p: nat): Parsed<seq<byte>> {
    var (n, p) :- U32At(b, p);
    SliceAt(b, p, n)
  }

  function PutIds(ids: seq<u16>): seq<byte> {
    Counted(ids, PutId)
  }

  function IdsAt(b: seq<byte>, p: nat): Parsed<seq<u16>> {
    CountedAt(b, p, U16At)
  }

  lemma IdLaw(fid: u16)
    ensures Inverts(PutId(fid), U16At, fid)
  {
    U16Law(fid);
  }

  lemma FkRefLaw(fk: (u16, u32, byte))
    ensures Inverts(PutFkRef(fk), FkRefAt, fk)
  {
    hide At, ToLE, U16At, U32At, ByteAt;
    forall b: seq<byte>, p: nat | At(b, p, PutFkRef(fk))
      ensures FkRefAt(b, p) == Some((fk, p + |PutFkRef(fk)|))
    {
      AtSplit(b, p, ToLE(fk.0, 2), ToLE(fk.1, 4) + [fk.2]);
      AtSplit(b, p + 2, ToLE(fk.1, 4), [fk.2]);
      ReadU16(b, p, fk.0);
      ReadU32(b, p + 2, fk.1);
      ReadByte(b, p + 6, fk.2);
    }
  }

  lemma ReadProg(b: seq<byte>, p: nat, prog: seq<byte>)
    requires |prog| < 0x1_0000_0000 && At(b, p, PutProg(prog))
    ensures ProgAt(b, p) == Some((prog, p + |PutProg(prog)|))
  {
    hide At, ToLE, U32At, SliceAt;
    AtSplit(b, p, ToLE(|prog|, 4), prog);
    ReadU32(b, p, |prog|);
    ReadSlice(b, p + 4, prog);
  }

  lemma ProgLaw(prog: seq<byte>)
    requires |prog| < 0x1_0000_0000
    ensures Inverts(PutProg(prog), ProgAt, prog)
  {
    hide At, PutProg, ProgAt;
    forall b: seq<byte>, p: nat | At(b, p, PutProg(prog))
      ensures ProgAt(b, p) == Some((prog, p + |PutProg(prog)|))
    {
      ReadProg(b, p, prog);
    }
  }

  predicate IdsFit(ids: seq<u16>) {
    |ids| < 0x1_0000
  }

  lemma ReadIds(b: seq<byte>, p: nat, ids: seq<u16>)
    requires IdsFit(ids) && At(b, p, PutIds(ids))
    ensures IdsAt(b, p) == Some((ids, p + |PutIds(ids)|))
  {
    hide At, Counted, CountedAt;
    forall i | 0 <= i < |ids|
      ensures Inverts(PutId(ids[i]), U16At, ids[i])
    {
      IdLaw(ids[i]);
    }
    ReadCounted(b, p, ids, PutId, U16At);
  }

  lemma IdsLaw(ids: seq<u16>)
    requires IdsFit(ids)
    ensures Inverts(PutIds(ids), IdsAt, ids)
  {
    hide At, PutIds, IdsAt;
    forall b: seq<byte>, p: nat | At(b, p, PutIds(ids))
      ensures IdsAt(b, p) == Some((ids, p + |PutIds(ids)|))
    {
      ReadIds(b, p, ids);
    }
  }

  predicate ProgsFit(progs: seq<seq<byte>>) {
    |progs| < 0x1_0000 && forall i | 0 <= i < |progs| :: |progs[i]| < 0x1_0000_0000
  }

  lemma ReadProgs(b: seq<byte>, p: nat, progs: seq<seq<byte>>)
    requires ProgsFit(progs) && At(b, p, Counted(progs, PutProg))
    ensures CountedAt(b, p, ProgAt) == Some((progs, p + |Counted(progs, PutProg)|))
  {
    hide At, Counted, CountedAt, PutProg;
    forall i | 0 <= i < |progs|
      ensures Inverts(PutProg(progs[i]), ProgAt, progs[i])
    {
      ProgLaw(progs[i]);
    }
    ReadCounted(b, p, progs, PutProg, ProgAt);
  }

  lemma ReadFkRefs(b: seq<byte>, p: nat, fks: seq<(u16, u32, byte)>)
    requires |fks| < 0x1_0000 && At(b, p, Counted(fks, PutFkRef))
    ensures CountedAt(b, p, FkRefAt) == Some((fks, p + |Counted(fks, PutFkRef)|))
  {
    hide At, Counted, CountedAt, PutFkRef;
    forall i | 0 <= i < |fks|
      ensures Inverts(PutFkRef(fks[i]), FkRefAt, fks[i])
    {
      FkRefLaw(fks[i]);
    }
    ReadCounted(b, p, fks, PutFkRef, FkRefAt);
  }

  predicate CompositeFits(cs: seq<seq<u16>>) {
    |cs| < 0x1_0000 && forall i | 0 <= i < |cs| :: IdsFit(cs[i])
  }

  lemma ReadComposite(b: seq<byte>, p: nat, cs: seq<seq<u16>>)
    requires CompositeFits(cs) && At(b, p, Counted(cs, PutIds))
    ensures CountedAt(b, p, IdsAt) == Some((cs, p + |Counted(cs, PutIds)|))
  {
    hide At, Counted, CountedAt, PutIds;
    forall i | 0 <= i < |cs|
      ensures Inverts(PutIds(cs[i]), IdsAt, cs[i])
    {
      IdsLaw(cs[i]);
    }
    ReadCounted(b, p, cs, PutIds, IdsAt);
  }

  // ---- types ------------------------------------------------------------------------------------

  /** The seven lists of a type, in order. */
  function PutLists(t: ObjectType): seq<byte> {
    PutIds(t.indexes) +
    (PutIds(t.unique) +
     (Counted(t.fks, PutFkRef) +
      (Counted(t.checks, PutProg) +
       (Counted(t.triggers, PutProg) +
        (PutIds(t.ordered) +
         Counted(t.composite, PutIds))))))
  }

  function DefOf(t: ObjectType): seq<byte> {
    EncodeFull(t.name, t.fields, t.defaults, t.serialPk, t.serialFieldId)
  }

  function PutType(t: ObjectType): seq<byte> {
    ToLE(t.typeId, 4) + (ToLE(t.schemaVer, 4) + (PutProg(DefOf(t)) + PutLists(t)))
  }

  datatype Lists = Lists(
    indexes: seq<u16>,
    unique: seq<u16>,
    fks: seq<(u16, u32, byte)>,
    checks: seq<seq<byte>>,
    triggers: seq<seq<byte>>,
    ordered: seq<u16>,
    composite: seq<seq<u16>>)

  function ListsAt(b: seq<byte>, p: nat): Parsed<Lists> {
    var (indexes, p) :- IdsAt(b, p);
    var (unique, p) :- IdsAt(b, p);
    var (fks, p) :- CountedAt(b, p, FkRefAt);
    var (checks, p) :- CountedAt(b, p, ProgAt);
    var (triggers, p) :- CountedAt(b, p, ProgAt);
    var (ordered, p) :- IdsAt(b, p);
    var (composite, p) :- CountedAt(b, p, IdsAt);
    Some((Lists(indexes, unique, fks, checks, triggers, ordered, composite), p))
  }

  function TypeAt(b: seq<byte>, p: nat): Parsed<ObjectType> {
    var (typeId, p) :- U32At(b, p);
    var (schemaVer, p) :- U32At(b, p);
    var (def, p) :- ProgAt(b, p);
    var (name, fields) :- DecodeTypeDef(def);
    var (l, p) :- ListsAt(b, p);
    Some((ObjectType(typeId, name, schemaVer, fields, l.indexes, l.unique, l.fks, l.checks, l.triggers, l.ordered,
                     l.composite, DefaultsOf(def), SerialPkOf(def), SerialFieldOf(def)), p))
  }

  predicate ListsFit(t: ObjectType) {
    && IdsFit(t.indexes) && IdsFit(t.unique) && |t.fks| < 0x1_0000
    && ProgsFit(t.checks) && ProgsFit(t.triggers)
    && IdsFit(t.ordered) && CompositeFits(t.composite)
  }

  predicate TypeFits(t: ObjectType) {
    && TypeDefFits(t.name, t.fields) && DefaultsFit(t.defaults)
    && |DefOf(t)| < 0x1_0000_0000
    && ListsFit(t)
  }

  function ListsOf(t: ObjectType): Lists {
    Lists(t.indexes, t.unique, t.fks, t.checks, t.triggers, t.ordered, t.composite)
  }

  lemma ReadLists(b: seq<byte>, p: nat, t: ObjectType)
    requires ListsFit(t) && At(b, p, PutLists(t))
    ensures ListsAt(b, p) == Some((ListsOf(t), p + |PutLists(t)|))
  {
    hide At, PutIds, IdsAt, Counted, CountedAt, IdsFit, ProgsFit, CompositeFits;
    var i, u, f, c, g, o, m :=
      PutIds(t.indexes), PutIds(t.unique), Counted(t.fks, PutFkRef), Counted(t.checks, PutProg),
      Counted(t.triggers, PutProg), PutIds(t.ordered), Counted(t.composite, PutIds);
    var p1 := p + |i|;
    AtSplit(b, p, i, u + (f + (c + (g + (o + m)))));
    ReadIds(b, p, t.indexes);
    var p2 := p1 + |u|;
    AtSplit(b, p1, u, f + (c + (g + (o + m))));
    ReadIds(b, p1, t.unique);
    var p3 := p2 + |f|;
    AtSplit(b, p2, f, c + (g + (o + m)));
    ReadFkRefs(b, p2, t.fks);
    var p4 := p3 + |c|;
    AtSplit(b, p3, c, g + (o + m));
    ReadProgs(b, p3, t.checks);
    var p5 := p4 + |g|;
    AtSplit(b, p4, g, o + m);
    ReadProgs(b, p4, t.triggers);
    var p6 := p5 + |o|;
    AtSplit(b, p5, o, m);
    ReadIds(b, p5, t.ordered);
    ReadComposite(b, p6, t.composite);
  }

  /** What a stored type keeps: the serial field only of a serial key. */
  function Kept(t: ObjectType): ObjectType {
    if t.serialPk then t else t.(serialFieldId := None)
  }

  lemma DefDecodes(t: ObjectType)
    requires TypeDefFits(t.name, t.fields) && DefaultsFit(t.defaults)
    ensures DecodeTypeDef(DefOf(t)) == Some((t.name, t.fields))
    ensures DefaultsOf(DefOf(t)) == t.defaults
    ensures SerialPkOf(DefOf(t)) == t.serialPk && SerialFieldOf(DefOf(t)) == Kept(t).serialFieldId
  {
    hide EncodeFull, TypeDefFits, DefaultsFit, DecodeTypeDef, DefaultsOf, SerialPkOf, SerialFieldOf;
    TrailersIndependent(t.name, t.fields, t.defaults, t.serialPk, t.serialFieldId, []);
    assert DefOf(t) + [] == DefOf(t);
  }

  lemma ReadStoredType(b: seq<byte>, p: nat, t: ObjectType)
    requires TypeFits(t) && At(b, p, PutType(t))
    ensures TypeAt(b, p) == Some((Kept(t), p + |PutType(t)|))
  {
    hide At, ToLE, U32At, ProgAt, PutProg, PutLists, ListsAt, DefOf, ListsFit, TypeDefFits, DefaultsFit,
      DecodeTypeDef, DefaultsOf, SerialPkOf, SerialFieldOf;
    var d, l := PutProg(DefOf(t)), PutLists(t);
    AtSplit(b, p, ToLE(t.typeId, 4), ToLE(t.schemaVer, 4) + (d + l));
    AtSplit(b, p + 4, ToLE(t.schemaVer, 4), d + l);
    AtSplit(b, p + 8, d, l);
    ReadU32(b, p, t.typeId);
    ReadU32(b, p + 4, t.schemaVer);
    ReadProg(b, p + 8, DefOf(t));
    DefDecodes(t);
    ReadLists(b, p + 8 + |d|, t);
  }

  lemma SerialFieldIsDropped(t: ObjectType)
    ensures PutType(Kept(t)) == PutType(t)
  {
    hide ToLE, PutProg, PutIds, Counted, EncodeTypeDef, SerialTrailer;
    assert DefOf(Kept(t)) == DefOf(t);
    assert PutLists(Kept(t)) == PutLists(t);
  }

  lemma StoredTypeLaw(t: ObjectType)
    requires TypeFits(t)
    ensures Inverts(PutType(t), TypeAt, Kept(t)) && PutType(Kept(t)) == PutType(t)
  {
    SerialFieldIsDropped(t);
    hide At, PutType, TypeAt, TypeFits;
    forall b: seq<byte>, p: nat | At(b, p, PutType(t))
      ensures TypeAt(b, p) == Some((Kept(t), p + |PutType(t)|))
    {
      ReadStoredType(b, p, t);
    }
  }

  // ---- the catalog ------------------------------------------------------------------------------

  datatype Catalog = Catalog(types: seq<ObjectType>, nextTypeId: u32, external: seq<Recipe>)

  function Encode(c: Catalog): seq<byte> {
    ToLE(c.nextTypeId, 4) + (Counted32(c.types, PutType) + PutTrailer(c.external))
  }

  function Decode(b: seq<byte>): Option<Catalog> {
    if |b| < 8 then Some(Catalog([], 0, []))
    else
      var (next, p) :- U32At(b, 0);
      var (types, p) :- Counted32At(b, p, TypeAt);
      Some(Catalog(types, next, TrailerOf(b, p)))
  }

  predicate Fits(c: Catalog) {
    && |c.types| < 0x1_0000_0000
    && (forall i | 0 <= i < |c.types| :: TypeFits(c.types[i]))
    && RecipesFit(c.external)
  }

  function KeptTypes(ts: seq<ObjectType>): (r: seq<ObjectType>)
    ensures |r| == |ts| && forall i | 0 <= i < |ts| :: r[i] == Kept(ts[i])
  {
    seq(|ts|, i requires 0 <= i < |ts| => Kept(ts[i]))
  }

  lemma {:induction false} SameBytes(ts: seq<ObjectType>)
    requires forall i | 0 <= i < |ts| :: TypeFits(ts[i])
    ensures All(KeptTypes(ts), PutType) == All(ts, PutType)
  {
    hide PutType, TypeFits, Kept;
    if ts != [] {
      StoredTypeLaw(ts[0]);
      SameBytes(ts[1..]);
      assert KeptTypes(ts)[1..] == KeptTypes(ts[1..]);
    }
  }

  lemma TypesDecode(b: seq<byte>, p: nat, ts: seq<ObjectType>)
    requires |ts| < 0x1_0000_0000 && (forall i | 0 <= i < |ts| :: TypeFits(ts[i]))
    requires At(b, p, Counted32(ts, PutType))
    ensures Counted32At(b, p, TypeAt) == Some((KeptTypes(ts), p + |Counted32(ts, PutType)|))
  {
    hide At, ToLE, All, Counted32At, PutType, TypeFits, Kept;
    SameBytes(ts);
    var ks := KeptTypes(ts);
    forall i | 0 <= i < |ks|
      ensures Inverts(PutType(ks[i]), TypeAt, ks[i])
    {
      StoredTypeLaw(ts[i]);
    }
    ReadCounted32(b, p, ks, PutType, TypeAt);
  }

  /** A catalog decodes to itself but for serial fields of types without a serial key. */
  lemma DecodeEncode(c: Catalog)
    requires Fits(c)
    ensures Decode(Encode(c)) == Some(c.(types := KeptTypes(c.types)))
  {
    hide ToLE, U32At, Counted32At, PutTrailer, TrailerOf, PutType, TypeFits, RecipesFit, At, All;
    var b := Encode(c);
    var ts, t := Counted32(c.types, PutType), PutTrailer(c.external);
    Whole(b);
    AtSplit(b, 0, ToLE(c.nextTypeId, 4), ts + t);
    AtSplit(b, 4, ts, t);
    ReadU32(b, 0, c.nextTypeId);
    TypesDecode(b, 4, c.types);
    TrailerRoundTrip(b, 4 + |ts|, c.external);
  }

  lemma Whole(b: seq<byte>)
    ensures At(b, 0, b)
  {
    assert b[0..|b|] == b;
  }

  /** Decoding gives back exactly the catalog if and only if no type names a serial field without a serial key. */
  lemma RoundTrip(c: Catalog)
    requires Fits(c)
    ensures Decode(Encode(c)) == Some(c) <==>
            forall i | 0 <= i < |c.types| :: c.types[i].serialFieldId.Some? ==> c.types[i].serialPk
  {
    hide Encode, Decode, Fits;
    DecodeEncode(c);
    var ks := KeptTypes(c.types);
    if forall i | 0 <= i < |c.types| :: c.types[i].serialFieldId.Some? ==> c.types[i].serialPk {
      assert ks == c.types;
    } else {
      var i :| 0 <= i < |c.types| && c.types[i].serialFieldId.Some? && !c.types[i].serialPk;
      assert ks[i] != c.types[i];
    }
  }

  /** The catalog bytes written before recipes had versions. */
  function EncodeV1(c: Catalog): seq<byte> {
    ToLE(c.nextTypeId, 4) + (Counted32(c.types, PutType) + PutTrailerV1(c.external))
  }

  /** A catalog persisted by the first version still decodes, its recipes without the newer parts. */
  lemma DecodeV1(c: Catalog)
    requires Fits(c) && c.external != []
    requires forall i | 0 <= i < |c.external| :: Visible(c.external[i], 1) == c.external[i]
    ensures Decode(EncodeV1(c)) == Some(c.(types := KeptTypes(c.types)))
  {
    hide ToLE, U32At, Counted32At, PutTrailerV1, TrailerOf, PutType, TypeFits, RecipesFit, At, All, Visible;
    var b := EncodeV1(c);
    var ts, t := Counted32(c.types, PutType), PutTrailerV1(c.external);
    Whole(b);
    AtSplit(b, 0, ToLE(c.nextTypeId, 4), ts + t);
    AtSplit(b, 4, ts, t);
    ReadU32(b, 0, c.nextTypeId);
    TypesDecode(b, 4, c.types);
    V1RoundTrip(b, 4 + |ts|, c.external);
  }

  // ---- the loops ------------------------------------------------------------------------------------

  method WriteType(t: ObjectType) returns (b: seq<byte>)
    ensures b == PutType(t)
  {
    hide EncodeFull, Counted, ToLE;
    var def := WriteFull(t.name, t.fields, t.defaults, t.serialPk, t.serialFieldId);
    b := ToLE(t.typeId, 4);
    b := b + ToLE(t.schemaVer, 4);
    b := b + ToLE(|def|, 4) + def;
    var indexes := PutCounted(t.indexes, PutId);
    var unique := PutCounted(t.unique, PutId);
    var fks := PutCounted(t.fks, PutFkRef);
    var checks := PutCounted(t.checks, PutProg);
    var triggers := PutCounted(t.triggers, PutProg);
    var ordered := PutCounted(t.ordered, PutId);
    var composite := PutCounted(t.composite, PutIds);
    Append7(b, indexes, unique, fks, checks, triggers, ordered, composite);
    Append3(ToLE(t.typeId, 4), ToLE(t.schemaVer, 4), ToLE(|def|, 4), def, PutLists(t));
    b := b + indexes + unique + fks + checks + triggers + ordered + composite;
  }

  lemma Append7(
      b: seq<byte>, i: seq<byte>, u: seq<byte>, f: seq<byte>, c: seq<byte>, g: seq<byte>, o: seq<byte>, m: seq<byte>)
    ensures b + i + u + f + c + g + o + m == b + (i + (u + (f + (c + (g + (o + m))))))
  {
    var x4 := g + (o + m);
    assert b + i + u + f + c + g + o + m == b + i + u + f + c + x4;
    var x2 := f + (c + x4);
    assert b + i + u + f + c + x4 == b + i + u + x2;
  }

  lemma Append3(a: seq<byte>, b: seq<byte>, c: seq<byte>, d: seq<byte>, e: seq<byte>)
    ensures a + b + (c + d) + e == a + (b + (c + d + e)) && a + b + c + d == a + b + (c + d)
  {
  }

  method WriteCatalog(c: Catalog) returns (b: seq<byte>)
    ensures b == Encode(c)
  {
    hide PutType, ToLE, PutRecipe;
    b := ToLE(c.nextTypeId, 4) + ToLE(|c.types|, 4);
    ghost var head := b;
    ghost var types := All(c.types, PutType);
    for i := 0 to |c.types|
      invariant head + types == b + All(c.types[i..], PutType)
    {
      var t := WriteType(c.types[i]);
      assert c.types[i..][1..] == c.types[i + 1..];
      assert b + (t + All(c.types[i + 1..], PutType)) == b + t + All(c.types[i + 1..], PutType);
      b := b + t;
    }
    assert b == head + types;
    if c.external != [] {
      var ver := VersionOf(c.external);
      var recipes := PutAll(c.external, Writer(ver));
      Join(ToLE(c.nextTypeId, 4), ToLE(|c.types|, 4), types, ToLE(0, 4), [ver], ToLE(|c.external|, 4), recipes);
      b := b + ToLE(0, 4) + [ver] + ToLE(|c.external|, 4) + recipes;
    } else {
      Join(ToLE(c.nextTypeId, 4), ToLE(|c.types|, 4), types, [], [], [], []);
    }
  }

  lemma Join(a: seq<byte>, n: seq<byte>, t: seq<byte>, s: seq<byte>, v: seq<byte>, c: seq<byte>, r: seq<byte>)
    ensures a + n + t + s + v + c + r == a + ((n + t) + (s + (v + (c + r))))
    ensures a + n + t == a + ((n + t) + [])
  {
    var x := s + (v + (c + r));
    assert a + n + t + s + v + c + r == a + n + t + x;
    assert a + n + t + x == a + ((n + t) + x);
  }

  method ReadLists7(b: seq<byte>, start: nat) returns (r: Parsed<Lists>)
    ensures r == ListsAt(b, start)
  {
    hide CountedAt;
    var indexes := TakeCounted(b, start, U16At);
    if indexes.None? { return None; }
    var unique := TakeCounted(b, indexes.value.1, U16At);
    if unique.None? { return None; }
    var fks := TakeCounted(b, unique.value.1, FkRefAt);
    if fks.None? { return None; }
    var checks := TakeCounted(b, fks.value.1, ProgAt);
    if checks.None? { return None; }
    var triggers := TakeCounted(b, checks.value.1, ProgAt);
    if triggers.None? { return None; }
    var ordered := TakeCounted(b, triggers.value.1, U16At);
    if ordered.None? { return None; }
    var composite := TakeCounted(b, ordered.value.1, IdsAt);
    if composite.None? { return None; }
    r := Some((Lists(indexes.value.0, unique.value.0, fks.value.0, checks.value.0, triggers.value.0, ordered.value.0,
                     composite.value.0), composite.value.1));
  }

  method ReadType(b: seq<byte>, p: nat) returns (r: Parsed<ObjectType>)
    ensures r == TypeAt(b, p)
  {
    hide U32At, ProgAt, ListsAt, DecodeTypeDef, DefaultsOf, SerialPkOf, SerialFieldOf;
    var typeId := U32At(b, p);
    if typeId.None? { return None; }
    var schemaVer := U32At(b, typeId.value.1);
    if schemaVer.None? { return None; }
    var def := ProgAt(b, schemaVer.value.1);
    if def.None? { return None; }
    var nameFields := ReadTypeDef(def.value.0);
    if nameFields.None? { return None; }
    var defaults := ReadDefaults(def.value.0);
    var l := ReadLists7(b, def.value.1);
    if l.None? { return None; }
    var ls := l.value.0;
    r := Some((ObjectType(typeId.value.0, nameFields.value.0, schemaVer.value.0, nameFields.value.1,
                          ls.indexes, ls.unique, ls.fks, ls.checks, ls.triggers, ls.ordered, ls.composite, defaults,
                          SerialPkOf(def.value.0), SerialFieldOf(def.value.0)), l.value.1));
  }

  method ReadTrailer(b: seq<byte>, p: nat) returns (rs: seq<Recipe>)
    ensures rs == TrailerOf(b, p)
  {
    hide U32At, RecipeAt, ListAt;
    if p >= |b| { return []; }
    var first := U32At(b, p);
    if first.None? { return []; }
    var q := first.value.1;
    var n, ver := first.value.0, 1;
    if n == 0 {
      if q >= |b| { return []; }
      ver := b[q];
      if ver != 2 && ver != 3 { return []; }
      var count := U32At(b, q + 1);
      if count.None? { return []; }
      n, q := count.value.0, count.value.1;
    }
    var r := TakeAll(b, q, n, Reader(ver));
    rs := if r.Some? then r.value.0 else [];
  }

  method ReadCatalog(b: seq<byte>) returns (r: Option<Catalog>)
    ensures r == Decode(b)
  {
    hide TypeAt, TrailerOf;
    if |b| < 8 { return Some(Catalog([], 0, [])); }
    var next := U32At(b, 0).value.0;
    var n, p := U32At(b, 4).value.0, 8;
    var types: seq<ObjectType> := [];
    FollowingNothing(ListAt(b, 8, n, TypeAt));
    for i := 0 to n
      invariant ListAt(b, 8, n, TypeAt) == Following(types, ListAt(b, p, n - i, TypeAt))
    {
      var t := ReadType(b, p);
      if t.None? { return None; }
      FollowingOne(types, t.value.0, ListAt(b, t.value.1, n - i - 1, TypeAt));
      types := types + [t.value.0];
      p := t.value.1;
    }
    assert types + [] == types;
    var external := ReadTrailer(b, p);
    r := Some(Catalog(types, next, external));
  }
}
