/**
 Filters that compare two columns, on stored rows: exactly when the compiled
 closure and the interpreter part ways.
 */
module ColumnFilters {
  import opened Bytes
  import opened Schema
  import opened Expr
  import opened Filter
  import Codec
  import Loads

  // ---- the program ------------------------------------------------------------------------------

  function LoadCode(fid: u16): seq<byte> {
    [1] + ToLE(fid, 2)
  }

  function LoadBoth(f: u16, g: u16): seq<byte> {
    LoadCode(f) + LoadCode(g)
  }

  /** LOAD f; LOAD g; compare. */
  function CompareCode(f: u16, g: u16, op: CmpOp): seq<byte> {
    LoadBoth(f, g) + [CmpCode(op)]
  }

  lemma FetchLoad(fid: u16, rest: seq<byte>)
    ensures Fetch(LoadCode(fid) + rest) == Some((LoadField(fid), 3)) && (LoadCode(fid) + rest)[3..] == rest
  {
    var code := LoadCode(fid) + rest;
    Pow256Small();
    SmallLE(fid, 2);
    assert code[1..3] == ToLE(fid, 2);
  }

  /** Loading pushes one value, compares nothing and takes one instruction. */
  lemma LoadFirst(env: Env, fid: u16, rest: seq<byte>, st: seq<Value>, work: seq<byte>)
    ensures var code, st' := LoadCode(fid) + rest, st + [Load(env.fields, env.rec, fid)];
            && Block(false, env, code, st, work) == Block(false, env, rest, st', work)
            && (Clean(env, code, st, work) <==> Clean(env, rest, st', work))
            && InstrCount(code) == 1 + InstrCount(rest)
  {
    hide Fetch, Load;
    FetchLoad(fid, rest);
  }

  lemma LoadsRun(env: Env, f: u16, g: u16)
    ensures var code := LoadBoth(f, g);
            && Block(false, env, code, [], env.rec)
               == Some(([Load(env.fields, env.rec, f), Load(env.fields, env.rec, g)], env.rec))
            && Clean(env, code, [], env.rec) && InstrCount(code) == 2
  {
    hide Fetch, Load, LoadCode;
    LoadFirst(env, f, LoadCode(g), [], env.rec);
    var st := [] + [Load(env.fields, env.rec, f)];
    LoadFirst(env, g, [], st, env.rec);
    assert st + [Load(env.fields, env.rec, g)] == [Load(env.fields, env.rec, f), Load(env.fields, env.rec, g)];
    assert LoadCode(g) + [] == LoadCode(g);
  }

  lemma CompileLoad(fields: seq<Field>, i: nat, rest: seq<byte>, items: seq<StackItem>)
    requires i < |fields| && DistinctIds(fields)
    ensures CompileRest(fields, LoadCode(fields[i].fieldId) + rest, items)
         == CompileRest(fields, rest, items + [LoadItem(fields, i)])
  {
    hide Fetch, LoadItem;
    FetchLoad(fields[i].fieldId, rest);
    Loads.FirstWithId(fields, i);
  }

  /** The program is accepted by the compiler. */
  lemma ComparisonCompiles(fields: seq<Field>, i: nat, j: nat, op: CmpOp)
    requires i < |fields| && j < |fields| && DistinctIds(fields)
    ensures CompileResult(fields, CompareCode(fields[i].fieldId, fields[j].fieldId, op)).Ok?
  {
    hide Fetch, LoadItem, LoadCode, Materialise, CompareItems;
    var f, g, a, b := fields[i].fieldId, fields[j].fieldId, LoadItem(fields, i), LoadItem(fields, j);
    assert CompareCode(f, g, op) == LoadCode(f) + (LoadCode(g) + [CmpCode(op)]);
    CompileLoad(fields, i, LoadCode(g) + [CmpCode(op)], []);
    CompileLoad(fields, j, [CmpCode(op)], [] + [a]);
    CompileCompare(fields, op, [] + [a] + [b]);
  }

  lemma CompileCompare(fields: seq<Field>, op: CmpOp, items: seq<StackItem>)
    requires |items| == 2
    ensures CompileRest(fields, [CmpCode(op)], items) == Ok(CompareItems(items[0], items[1], op))
  {
    hide CompareItems;
    assert Fetch([CmpCode(op)]) == Some((Cmp(op), 1));
    assert [CmpCode(op)][1..] == [];
    hide Fetch;
    assert items[..0] + [Bn(CompareItems(items[0], items[1], op))] == [Bn(CompareItems(items[0], items[1], op))];
  }

  // ---- stored rows ------------------------------------------------------------------------------

  /** What a column of a stored row loads as. */
  lemma LoadedKind(ot: ObjectType, values: seq<Codec.Value>, i: nat)
    requires Codec.Storable(ot.fields, values) && |ot.fields| <= MAX_FIELDS && DistinctIds(ot.fields)
    requires i < |ot.fields|
    ensures var v := Load(ot.fields, Codec.Record(ot, values), ot.fields[i].fieldId);
            && (v.VNull? <==> values[i].Null?)
            && (v.VBytes? <==> !values[i].Null? && ot.fields[i].kind.IsBlob())
  {
    hide Codec.Record, Codec.RawOf, Load, Codec.DecodeAt;
    Codec.DecodeStored(ot, values, ot.fields, i);
    Loads.LoadAgreesWithDecode(ot, values, ot.fields, i);
  }

  /** EQ does not compare two NULLs; NE compares two NULLs, two numbers or two byte strings. */
  predicate ComparesAlike(fields: seq<Field>, values: seq<Codec.Value>, i: nat, j: nat, op: CmpOp)
    requires i < |fields| == |values| && j < |fields|
  {
    var nulls, blobs := (values[i].Null?, values[j].Null?), (fields[i].kind.IsBlob(), fields[j].kind.IsBlob());
    && (op == Eq ==> nulls != (true, true))
    && (op == Ne ==> nulls.0 == nulls.1 && (nulls.0 || blobs.0 == blobs.1))
  }

  /**
   A compiled comparison of two columns gives the interpreter's verdict on a stored row
   if and only if it is not EQ of two NULLs and not NE of values of different kinds.
   */
  lemma ColumnComparison(ot: ObjectType, values: seq<Codec.Value>, env: Env, i: nat, j: nat, op: CmpOp)
    requires Codec.Storable(ot.fields, values) && |ot.fields| <= MAX_FIELDS && DistinctIds(ot.fields)
    requires env.fields == ot.fields && env.rec == Codec.Record(ot, values)
    requires i < |ot.fields| && j < |ot.fields|
    ensures var code := CompareCode(ot.fields[i].fieldId, ot.fields[j].fieldId, op);
            && CompileResult(ot.fields, code).Ok?
            && (Agrees(env, code) <==> ComparesAlike(ot.fields, values, i, j, op))
  {
    hide Codec.Record, CompileResult, Load, Faithful, Clean, Block, InstrCount, Agrees, LoadBoth, RecordSize;
    var f, g := ot.fields[i].fieldId, ot.fields[j].fieldId;
    ComparisonCompiles(ot.fields, i, j, op);
    StoredRowIsFaithful(ot, values, ot.fields);
    LoadsRun(env, f, g);
    LoadedKind(ot, values, i);
    LoadedKind(ot, values, j);
    var st := [Load(env.fields, env.rec, f), Load(env.fields, env.rec, g)];
    FinalComparisonDecides(env, LoadBoth(f, g), op, st, env.rec);
  }

  // ---- rows on which they differ -----------------------------------------------------------------

  const NUMBER: Field := Field(1, "n", U8, true)
  const TEXT: Field := Field(2, "t", Char(1), true)
  const ROW: ObjectType := FromDef("row", [NUMBER, TEXT])

  /** The environment of a filter over a stored row of that type. */
  function RowEnv(env: Env, values: seq<Codec.Value>): Env
    requires Codec.Storable(ROW.fields, values)
  {
    env.(fields := ROW.fields, rec := Codec.Record(ROW, values))
  }

  /** A column that is NULL, compared with itself for equality: the closure denies what the interpreter affirms. */
  lemma NullAgainstItself(env: Env)
    ensures Codec.Storable(ROW.fields, [Codec.Null, Codec.Null])
    ensures CompileResult(ROW.fields, CompareCode(1, 1, Eq)).Ok?
    ensures !Agrees(RowEnv(env, [Codec.Null, Codec.Null]), CompareCode(1, 1, Eq))
  {
    var values := [Codec.Null, Codec.Null];
    RowStores(values);
    hide Codec.Record, Agrees, CompileResult, Codec.Storable;
    ColumnComparison(ROW, values, RowEnv(env, values), 0, 0, Eq);
  }

  /** A number and a text are unequal to the interpreter, and not so to the closure. */
  lemma NumberAgainstText(env: Env)
    ensures Codec.Storable(ROW.fields, [Codec.Uint(7), Codec.Blob([65])])
    ensures CompileResult(ROW.fields, CompareCode(1, 2, Ne)).Ok?
    ensures !Agrees(RowEnv(env, [Codec.Uint(7), Codec.Blob([65])]), CompareCode(1, 2, Ne))
  {
    var values := [Codec.Uint(7), Codec.Blob([65])];
    RowStores(values);
    hide Codec.Record, Agrees, CompileResult, Codec.Storable;
    ColumnComparison(ROW, values, RowEnv(env, values), 0, 1, Ne);
  }

  lemma RowStores(values: seq<Codec.Value>)
    requires |values| == 2 && (values[0].Null? || values[0].Uint?)
    requires values[1].Null? || (values[1].Blob? && |values[1].b| <= 1)
    ensures Codec.Storable(ROW.fields, values)
  {
    assert Codec.FieldError(ROW.fields, values, 0).None? && Codec.FieldError(ROW.fields, values, 1).None?;
    assert Codec.FirstError(ROW.fields, values, 2).None?;
    assert Codec.FirstError(ROW.fields, values, 1).None?;
  }
}
