/**
 A check of filter bytecode against the schema alone: which kinds of values each
 place of the stack may hold, from column kinds and nullability.  A program that
 passes is filtered by its closure as the interpreter would, on every stored row.
 */
module StaticFilters {
  import opened Bytes
  import opened Schema
  import opened Expr
  import opened Filter
  import opened ColumnFilters
  import Codec
  import Loads

  // ---- kinds of values -------------------------------------------------------------------------

  /** What a place of the stack may hold. */
  datatype Kinds = Kinds(ints: bool, bytes: bool, nulls: bool)

  const INT := Kinds(true, false, false)
  const BYTES := Kinds(false, true, false)

  predicate Has(ks: Kinds, v: Value) {
    match v
    case VInt(_) => ks.ints
    case VBytes(_) => ks.bytes
    case VNull => ks.nulls
  }

  /** What a column may load as, in rows that store at least its first `base` columns. */
  function ColumnKinds(fields: seq<Field>, base: nat, i: nat): Kinds
    requires i < |fields|
  {
    var blob := fields[i].kind.IsBlob();
    Kinds(!blob, blob, fields[i].nullable || i >= base)
  }

  function LoadKinds(fields: seq<Field>, base: nat, fid: u16): Kinds {
    match FieldIndex(fields, fid)
    case None => Kinds(false, false, true)
    case Some(i) => ColumnKinds(fields, base, i)
  }

  /** EQ cannot meet two NULLs, and NE cannot meet operands of different kinds. */
  predicate SafeKinds(op: CmpOp, a: Kinds, b: Kinds) {
    && (op == Eq ==> !(a.nulls && b.nulls))
    && (op == Ne ==>
          && !(a.ints && (b.bytes || b.nulls))
          && !(a.bytes && (b.ints || b.nulls))
          && !(a.nulls && (b.ints || b.bytes)))
  }

  // ---- the check -------------------------------------------------------------------------------

  /** The kinds on the stack after one instruction; nothing if it is not safe or not for filters. */
  function KindsAfter(fields: seq<Field>, base: nat, ins: Instr, ks: seq<Kinds>): Option<seq<Kinds>> {
    var n := |ks|;
    match ins
    case PushInt(_) => Some(ks + [INT])
    case PushBytes(_) => Some(ks + [BYTES])
    case LoadField(fid) => Some(ks + [LoadKinds(fields, base, fid)])
    case IsNull(_) => Some(ks + [INT])
    case Not => if n < 1 then None else Some(ks[..n - 1] + [INT])
    case And => if n < 2 then None else Some(ks[..n - 2] + [INT])
    case Or => if n < 2 then None else Some(ks[..n - 2] + [INT])
    case Cmp(op) =>
      if n < 2 || !SafeKinds(op, ks[n - 2], ks[n - 1]) then None else Some(ks[..n - 2] + [INT])
    case _ => None
  }

  predicate Checked(fields: seq<Field>, base: nat, code: seq<byte>, ks: seq<Kinds>)
    decreases |code|
  {
    if code == [] then true
    else match Fetch(code)
      case None => false
      case Some((ins, len)) =>
        match KindsAfter(fields, base, ins, ks)
        case None => false
        case Some(next) => Checked(fields, base, code[len..], next)
  }

  // ---- the check against the run ---------------------------------------------------------------

  ghost predicate Holding(ks: seq<Kinds>, st: seq<Value>) {
    |ks| == |st| && forall k | 0 <= k < |st| :: Has(ks[k], st[k])
  }

  /** Loading any column gives a value of the kinds foreseen for it. */
  ghost predicate Foreseen(fields: seq<Field>, base: nat, rec: seq<byte>) {
    forall i | 0 <= i < |fields| :: Has(ColumnKinds(fields, base, i), LoadAt(fields, rec, i))
  }

  lemma SafeKindsAreSafe(op: CmpOp, a: Kinds, b: Kinds, x: Value, y: Value)
    requires SafeKinds(op, a, b) && Has(a, x) && Has(b, y)
    ensures CmpSafe(op, x, y)
  {
  }

  lemma LoadForeseen(env: Env, base: nat, fid: u16)
    requires Foreseen(env.fields, base, env.rec)
    ensures Has(LoadKinds(env.fields, base, fid), Load(env.fields, env.rec, fid))
  {
    hide LoadAt;
  }

  lemma StepChecked(env: Env, base: nat, ins: Instr, ks: seq<Kinds>, st: seq<Value>, work: seq<byte>)
    requires Foreseen(env.fields, base, env.rec) && Holding(ks, st)
    requires KindsAfter(env.fields, base, ins, ks).Some?
    ensures ins.Cmp? ==> |st| >= 2 && CmpSafe(ins.cmp, st[|st| - 2], st[|st| - 1])
    ensures match Exec(false, env, ins, st, work)
            case Next(st', _) => Holding(KindsAfter(env.fields, base, ins, ks).value, st')
            case _ => true
  {
    hide Load, LoadKinds, SafeKinds, CmpSafe, VmCmp, StrictCmp, Foreseen;
    var n := |st|;
    match ins
    case LoadField(fid) => LoadForeseen(env, base, fid);
    case Cmp(op) => SafeKindsAreSafe(op, ks[n - 2], ks[n - 1], st[n - 2], st[n - 1]);
    case _ =>
  }

  /** A checked program compares safely on every record whose columns are as foreseen. */
  lemma {:induction false} CheckedIsClean(
      env: Env, base: nat, code: seq<byte>, ks: seq<Kinds>, st: seq<Value>, work: seq<byte>)
    requires Foreseen(env.fields, base, env.rec) && Holding(ks, st) && Checked(env.fields, base, code, ks)
    ensures Clean(env, code, st, work)
    decreases |code|
  {
    hide Fetch, Exec, KindsAfter, Holding, Foreseen, CmpSafe;
    if code != [] {
      var (ins, len) := Fetch(code).value;
      StepChecked(env, base, ins, ks, st, work);
      match Exec(false, env, ins, st, work)
      case Next(st', work') =>
        CheckedIsClean(env, base, code[len..], KindsAfter(env.fields, base, ins, ks).value, st', work');
      case _ =>
    }
  }

  // ---- stored rows -----------------------------------------------------------------------------

  lemma KindOfLoad(fields: seq<Field>, rec: seq<byte>, i: nat)
    requires i < |fields|
    ensures var v := LoadAt(fields, rec, i); v.VNull? || (if fields[i].kind.IsBlob() then v.VBytes? else v.VInt?)
  {
    hide FieldIsNull, Codec.SignExtend, Codec.ZeroExtend, Codec.U128FromLE, Offset;
  }

  /** A column that the row stores loads as NULL only where a NULL was stored. */
  lemma NullWasStored(ot: ObjectType, values: seq<Codec.Value>, wide: seq<Field>, i: nat)
    requires Codec.Storable(ot.fields, values) && |ot.fields| <= MAX_FIELDS
    requires Codec.Extends(wide, ot.fields) && i < |ot.fields|
    requires LoadAt(wide, Codec.Record(ot, values), i).VNull?
    ensures i < |wide| && wide[i].nullable
  {
    hide Codec.Record, LoadAt, Codec.DecodeAt, Codec.RawOf, Offset;
    Codec.DecodeStored(ot, values, wide, i);
    Loads.StoredRowIsCodecRecord(ot, values, wide);
    Codec.RecordSlice(ot, values, i);
    Codec.ExtendsOffsets(wide, ot.fields, i);
    Loads.ReadersAgree(wide, Codec.Record(ot, values), i);
  }

  lemma StoredRowIsForeseen(ot: ObjectType, values: seq<Codec.Value>, wide: seq<Field>, base: nat)
    requires Codec.Storable(ot.fields, values) && 0 < |ot.fields| <= MAX_FIELDS
    requires Codec.Extends(wide, ot.fields) && base <= |ot.fields|
    ensures Foreseen(wide, base, Codec.Record(ot, values))
  {
    hide Codec.Record, LoadAt, Codec.Storable;
    forall i | 0 <= i < |wide|
      ensures Has(ColumnKinds(wide, base, i), LoadAt(wide, Codec.Record(ot, values), i))
    {
      KindOfLoad(wide, Codec.Record(ot, values), i);
      if i < base && LoadAt(wide, Codec.Record(ot, values), i).VNull? { NullWasStored(ot, values, wide, i); }
    }
  }

  /**
   Compiler correctness from the schema alone: a program that passes the check is judged by its closure
   as by the interpreter on every row stored with at least `base` columns, as long as the schema still
   lays out records of the size of the row.
   */
  lemma CheckedFilterAgrees(
      ot: ObjectType, values: seq<Codec.Value>, wide: seq<Field>, base: nat, env: Env, code: seq<byte>)
    requires Codec.Storable(ot.fields, values) && 0 < |ot.fields| <= MAX_FIELDS
    requires Codec.Extends(wide, ot.fields) && base <= |ot.fields| && RecordSize(wide) == RecordSize(ot.fields)
    requires env.fields == wide && env.rec == Codec.Record(ot, values)
    requires CompileResult(wide, code).Ok? && InstrCount(code) <= GAS_LIMIT && Checked(wide, base, code, [])
    ensures Clean(env, code, [], env.rec) && Agrees(env, code)
  {
    hide CompileResult, Clean, EvalResult, Codec.Record, Checked, RecordSize, Foreseen, Faithful, Codec.Storable;
    StoredRowIsForeseen(ot, values, wide, base);
    CheckedIsClean(env, base, code, [], [], env.rec);
    StoredRowIsFaithful(ot, values, wide);
    FilterAgrees(env, code);
  }

  // ---- how much the check refuses ----------------------------------------------------------------

  lemma CheckedLoad(fields: seq<Field>, base: nat, fid: u16, rest: seq<byte>, ks: seq<Kinds>)
    ensures Checked(fields, base, LoadCode(fid) + rest, ks)
            <==> Checked(fields, base, rest, ks + [LoadKinds(fields, base, fid)])
  {
    hide Fetch, LoadKinds, LoadCode;
    FetchLoad(fid, rest);
    LoadIsLong(fid, rest);
  }

  lemma LoadIsLong(fid: u16, rest: seq<byte>)
    ensures |LoadCode(fid) + rest| > 0
  {
  }

  lemma CheckedCompare(fields: seq<Field>, base: nat, op: CmpOp, a: Kinds, b: Kinds)
    ensures Checked(fields, base, [CmpCode(op)], [a, b]) <==> SafeKinds(op, a, b)
  {
    hide SafeKinds;
    assert Fetch([CmpCode(op)]) == Some((Cmp(op), 1));
    assert [CmpCode(op)][1..] == [];
  }

  lemma ComparisonChecked(fields: seq<Field>, i: nat, j: nat, op: CmpOp)
    requires i < |fields| && j < |fields| && DistinctIds(fields)
    ensures Checked(fields, |fields|, CompareCode(fields[i].fieldId, fields[j].fieldId, op), [])
            <==> SafeKinds(op, ColumnKinds(fields, |fields|, i), ColumnKinds(fields, |fields|, j))
  {
    hide Checked, LoadCode, SafeKinds, ColumnKinds;
    var f, g, n := fields[i].fieldId, fields[j].fieldId, |fields|;
    Loads.FirstWithId(fields, i);
    Loads.FirstWithId(fields, j);
    var a, b := ColumnKinds(fields, n, i), ColumnKinds(fields, n, j);
    assert CompareCode(f, g, op) == LoadCode(f) + (LoadCode(g) + [CmpCode(op)]);
    CheckedLoad(fields, n, f, LoadCode(g) + [CmpCode(op)], []);
    CheckedLoad(fields, n, g, [CmpCode(op)], [] + [a]);
    assert [] + [a] + [b] == [a, b];
    CheckedCompare(fields, n, op, a, b);
  }

  /** A row of zeros and empty texts, with NULLs in these columns. */
  function PlainRow(fields: seq<Field>, nulls: set<nat>): (vs: seq<Codec.Value>)
    ensures |vs| == |fields|
  {
    seq(|fields|, i requires 0 <= i < |fields| =>
      if i in nulls then Codec.Null else if fields[i].kind.IsBlob() then Codec.Blob([]) else Codec.Uint(0))
  }

  lemma PlainRowStores(fields: seq<Field>, nulls: set<nat>)
    requires |fields| <= MAX_FIELDS && forall i | i in nulls :: i < |fields| && fields[i].nullable
    ensures Codec.Storable(fields, PlainRow(fields, nulls))
  {
    var vs := PlainRow(fields, nulls);
    forall i | 0 <= i < |fields|
      ensures Codec.FieldError(fields, vs, i).None?
    {
    }
    hide Codec.FieldError;
  }

  function StoredEnv(env: Env, ot: ObjectType, values: seq<Codec.Value>): Env
    requires Codec.Storable(ot.fields, values)
  {
    env.(fields := ot.fields, rec := Codec.Record(ot, values))
  }

  /** On every stored row the comparison of these columns is judged alike. */
  ghost predicate AlwaysAgrees(env: Env, ot: ObjectType, code: seq<byte>)
    requires CompileResult(ot.fields, code).Ok?
  {
    forall values | Codec.Storable(ot.fields, values) :: Agrees(StoredEnv(env, ot, values), code)
  }

  /** A stored row on which a refused comparison goes wrong. */
  lemma RefusedForGood(fields: seq<Field>, i: nat, j: nat, op: CmpOp) returns (values: seq<Codec.Value>)
    requires |fields| <= MAX_FIELDS && i < |fields| && j < |fields| && !(i == j && op == Ne)
    requires !SafeKinds(op, ColumnKinds(fields, |fields|, i), ColumnKinds(fields, |fields|, j))
    ensures Codec.Storable(fields, values) && !ComparesAlike(fields, values, i, j, op)
  {
    hide Codec.Storable;
    var nulls :=
      if op == Eq then {i, j}
      else if fields[i].kind.IsBlob() != fields[j].kind.IsBlob() then {}
      else if fields[i].nullable then {i} else {j};
    values := PlainRow(fields, nulls);
    PlainRowStores(fields, nulls);
  }

  /**
   A comparison of two columns passes the check if and only if every stored row is judged alike,
   but for a column compared with itself for inequality, which is always judged alike.
   */
  lemma ComparisonCheckIsExact(env: Env, ot: ObjectType, i: nat, j: nat, op: CmpOp)
    requires |ot.fields| <= MAX_FIELDS && DistinctIds(ot.fields) && i < |ot.fields| && j < |ot.fields|
    ensures var code := CompareCode(ot.fields[i].fieldId, ot.fields[j].fieldId, op);
            && CompileResult(ot.fields, code).Ok?
            && (AlwaysAgrees(env, ot, code) <==>
                Checked(ot.fields, |ot.fields|, code, []) || (i == j && op == Ne))
  {
    hide Codec.Record, CompileResult, Agrees, Checked, CompareCode, SafeKinds, ColumnKinds, Codec.Storable,
         ComparesAlike;
    ComparisonCompiles(ot.fields, i, j, op);
    ComparisonChecked(ot.fields, i, j, op);
    var code := CompareCode(ot.fields[i].fieldId, ot.fields[j].fieldId, op);
    if Checked(ot.fields, |ot.fields|, code, []) || (i == j && op == Ne) {
      forall values | Codec.Storable(ot.fields, values)
        ensures Agrees(StoredEnv(env, ot, values), code)
      {
        ColumnComparison(ot, values, StoredEnv(env, ot, values), i, j, op);
        SafeColumnsAlike(ot.fields, values, i, j, op);
      }
    } else {
      var values := RefusedForGood(ot.fields, i, j, op);
      ColumnComparison(ot, values, StoredEnv(env, ot, values), i, j, op);
    }
  }

  lemma SafeColumnsAlike(fields: seq<Field>, values: seq<Codec.Value>, i: nat, j: nat, op: CmpOp)
    requires Codec.Storable(fields, values) && i < |fields| && j < |fields|
    requires SafeKinds(op, ColumnKinds(fields, |fields|, i), ColumnKinds(fields, |fields|, j)) || (i == j && op == Ne)
    ensures ComparesAlike(fields, values, i, j, op)
  {
    assert Codec.FieldError(fields, values, i).None? && Codec.FieldError(fields, values, j).None?;
  }
}
