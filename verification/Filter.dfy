/**
 Compiling filter bytecode into closures.

 The compiler runs the program once on a stack of expressions and turns the
 remaining one into a closure over the record.  The interpreter is the oracle:
 these proofs say for which records and programs the closure gives its verdict.
 */
module Filter {
  import opened Bytes
  import opened Schema
  import opened Expr
  import Codec

  type FilterFn = seq<byte> -> bool

  datatype CompileError =
    | Unsupported(opName: string)
    | BadCode
    | Underflow
    | Malformed
    | UnknownField(fieldId: u16)

  /** Record size and field count of the current schema, fixed when compiling. */
  datatype Shape = Shape(recordSize: nat, fieldCount: nat)

  datatype Operand =
    | ConstInt(n: i128)
    | ConstBytes(b: seq<byte>)
    | LoadInt(off: nat, width: nat, signed: bool, idx: nat, shape: Shape)
    | LoadBytes(off: nat, width: nat, idx: nat, shape: Shape)
    | BoolAsInt(node: BoolNode)

  datatype BoolNode =
    | True
    | False
    | NullTest(idx: nat, shape: Shape)
    | Compare(lhs: Operand, rhs: Operand, op: CmpOp)
    | Both(left: BoolNode, right: BoolNode)
    | Either(left: BoolNode, right: BoolNode)
    | Negate(inner: BoolNode)
    | CompareBools(left: BoolNode, right: BoolNode, op: CmpOp)

  datatype StackItem = Opd(operand: Operand) | Bn(node: BoolNode)

  function ShapeOf(fields: seq<Field>): Shape {
    Shape(RecordSize(fields), |fields|)
  }

  function OperandSize(o: Operand): (n: nat)
    ensures n > 0
  {
    match o
    case BoolAsInt(node) => 1 + NodeSize(node)
    case _ => 1
  }

  function NodeSize(node: BoolNode): (n: nat)
    ensures n > 0
  {
    match node
    case Compare(l, r, _) => 1 + OperandSize(l) + OperandSize(r)
    case Both(a, b) => 1 + NodeSize(a) + NodeSize(b)
    case Either(a, b) => 1 + NodeSize(a) + NodeSize(b)
    case Negate(a) => 1 + NodeSize(a)
    case CompareBools(a, b, _) => 1 + NodeSize(a) + NodeSize(b)
    case _ => 1
  }

  // ---- reading a record inside a closure --------------------------------------------

  predicate NullAt(rec: seq<byte>, idx: nat, shape: Shape) {
    if |rec| < HEADER_BYTES then false
    else
      var fc := Codec.StoredCount(rec);
      if fc == 0 || fc > shape.fieldCount then false
      else if |rec| != shape.recordSize then false
      else idx >= fc || NullBit(rec, idx)
  }

  function ReadInt(rec: seq<byte>, off: nat, width: nat, signed: bool): Option<i128> {
    if off + width > |rec| then None
    else
      var raw := rec[off..off + width];
      Some(ToSigned(Codec.U128FromLE(
        if signed && 0 < width <= 16 then Codec.SignExtend(raw) else Codec.ZeroExtend(raw))))
  }

  function ReadBytes(rec: seq<byte>, off: nat, width: nat): Option<seq<byte>> {
    if off + width > |rec| then None else Some(rec[off..off + width])
  }

  // ---- closures --------------------------------------------------------------------------

  function Swap(op: CmpOp): CmpOp {
    match op
    case Lt => Gt
    case Le => Ge
    case Gt => Lt
    case Ge => Le
    case Eq => Eq
    case Ne => Ne
  }

  function LoadVsConst(off: nat, width: nat, signed: bool, idx: nat, shape: Shape, v: i128, op: CmpOp): FilterFn {
    rec =>
      if NullAt(rec, idx, shape) then false
      else match ReadInt(rec, off, width, signed)
        case Some(a) => Holds(CmpInts(a, v), op)
        case None => false
  }

  function OperandInt(o: Operand): seq<byte> -> Option<i128>
    decreases OperandSize(o)
  {
    match o
    case ConstInt(v) => (rec => Some(v))
    case ConstBytes(_) => (rec => None)
    case LoadInt(off, width, signed, idx, shape) =>
      (rec => if NullAt(rec, idx, shape) then None else ReadInt(rec, off, width, signed))
    case LoadBytes(_, _, _, _) => (rec => None)
    case BoolAsInt(node) =>
      var f := Materialise(node);
      (rec => Some(if f(rec) then 1 else 0))
  }

  function OperandBytes(o: Operand): seq<byte> -> Option<seq<byte>> {
    match o
    case ConstBytes(b) => (rec => Some(b))
    case LoadBytes(off, width, idx, shape) =>
      (rec => if NullAt(rec, idx, shape) then None else ReadBytes(rec, off, width))
    case _ => (rec => None)
  }

  predicate IsBytes(o: Operand) {
    o.ConstBytes? || o.LoadBytes?
  }

  function MaterialiseCmp(lhs: Operand, rhs: Operand, op: CmpOp): FilterFn
    decreases OperandSize(lhs) + OperandSize(rhs)
  {
    if IsBytes(lhs) && IsBytes(rhs) then
      var fa, fb := OperandBytes(lhs), OperandBytes(rhs);
      (rec => match (fa(rec), fb(rec))
        case (Some(a), Some(b)) => Holds(CmpBytes(RightTrim(a), RightTrim(b)), op)
        case _ => false)
    else if !IsBytes(lhs) && !IsBytes(rhs) then
      if lhs.LoadInt? && rhs.ConstInt? then
        LoadVsConst(lhs.off, lhs.width, lhs.signed, lhs.idx, lhs.shape, rhs.n, op)
      else if lhs.ConstInt? && rhs.LoadInt? then
        LoadVsConst(rhs.off, rhs.width, rhs.signed, rhs.idx, rhs.shape, lhs.n, Swap(op))
      else
        var fa, fb := OperandInt(lhs), OperandInt(rhs);
        (rec => match (fa(rec), fb(rec))
          case (Some(a), Some(b)) => Holds(CmpInts(a, b), op)
          case _ => false)
    else (rec => false)
  }

  function Materialise(node: BoolNode): FilterFn
    decreases NodeSize(node)
  {
    match node
    case True => (rec => true)
    case False => (rec => false)
    case NullTest(idx, shape) => (rec => NullAt(rec, idx, shape))
    case Compare(lhs, rhs, op) => MaterialiseCmp(lhs, rhs, op)
    case Both(a, b) => var fa, fb := Materialise(a), Materialise(b); (rec => fa(rec) && fb(rec))
    case Either(a, b) => var fa, fb := Materialise(a), Materialise(b); (rec => fa(rec) || fb(rec))
    case Negate(a) => var fa := Materialise(a); (rec => !fa(rec))
    case CompareBools(l, r, op) =>
      var fa, fb := Materialise(l), Materialise(r);
      (rec => Holds(CmpInts(if fa(rec) then 1 else 0, if fb(rec) then 1 else 0), op))
  }

  // ---- the compiler ----------------------------------------------------------------------------

  function IntoOperand(item: StackItem): Operand {
    match item
    case Opd(o) => o
    case Bn(b) => BoolAsInt(b)
  }

  function IntoBool(item: StackItem): BoolNode {
    match item
    case Bn(b) => b
    case Opd(ConstInt(n)) => if n != 0 then True else False
    case Opd(o) => Compare(o, ConstInt(0), Ne)
  }

  function UnsupportedOp(op: byte): Option<string> {
    match op
    case 9 => Some("ADD")
    case 10 => Some("SUB")
    case 11 => Some("MUL")
    case 12 => Some("DIV")
    case 13 => Some("MOD")
    case 18 => Some("SET_FIELD")
    case 19 => Some("REJECT")
    case 20 => Some("LIKE")
    case 21 => Some("SHA256")
    case 22 => Some("HMAC256")
    case _ => None
  }

  /** The expression that loads column `i`. */
  function LoadItem(fields: seq<Field>, i: nat): StackItem
    requires i < |fields|
  {
    var off, w, kind := Offset(fields, i), fields[i].kind.Width(), fields[i].kind;
    if kind.IsBlob() then Opd(LoadBytes(off, w, i, ShapeOf(fields)))
    else Opd(LoadInt(off, w, kind.IsSigned(), i, ShapeOf(fields)))
  }

  predicate Compiles(ins: Instr) {
    ins.PushInt? || ins.PushBytes? || ins.LoadField? || ins.IsNull? || ins.Cmp? || ins.And? || ins.Or? || ins.Not?
  }

  function CompileStep(fields: seq<Field>, ins: Instr, items: seq<StackItem>)
    : Result<seq<StackItem>, CompileError>
    requires Compiles(ins)
  {
    var n := |items|;
    match ins
    case PushInt(k) => Ok(items + [Opd(ConstInt(k))])
    case PushBytes(b) => Ok(items + [Opd(ConstBytes(b))])
    case LoadField(fid) =>
      (match FieldIndex(fields, fid)
       case None => Err(UnknownField(fid))
       case Some(i) => Ok(items + [LoadItem(fields, i)]))
    case IsNull(fid) =>
      (match FieldIndex(fields, fid)
       case None => Err(UnknownField(fid))
       case Some(i) => Ok(items + [Bn(NullTest(i, ShapeOf(fields)))]))
    case Not => if n < 1 then Err(Underflow) else Ok(items[..n - 1] + [Bn(Negate(IntoBool(items[n - 1])))])
    case And =>
      if n < 2 then Err(Underflow)
      else Ok(items[..n - 2] + [Bn(Both(IntoBool(items[n - 2]), IntoBool(items[n - 1])))])
    case Or =>
      if n < 2 then Err(Underflow)
      else Ok(items[..n - 2] + [Bn(Either(IntoBool(items[n - 2]), IntoBool(items[n - 1])))])
    case Cmp(op) =>
      if n < 2 then Err(Underflow)
      else Ok(items[..n - 2] + [Bn(CompareItems(items[n - 2], items[n - 1], op))])
  }

  function CompareItems(lhs: StackItem, rhs: StackItem, op: CmpOp): BoolNode {
    if lhs.Bn? && rhs.Bn? then CompareBools(lhs.node, rhs.node, op)
    else Compare(IntoOperand(lhs), IntoOperand(rhs), op)
  }

  /** The rest of a compilation. */
  function CompileRest(fields: seq<Field>, code: seq<byte>, items: seq<StackItem>)
    : Result<BoolNode, CompileError>
    decreases |code|
  {
    if code == [] then if |items| != 1 then Err(Malformed) else Ok(IntoBool(items[0]))
    else if UnsupportedOp(code[0]).Some? then Err(Unsupported(UnsupportedOp(code[0]).value))
    else match Fetch(code)
      case None => Err(BadCode)
      case Some((ins, len)) =>
        FetchSupported(code);
        match CompileStep(fields, ins, items)
        case Err(e) => Err(e)
        case Ok(items') => CompileRest(fields, code[len..], items')
  }

  lemma FetchSupported(code: seq<byte>)
    requires code != [] && UnsupportedOp(code[0]).None? && Fetch(code).Some?
    ensures Compiles(Fetch(code).value.0)
  {
  }

  function CompileResult(fields: seq<Field>, code: seq<byte>): Result<FilterFn, CompileError> {
    match CompileRest(fields, code, [])
    case Err(e) => Err(e)
    case Ok(node) => Ok(Materialise(node))
  }

  method CompileFilter(fields: seq<Field>, code: seq<byte>) returns (r: Result<FilterFn, CompileError>)
    ensures r == CompileResult(fields, code)
  {
    hide Materialise, IntoBool, CompileStep, Fetch;
    var items: seq<StackItem> := [];
    var pc := 0;
    assert code[0..] == code;
    while pc < |code|
      invariant 0 <= pc <= |code|
      invariant CompileRest(fields, code, []) == CompileRest(fields, code[pc..], items)
    {
      var unsupported := UnsupportedOp(code[pc]);
      if unsupported.Some? {
        return Err(Unsupported(unsupported.value));
      }
      var f := Fetch(code[pc..]);
      if f.None? {
        return Err(BadCode);
      }
      FetchSupported(code[pc..]);
      var (ins, len) := f.value;
      var step := CompileStep(fields, ins, items);
      if step.Err? {
        return Err(step.error);
      }
      items := step.value;
      assert code[pc..][len..] == code[pc + len..];
      pc := pc + len;
    }
    if |items| != 1 {
      return Err(Malformed);
    }
    r := Ok(Materialise(IntoBool(items[0])));
  }

  // ---- what closures compute -----------------------------------------------------------------

  /** The value the interpreter would hold where the compiler holds this operand. */
  function OperandValue(o: Operand, rec: seq<byte>): Value {
    match o
    case ConstInt(n) => VInt(n)
    case ConstBytes(b) => VBytes(b)
    case LoadInt(off, width, signed, idx, shape) =>
      if NullAt(rec, idx, shape) then VNull
      else (match ReadInt(rec, off, width, signed) case None => VNull case Some(n) => VInt(n))
    case LoadBytes(off, width, idx, shape) =>
      if NullAt(rec, idx, shape) then VNull
      else (match ReadBytes(rec, off, width) case None => VNull case Some(b) => VBytes(b))
    case BoolAsInt(node) => Flag(Materialise(node)(rec))
  }

  function ItemValue(item: StackItem, rec: seq<byte>): Value {
    match item
    case Opd(o) => OperandValue(o, rec)
    case Bn(b) => Flag(Materialise(b)(rec))
  }

  lemma OperandClosures(o: Operand, rec: seq<byte>)
    ensures OperandInt(o)(rec) == (if OperandValue(o, rec).VInt? then Some(OperandValue(o, rec).n) else None)
    ensures OperandBytes(o)(rec) == (if OperandValue(o, rec).VBytes? then Some(OperandValue(o, rec).b) else None)
    ensures IsBytes(o) ==> !OperandValue(o, rec).VInt?
    ensures !IsBytes(o) ==> !OperandValue(o, rec).VBytes?
  {
    hide NullAt, ReadInt, ReadBytes;
  }

  lemma SwapHolds(a: int, b: int, op: CmpOp)
    ensures Holds(CmpInts(a, b), op) == Holds(CmpInts(b, a), Swap(op))
  {
  }

  /** Every comparison closure is the strict comparison of its operands' values. */
  lemma ComparisonClosure(lhs: Operand, rhs: Operand, op: CmpOp, rec: seq<byte>)
    ensures MaterialiseCmp(lhs, rhs, op)(rec)
            == StrictCmp(op, OperandValue(lhs, rec), OperandValue(rhs, rec))
  {
    hide NullAt, ReadInt, ReadBytes, RightTrim, CmpBytes;
    OperandClosures(lhs, rec);
    OperandClosures(rhs, rec);
    if lhs.ConstInt? && rhs.LoadInt? {
      if OperandValue(rhs, rec).VInt? {
        SwapHolds(lhs.n, OperandValue(rhs, rec).n, op);
      }
    }
  }

  lemma CompareItemsValue(lhs: StackItem, rhs: StackItem, op: CmpOp, rec: seq<byte>)
    ensures Materialise(CompareItems(lhs, rhs, op))(rec)
            == StrictCmp(op, ItemValue(lhs, rec), ItemValue(rhs, rec))
  {
    if !(lhs.Bn? && rhs.Bn?) {
      hide MaterialiseCmp;
      ComparisonClosure(IntoOperand(lhs), IntoOperand(rhs), op, rec);
    }
  }

  lemma IntoBoolValue(item: StackItem, rec: seq<byte>)
    ensures Materialise(IntoBool(item))(rec) == Truthy(ItemValue(item, rec))
  {
    if item.Opd? && !item.operand.ConstInt? {
      hide MaterialiseCmp;
      ComparisonClosure(item.operand, ConstInt(0), Ne, rec);
    }
  }

  // ---- which records closures read rightly ---------------------------------------------------------

  /** The closures and the interpreter see a NULL in the same columns. */
  ghost predicate Faithful(fields: seq<Field>, rec: seq<byte>) {
    forall i | 0 <= i < |fields| :: NullAt(rec, i, ShapeOf(fields)) == LoadAt(fields, rec, i).VNull?
  }

  lemma LoadItemValue(fields: seq<Field>, rec: seq<byte>, i: nat)
    requires i < |fields| && NullAt(rec, i, ShapeOf(fields)) == LoadAt(fields, rec, i).VNull?
    ensures ItemValue(LoadItem(fields, i), rec) == LoadAt(fields, rec, i)
  {
    hide NullAt, FieldIsNull, RecordSize, Codec.SignExtend, Codec.ZeroExtend, Codec.U128FromLE, ToSigned;
  }

  /** A row stored before the schema gained columns, or under the present one. */
  lemma StoredRowIsFaithful(ot: ObjectType, values: seq<Codec.Value>, wide: seq<Field>)
    requires Codec.Storable(ot.fields, values) && 0 < |ot.fields| <= MAX_FIELDS
    requires Codec.Extends(wide, ot.fields)
    ensures Faithful(wide, Codec.Record(ot, values)) <==> RecordSize(wide) == RecordSize(ot.fields)
  {
    var rec, n := Codec.Record(ot, values), |ot.fields|;
    Codec.RecordCount(ot, values);
    assert IsCodecRecord(wide, rec);
    hide Codec.Record, RecordSize, ValueOfRaw;
    if RecordSize(wide) == RecordSize(ot.fields) {
      forall i | 0 <= i < |wide|
        ensures NullAt(rec, i, ShapeOf(wide)) == LoadAt(wide, rec, i).VNull?
      {
        if i < n {
          Codec.RecordSlice(ot, values, i);
          Codec.ExtendsOffsets(wide, ot.fields, i);
          assert wide[i] == wide[..n][i];
        }
      }
    } else {
      assert wide != ot.fields;
      assert wide[..n] == ot.fields;
      assert !NullAt(rec, n, ShapeOf(wide)) && LoadAt(wide, rec, n).VNull?;
    }
  }

  // ---- compiler correctness --------------------------------------------------------------

  /** The stack of expressions denotes the interpreter's stack. */
  ghost predicate Denotes(items: seq<StackItem>, st: seq<Value>, rec: seq<byte>) {
    |items| == |st| && forall k | 0 <= k < |st| :: st[k] == ItemValue(items[k], rec)
  }

  lemma StepSimulates(env: Env, ins: Instr, items: seq<StackItem>, st: seq<Value>, work: seq<byte>)
    requires Faithful(env.fields, env.rec) && Denotes(items, st, env.rec) && Compiles(ins)
    requires CompileStep(env.fields, ins, items).Ok?
    ensures var o := Exec(true, env, ins, st, work);
            o.Next? && o.work == work && Denotes(CompileStep(env.fields, ins, items).value, o.st, env.rec)
  {
    hide Materialise, IntoBool, CompareItems, StrictCmp, LoadAt, NullAt, LoadItem;
    var n := |st|;
    match ins
    case PushInt(_) =>
    case PushBytes(_) =>
    case LoadField(fid) =>
      LoadItemValue(env.fields, env.rec, FieldIndex(env.fields, fid).value);
    case IsNull(fid) =>
      NullTestValue(FieldIndex(env.fields, fid).value, ShapeOf(env.fields), env.rec);
    case Not =>
      IntoBoolValue(items[n - 1], env.rec);
      NegateValue(IntoBool(items[n - 1]), env.rec);
    case And =>
      IntoBoolValue(items[n - 2], env.rec);
      IntoBoolValue(items[n - 1], env.rec);
      BothValue(IntoBool(items[n - 2]), IntoBool(items[n - 1]), env.rec);
    case Or =>
      IntoBoolValue(items[n - 2], env.rec);
      IntoBoolValue(items[n - 1], env.rec);
      EitherValue(IntoBool(items[n - 2]), IntoBool(items[n - 1]), env.rec);
    case Cmp(op) =>
      CompareItemsValue(items[n - 2], items[n - 1], op, env.rec);
  }

  lemma NullTestValue(idx: nat, shape: Shape, rec: seq<byte>)
    ensures Materialise(NullTest(idx, shape))(rec) == NullAt(rec, idx, shape)
  {
  }

  lemma NegateValue(a: BoolNode, rec: seq<byte>)
    ensures Materialise(Negate(a))(rec) == !Materialise(a)(rec)
  {
  }

  lemma BothValue(a: BoolNode, b: BoolNode, rec: seq<byte>)
    ensures Materialise(Both(a, b))(rec) == (Materialise(a)(rec) && Materialise(b)(rec))
  {
  }

  lemma EitherValue(a: BoolNode, b: BoolNode, rec: seq<byte>)
    ensures Materialise(Either(a, b))(rec) == (Materialise(a)(rec) || Materialise(b)(rec))
  {
  }

  lemma {:induction false} RunSimulates(env: Env, code: seq<byte>, items: seq<StackItem>, st: seq<Value>,
                                        work: seq<byte>, gas: nat)
    requires Faithful(env.fields, env.rec) && Denotes(items, st, env.rec) && gas <= GAS_LIMIT
    requires CompileRest(env.fields, code, items).Ok?
    ensures var node := CompileRest(env.fields, code, items).value;
            Verdict(Run(true, env, code, st, work, gas))
            == if gas + InstrCount(code) <= GAS_LIMIT then Ok(Materialise(node)(env.rec)) else Err(OutOfGas)
    decreases |code|
  {
    hide Materialise, IntoBool, CompileStep, Exec, ItemValue, Faithful;
    if code == [] {
      IntoBoolValue(items[0], env.rec);
    } else {
      var (ins, len) := Fetch(code).value;
      FetchSupported(code);
      hide Fetch;
      StepSimulates(env, ins, items, st, work);
      if gas + 1 <= GAS_LIMIT {
        var items' := CompileStep(env.fields, ins, items).value;
        var o := Exec(true, env, ins, st, work);
        RunSimulates(env, code[len..], items', o.st, o.work, gas + 1);
      }
    }
  }

  /**
   On every record both sides read alike, a compiled filter gives exactly the
   verdict of the interpreter with strict comparisons, and the interpreter gives
   one exactly when the program has at most `GAS_LIMIT` instructions.
   */
  lemma FilterIsStrictEval(env: Env, code: seq<byte>)
    requires Faithful(env.fields, env.rec) && CompileResult(env.fields, code).Ok?
    ensures Verdict(Run(true, env, code, [], env.rec, 0))
            == if InstrCount(code) <= GAS_LIMIT then Ok(CompileResult(env.fields, code).value(env.rec))
               else Err(OutOfGas)
  {
    RunSimulates(env, code, [], [], env.rec, 0);
  }

  // ---- where strict comparisons and the interpreter's agree -----------------------------------

  predicate SameKind(a: Value, b: Value) {
    (a.VInt? && b.VInt?) || (a.VBytes? && b.VBytes?) || (a.VNull? && b.VNull?)
  }

  /** EQ does not meet two NULLs, and NE does not meet operands of different kinds. */
  predicate CmpSafe(op: CmpOp, a: Value, b: Value) {
    && (op == Eq ==> !(a.VNull? && b.VNull?))
    && (op == Ne ==> SameKind(a, b))
  }

  lemma ComparisonsAgree(op: CmpOp, a: Value, b: Value)
    ensures VmCmp(op, a, b) == StrictCmp(op, a, b) <==> CmpSafe(op, a, b)
  {
    hide RightTrim, CmpBytes;
    if a.VBytes? && b.VBytes? {
      CmpBytesEqual(RightTrim(a.b), RightTrim(b.b));
    }
  }

  /** Every comparison of the interpreter's run is safe. */
  ghost predicate Clean(env: Env, code: seq<byte>, st: seq<Value>, work: seq<byte>)
    decreases |code|
  {
    if code == [] || Fetch(code).None? then true
    else
      var (ins, len) := Fetch(code).value;
      var o := Exec(false, env, ins, st, work);
      && (ins.Cmp? && |st| >= 2 ==> CmpSafe(ins.cmp, st[|st| - 2], st[|st| - 1]))
      && (o.Next? ==> Clean(env, code[len..], o.st, o.work))
  }

  lemma CleanStep(env: Env, ins: Instr, st: seq<Value>, work: seq<byte>)
    requires ins.Cmp? && |st| >= 2 ==> CmpSafe(ins.cmp, st[|st| - 2], st[|st| - 1])
    ensures Exec(true, env, ins, st, work) == Exec(false, env, ins, st, work)
  {
    hide VmCmp, StrictCmp, LikeValue, WriteResult, Load;
    if ins.Cmp? && |st| >= 2 {
      ComparisonsAgree(ins.cmp, st[|st| - 2], st[|st| - 1]);
    }
  }

  lemma {:induction false} CleanRunsAgree(env: Env, code: seq<byte>, st: seq<Value>, work: seq<byte>, gas: nat)
    requires Clean(env, code, st, work)
    ensures Run(true, env, code, st, work, gas) == Run(false, env, code, st, work, gas)
    ensures Block(true, env, code, st, work) == Block(false, env, code, st, work)
    decreases |code|
  {
    hide Fetch, Exec;
    if code != [] && Fetch(code).Some? {
      var (ins, len) := Fetch(code).value;
      CleanStep(env, ins, st, work);
      var o := Exec(false, env, ins, st, work);
      if o.Next? {
        CleanRunsAgree(env, code[len..], o.st, o.work, gas + 1);
      }
    }
  }

  /** The closure's verdict is the interpreter's. */
  ghost predicate Agrees(env: Env, code: seq<byte>)
    requires CompileResult(env.fields, code).Ok?
  {
    EvalResult(env, code) == Ok(CompileResult(env.fields, code).value(env.rec))
  }

  /** Compiler correctness on runs whose comparisons are safe. */
  lemma FilterAgrees(env: Env, code: seq<byte>)
    requires Faithful(env.fields, env.rec) && CompileResult(env.fields, code).Ok?
    requires InstrCount(code) <= GAS_LIMIT && Clean(env, code, [], env.rec)
    ensures Agrees(env, code)
  {
    hide Run, CompileResult, Clean;
    FilterIsStrictEval(env, code);
    CleanRunsAgree(env, code, [], env.rec, 0);
  }

  /** The same for a row encoded under the current schema. */
  lemma FilterAgreesOnStoredRow(ot: ObjectType, values: seq<Codec.Value>, env: Env, code: seq<byte>)
    requires Codec.Storable(ot.fields, values) && 0 < |ot.fields| <= MAX_FIELDS
    requires env.fields == ot.fields && env.rec == Codec.Record(ot, values)
    requires CompileResult(ot.fields, code).Ok?
    requires InstrCount(code) <= GAS_LIMIT && Clean(env, code, [], env.rec)
    ensures Agrees(env, code)
  {
    hide CompileResult, Clean, EvalResult, Codec.Record;
    StoredRowIsFaithful(ot, values, ot.fields);
    FilterAgrees(env, code);
  }

  function CmpCode(op: CmpOp): byte {
    match op
    case Eq => 3
    case Ne => 4
    case Lt => 5
    case Le => 6
    case Gt => 7
    case Ge => 8
  }

  lemma RunComparison(strict: bool, env: Env, op: CmpOp, st: seq<Value>, work: seq<byte>, gas: nat)
    requires gas < GAS_LIMIT
    ensures Verdict(Run(strict, env, [CmpCode(op)], st, work, gas))
            == if |st| < 2 then Err(StackUnderflow)
               else var a, b := st[|st| - 2], st[|st| - 1];
                    Ok(if strict then StrictCmp(op, a, b) else VmCmp(op, a, b))
  {
    hide VmCmp, StrictCmp;
    assert Fetch([CmpCode(op)]) == Some((Cmp(op), 1));
    assert [CmpCode(op)][1..] == [];
  }

  /**
   A program that ends in a comparison agrees with the interpreter exactly when
   the operands of that comparison are safe, if the comparisons before it are.
   */
  lemma FinalComparisonDecides(env: Env, code: seq<byte>, op: CmpOp, st: seq<Value>, work: seq<byte>)
    requires Faithful(env.fields, env.rec) && Clean(env, code, [], env.rec)
    requires Block(false, env, code, [], env.rec) == Some((st, work))
    requires CompileResult(env.fields, code + [CmpCode(op)]).Ok?
    requires InstrCount(code) < GAS_LIMIT
    ensures |st| >= 2
    ensures Agrees(env, code + [CmpCode(op)]) <==> CmpSafe(op, st[|st| - 2], st[|st| - 1])
  {
    hide CompileResult, Clean, Run, Block, VmCmp, StrictCmp;
    var whole := code + [CmpCode(op)];
    CleanRunsAgree(env, code, [], env.rec, 0);
    RunAfterBlock(true, env, code, [CmpCode(op)], [], env.rec, 0);
    RunAfterBlock(false, env, code, [CmpCode(op)], [], env.rec, 0);
    RunComparison(true, env, op, st, work, InstrCount(code));
    RunComparison(false, env, op, st, work, InstrCount(code));
    OneInstruction(op);
    FilterIsStrictEval(env, whole);
    ComparisonsAgree(op, st[|st| - 2], st[|st| - 1]);
  }

  lemma OneInstruction(op: CmpOp)
    ensures InstrCount([CmpCode(op)]) == 1
  {
    assert Fetch([CmpCode(op)]) == Some((Cmp(op), 1));
    assert [CmpCode(op)][1..] == [];
  }

  // ---- faithful records are exactly the ones filters can be trusted on ------------------------

  function IsNullCode(fid: u16): seq<byte> {
    [2] + ToLE(fid, 2)
  }

  lemma IsNullProgram(env: Env, i: nat)
    requires i < |env.fields| && DistinctIds(env.fields)
    ensures var code := IsNullCode(env.fields[i].fieldId);
            && InstrCount(code) == 1
            && CompileResult(env.fields, code) == Ok(Materialise(NullTest(i, ShapeOf(env.fields))))
            && (forall strict :: Verdict(Run(strict, env, code, [], env.rec, 0))
                                 == Ok(LoadAt(env.fields, env.rec, i).VNull?))
  {
    var fid := env.fields[i].fieldId;
    var code := IsNullCode(fid);
    Pow256Small();
    SmallLE(fid, 2);
    assert code[1..3] == ToLE(fid, 2);
    assert Fetch(code) == Some((IsNull(fid), 3));
    assert code[3..] == [];
    assert FieldIndex(env.fields, fid) == Some(i);
    hide LoadAt, Fetch, ToLE, Materialise;
    assert InstrCount(code) == 1;
    assert CompileRest(env.fields, code, []) == Ok(NullTest(i, ShapeOf(env.fields)));
    forall strict
      ensures Verdict(Run(strict, env, code, [], env.rec, 0)) == Ok(LoadAt(env.fields, env.rec, i).VNull?)
    {
      assert Run(strict, env, code, [], env.rec, 0)
             == Ok(RunEnd(false, Some(Flag(LoadAt(env.fields, env.rec, i).VNull?)), env.rec));
    }
  }

  /** Every program that compiles and fits the gas limit agrees with the strict interpreter. */
  ghost predicate AllFiltersRight(env: Env) {
    forall code | CompileResult(env.fields, code).Ok? && InstrCount(code) <= GAS_LIMIT ::
      Verdict(Run(true, env, code, [], env.rec, 0)) == Ok(CompileResult(env.fields, code).value(env.rec))
  }

  /** A record is judged rightly by every compiled filter exactly when it is faithful. */
  lemma FaithfulIsExact(env: Env)
    requires DistinctIds(env.fields)
    ensures AllFiltersRight(env) <==> Faithful(env.fields, env.rec)
  {
    hide CompileResult, Run, NullAt, LoadAt;
    if Faithful(env.fields, env.rec) {
      forall code | CompileResult(env.fields, code).Ok? && InstrCount(code) <= GAS_LIMIT
        ensures Verdict(Run(true, env, code, [], env.rec, 0)) == Ok(CompileResult(env.fields, code).value(env.rec))
      {
        FilterIsStrictEval(env, code);
      }
    }
    if AllFiltersRight(env) {
      forall i | 0 <= i < |env.fields|
        ensures NullAt(env.rec, i, ShapeOf(env.fields)) == LoadAt(env.fields, env.rec, i).VNull?
      {
        IsNullProgram(env, i);
        NullTestValue(i, ShapeOf(env.fields), env.rec);
        assert CompileResult(env.fields, IsNullCode(env.fields[i].fieldId)).Ok?;
      }
    }
  }
}
