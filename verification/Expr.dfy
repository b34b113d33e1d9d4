/**
 The expression VM: a stack interpreter over bytecode, used for CHECK
 predicates, filters and before-write triggers.  Loads read the original
 record; SET_FIELD changes a working copy.
 */
module Expr {
  import opened Bytes
  import opened Schema
  import Codec
  import LikeMatcher

  const GAS_LIMIT := 100_000

  datatype Value = VInt(n: i128) | VBytes(b: seq<byte>) | VNull

  datatype ExprError =
    | BadProgram | StackUnderflow | DivByZero | OutOfGas | TypeMismatch | EmptyResult
      // The original aborts with an index or slice-length error.
    | Panics

  datatype CmpOp = Eq | Ne | Lt | Le | Gt | Ge
  datatype ArithOp = Add | Sub | Mul | Div | Mod

  datatype Instr =
    | PushInt(n: i128)
    | PushBytes(b: seq<byte>)
    | LoadField(fid: u16)
    | IsNull(fid: u16)
    | Cmp(cmp: CmpOp)
    | Arith(arith: ArithOp)
    | And | Or | Not
    | SetField(fid: u16)
    | Reject
    | Like
    | Sha256
    | Hmac256

  /** What a program runs against; the hashes are left uninterpreted. */
  datatype Env = Env(
    fields: seq<Field>,
    rec: seq<byte>,
    sha256: seq<byte> -> seq<byte>,
    hmac: (seq<byte>, seq<byte>) -> seq<byte>)

  // ---- bytecode ------------------------------------------------------------------

  function SimpleOp(op: byte): Option<Instr> {
    match op
    case 3 => Some(Cmp(Eq))
    case 4 => Some(Cmp(Ne))
    case 5 => Some(Cmp(Lt))
    case 6 => Some(Cmp(Le))
    case 7 => Some(Cmp(Gt))
    case 8 => Some(Cmp(Ge))
    case 9 => Some(Arith(Add))
    case 10 => Some(Arith(Sub))
    case 11 => Some(Arith(Mul))
    case 12 => Some(Arith(Div))
    case 13 => Some(Arith(Mod))
    case 14 => Some(And)
    case 15 => Some(Or)
    case 16 => Some(Not)
    case 19 => Some(Reject)
    case 20 => Some(Like)
    case 21 => Some(Sha256)
    case 22 => Some(Hmac256)
    case _ => None
  }

  function ReadU16(b: seq<byte>): u16
    requires |b| == 2
  {
    Pow256Small();
    FromLE(b)
  }

  function FetchInt(code: seq<byte>): (r: Option<(Instr, nat)>)
    ensures r.Some? ==> r.value.1 == 17 <= |code|
  {
    if |code| < 17 then None else Some((PushInt(ToSigned(Codec.U128FromLE(code[1..17]))), 17))
  }

  function FetchBytes(code: seq<byte>): (r: Option<(Instr, nat)>)
    ensures r.Some? ==> 3 <= r.value.1 <= |code|
  {
    if |code| < 3 then None
    else
      var l := ReadU16(code[1..3]);
      if |code| < 3 + l then None else Some((PushBytes(code[3..3 + l]), 3 + l))
  }

  /** The instruction at the front of the code and its length; `None` if malformed. */
  function Fetch(code: seq<byte>): (r: Option<(Instr, nat)>)
    requires code != []
    ensures r.Some? ==> 0 < r.value.1 <= |code|
  {
    var op := code[0];
    if op == 0 then FetchInt(code)
    else if op == 17 then FetchBytes(code)
    else if op == 1 || op == 2 || op == 18 then
      if |code| < 3 then None
      else
        var fid := ReadU16(code[1..3]);
        Some((if op == 1 then LoadField(fid) else if op == 2 then IsNull(fid) else SetField(fid), 3))
    else match SimpleOp(op)
      case None => None
      case Some(ins) => Some((ins, 1))
  }

  // ---- loading a field ---------------------------------------------------------------

  /** The record has the size of the schema prefix whose field count it stores. */
  predicate IsCodecRecord(fields: seq<Field>, rec: seq<byte>) {
    && |rec| >= BITMAP_OFF
    && 0 < Codec.StoredCount(rec) <= |fields|
    && |rec| == RecordSize(fields[..Codec.StoredCount(rec)])
  }

  /** Bit `i` of the null bitmap; fields beyond the bitmap count as NULL. */
  predicate NullBit(rec: seq<byte>, i: nat)
    requires |rec| >= HEADER_BYTES
  {
    i / 8 >= NULL_BITMAP_BYTES || BitOf(rec[BITMAP_OFF + i / 8], i % 8)
  }

  predicate FieldIsNull(fields: seq<Field>, rec: seq<byte>, i: nat) {
    IsCodecRecord(fields, rec) && (i >= Codec.StoredCount(rec) || NullBit(rec, i))
  }

  function ValueOfRaw(kind: FieldKind, raw: seq<byte>): Value
    requires |raw| == kind.Width()
  {
    if kind.IsSigned() then VInt(ToSigned(Codec.U128FromLE(Codec.SignExtend(raw))))
    else if kind.IsBlob() then VBytes(raw)
    else VInt(ToSigned(Codec.U128FromLE(Codec.ZeroExtend(raw))))
  }

  function LoadAt(fields: seq<Field>, rec: seq<byte>, i: nat): Value
    requires i < |fields|
  {
    var off, w := Offset(fields, i), fields[i].kind.Width();
    if FieldIsNull(fields, rec, i) then VNull
    else if off + w > |rec| then VNull
    else ValueOfRaw(fields[i].kind, rec[off..off + w])
  }

  function Load(fields: seq<Field>, rec: seq<byte>, fid: u16): Value {
    match FieldIndex(fields, fid)
    case None => VNull
    case Some(i) => LoadAt(fields, rec, i)
  }

  // ---- comparisons --------------------------------------------------------------------

  datatype Ordering = Less | Equal | Greater

  function CmpInts(a: int, b: int): Ordering {
    if a < b then Less else if a == b then Equal else Greater
  }

  function CmpBytes(a: seq<byte>, b: seq<byte>): Ordering {
    if a == [] then (if b == [] then Equal else Less)
    else if b == [] then Greater
    else if a[0] != b[0] then CmpInts(a[0], b[0])
    else CmpBytes(a[1..], b[1..])
  }

  lemma {:induction false} CmpBytesEqual(a: seq<byte>, b: seq<byte>)
    ensures CmpBytes(a, b) == Equal <==> a == b
  {
    if a != [] && b != [] {
      CmpBytesEqual(a[1..], b[1..]);
      assert a == [a[0]] + a[1..] && b == [b[0]] + b[1..];
    }
  }

  function Holds(o: Ordering, op: CmpOp): bool {
    match op
    case Eq => o == Equal
    case Ne => o != Equal
    case Lt => o == Less
    case Le => o != Greater
    case Gt => o == Greater
    case Ge => o != Less
  }

  /** Trailing NULs and spaces of a CHAR value do not count in comparisons. */
  function RightTrim(b: seq<byte>): seq<byte> {
    if b != [] && (b[|b| - 1] == 0 || b[|b| - 1] == 32) then RightTrim(b[..|b| - 1]) else b
  }

  function TrimNuls(b: seq<byte>): seq<byte> {
    if b != [] && b[|b| - 1] == 0 then TrimNuls(b[..|b| - 1]) else b
  }

  /** Comparison that is false on NULLs and on operands of different kinds. */
  function StrictCmp(op: CmpOp, a: Value, b: Value): bool {
    if a.VInt? && b.VInt? then Holds(CmpInts(a.n, b.n), op)
    else if a.VBytes? && b.VBytes? then Holds(CmpBytes(RightTrim(a.b), RightTrim(b.b)), op)
    else false
  }

  /** The interpreter's comparison: EQ and NE fall back to equality of values. */
  function VmCmp(op: CmpOp, a: Value, b: Value): bool {
    match op
    case Eq => if a.VBytes? && b.VBytes? then RightTrim(a.b) == RightTrim(b.b) else a == b
    case Ne => if a.VBytes? && b.VBytes? then RightTrim(a.b) != RightTrim(b.b) else a != b
    case _ => StrictCmp(op, a, b)
  }

  // ---- arithmetic ------------------------------------------------------------------------

  /** Division truncated toward zero. */
  function TruncDiv(x: int, y: int): int
    requires y != 0
  {
    if x >= 0 then x / y else -((-x) / y)
  }

  function ArithResult(op: ArithOp, x: i128, y: i128): Result<i128, ExprError> {
    match op
    case Add => Ok(Wrap(x + y))
    case Sub => Ok(Wrap(x - y))
    case Mul => Ok(Wrap(x * y))
    case Div => if y == 0 then Err(DivByZero) else Ok(Wrap(TruncDiv(x, y)))
    case Mod => if y == 0 then Err(DivByZero) else Ok(Wrap(x - y * TruncDiv(x, y)))
  }

  // ---- writing a field of the working record ----------------------------------------------

  function FieldBytes(w: nat, v: Value): (r: seq<byte>)
    requires v.VInt? ==> w <= 16
    ensures |r| == w
  {
    match v
    case VInt(n) => ToLE(ToUnsigned(n), 16)[..w]
    case VBytes(b) => if |b| >= w then b[..w] else b + Repeat(0, w - |b|)
    case VNull => Repeat(0, w)
  }

  predicate CodecShaped(fields: seq<Field>, work: seq<byte>) {
    |work| == RecordSize(fields) && Codec.StoredCount(work) == |fields|
  }

  /** The working record after `val` is stored in field `fid`; `None` when that aborts. */
  function WriteResult(fields: seq<Field>, work: seq<byte>, fid: u16, val: Value): (r: Option<seq<byte>>)
    ensures r.Some? ==> |r.value| == |work|
  {
    match FieldIndex(fields, fid)
    case None => Some(work)
    case Some(i) =>
      var off, w := Offset(fields, i), fields[i].kind.Width();
      if off + w > |work| then Some(work)
      else if val.VInt? && w > 16 then None
      else
        var data := Codec.Spliced(work, off, FieldBytes(w, val));
        if !CodecShaped(fields, work) then Some(data)
        else if BITMAP_OFF + i / 8 >= |work| then None
        else
          var b := data[BITMAP_OFF + i / 8];
          Some(data[BITMAP_OFF + i / 8 := if val.VNull? then SetBit(b, i % 8) else ClearBit(b, i % 8)])
  }

  // ---- the interpreter -------------------------------------------------------------------

  datatype Outcome =
    | Next(st: seq<Value>, work: seq<byte>)
    | Rejected
    | Fail(error: ExprError)

  predicate Truthy(v: Value) {
    v.VInt? && v.n != 0
  }

  function Flag(b: bool): Value {
    VInt(if b then 1 else 0)
  }

  /** The bytes a hash sees. */
  function HashBytes(v: Value): seq<byte> {
    match v
    case VBytes(b) => b
    case VInt(n) => ToLE(ToUnsigned(n), 16)
    case VNull => []
  }

  ghost predicate LikeValue(val: Value, pat: Value) {
    val.VBytes? && pat.VBytes? && LikeMatcher.CodeLike(TrimNuls(val.b), pat.b)
  }

  /** An instruction that replaces two operands by one value. */
  ghost function Binary(strict: bool, env: Env, ins: Instr, a: Value, b: Value): Result<Value, ExprError>
    requires ins.Cmp? || ins.Arith? || ins.And? || ins.Or? || ins.Like? || ins.Hmac256?
  {
    match ins
    case Cmp(op) => Ok(Flag(if strict then StrictCmp(op, a, b) else VmCmp(op, a, b)))
    case Arith(op) =>
      if a.VInt? && b.VInt? then
        match ArithResult(op, a.n, b.n)
        case Ok(n) => Ok(VInt(n))
        case Err(e) => Err(e)
      else Err(TypeMismatch)
    case And => Ok(Flag(Truthy(a) && Truthy(b)))
    case Or => Ok(Flag(Truthy(a) || Truthy(b)))
    case Like => Ok(Flag(LikeValue(a, b)))
    case Hmac256 => Ok(VBytes(env.hmac(HashBytes(b), HashBytes(a))))
  }

  /**
   One instruction.  With `strict`, comparisons follow `StrictCmp`; the
   interpreter itself is the case `!strict`.
   */
  ghost function Exec(strict: bool, env: Env, ins: Instr, st: seq<Value>, work: seq<byte>): (o: Outcome) {
    var n := |st|;
    match ins
    case PushInt(k) => Next(st + [VInt(k)], work)
    case PushBytes(b) => Next(st + [VBytes(b)], work)
    case LoadField(fid) => Next(st + [Load(env.fields, env.rec, fid)], work)
    case IsNull(fid) => Next(st + [Flag(Load(env.fields, env.rec, fid).VNull?)], work)
    case Reject => Rejected
    case Not => if n < 1 then Fail(StackUnderflow) else Next(st[..n - 1] + [Flag(!Truthy(st[n - 1]))], work)
    case Sha256 =>
      if n < 1 then Fail(StackUnderflow)
      else Next(st[..n - 1] + [VBytes(env.sha256(HashBytes(st[n - 1])))], work)
    case SetField(fid) =>
      if n < 1 then Fail(StackUnderflow)
      else
        (match WriteResult(env.fields, work, fid, st[n - 1])
         case None => Fail(Panics)
         case Some(w) => Next(st[..n - 1], w))
    case _ =>
      if n < 2 then Fail(StackUnderflow)
      else match Binary(strict, env, ins, st[n - 2], st[n - 1])
        case Err(e) => Fail(e)
        case Ok(v) => Next(st[..n - 2] + [v], work)
  }

  datatype RunEnd = RunEnd(rejected: bool, top: Option<Value>, work: seq<byte>)

  /** The rest of a run: remaining code, stack, working record, instructions executed. */
  ghost function Run(strict: bool, env: Env, code: seq<byte>, st: seq<Value>, work: seq<byte>, gas: nat)
    : (r: Result<RunEnd, ExprError>)
    decreases |code|
  {
    if code == [] then Ok(RunEnd(false, if st == [] then None else Some(st[|st| - 1]), work))
    else if gas + 1 > GAS_LIMIT then Err(OutOfGas)
    else match Fetch(code)
      case None => Err(BadProgram)
      case Some((ins, len)) =>
        match Exec(strict, env, ins, st, work)
        case Fail(e) => Err(e)
        case Rejected => Ok(RunEnd(true, None, work))
        case Next(st', work') => Run(strict, env, code[len..], st', work', gas + 1)
  }

  /** Number of instructions in the code, up to the first malformed one. */
  function InstrCount(code: seq<byte>): nat
    decreases |code|
  {
    if code == [] || Fetch(code).None? then 0 else 1 + InstrCount(code[Fetch(code).value.1..])
  }

  /** Stack and working record after all of `code`, if no instruction stops the run. */
  ghost function Block(strict: bool, env: Env, code: seq<byte>, st: seq<Value>, work: seq<byte>)
    : (r: Option<(seq<Value>, seq<byte>)>)
    decreases |code|
  {
    if code == [] then Some((st, work))
    else match Fetch(code)
      case None => None
      case Some((ins, len)) =>
        match Exec(strict, env, ins, st, work)
        case Next(st', work') => Block(strict, env, code[len..], st', work')
        case _ => None
  }

  /** An instruction that is complete does not depend on the code behind it. */
  lemma FetchIsLocal(code: seq<byte>, more: seq<byte>)
    requires code != [] && Fetch(code).Some?
    ensures Fetch(code + more) == Fetch(code)
  {
    hide FromLE, ToSigned;
    assert |code| >= 17 ==> (code + more)[1..17] == code[1..17];
    if |code| >= 3 {
      assert (code + more)[1..3] == code[1..3];
      var l: int := ReadU16(code[1..3]);
      assert |code| >= 3 + l ==> (code + more)[3..3 + l] == code[3..3 + l];
    }
  }

  lemma {:induction false} RunAfterBlock(strict: bool, env: Env, code: seq<byte>, more: seq<byte>,
                                         st: seq<Value>, work: seq<byte>, gas: nat)
    requires Block(strict, env, code, st, work).Some? && gas + InstrCount(code) <= GAS_LIMIT
    ensures var (st', work') := Block(strict, env, code, st, work).value;
            Run(strict, env, code + more, st, work, gas)
            == Run(strict, env, more, st', work', gas + InstrCount(code))
    ensures InstrCount(code + more) == InstrCount(code) + InstrCount(more)
    decreases |code|
  {
    hide Exec, Fetch;
    if code == [] {
      assert code + more == more;
    } else {
      var ins, len, st', work' := BlockStep(strict, env, code, st, work);
      FetchIsLocal(code, more);
      assert (code + more)[len..] == code[len..] + more;
      RunStep(strict, env, code + more, st, work, gas, ins, len, st', work');
      hide Run, Block, InstrCount;
      RunAfterBlock(strict, env, code[len..], more, st', work', gas + 1);
    }
  }

  /** The first instruction of code that runs through. */
  lemma BlockStep(strict: bool, env: Env, code: seq<byte>, st: seq<Value>, work: seq<byte>)
    returns (ins: Instr, len: nat, st': seq<Value>, work': seq<byte>)
    requires code != [] && Block(strict, env, code, st, work).Some?
    ensures Fetch(code) == Some((ins, len)) && 0 < len <= |code|
    ensures Exec(strict, env, ins, st, work) == Next(st', work')
    ensures Block(strict, env, code, st, work) == Block(strict, env, code[len..], st', work')
    ensures InstrCount(code) == 1 + InstrCount(code[len..])
  {
    hide Exec, Fetch;
    ins, len := Fetch(code).value.0, Fetch(code).value.1;
    var o := Exec(strict, env, ins, st, work);
    st', work' := o.st, o.work;
  }

  lemma RunStep(strict: bool, env: Env, code: seq<byte>, st: seq<Value>, work: seq<byte>, gas: nat,
                ins: Instr, len: nat, st': seq<Value>, work': seq<byte>)
    requires code != [] && Fetch(code) == Some((ins, len)) && len <= |code| && gas + 1 <= GAS_LIMIT
    requires Exec(strict, env, ins, st, work) == Next(st', work')
    ensures Run(strict, env, code, st, work, gas) == Run(strict, env, code[len..], st', work', gas + 1)
    ensures InstrCount(code) == 1 + InstrCount(code[len..])
  {
    hide Exec, Fetch;
  }

  ghost function Verdict(r: Result<RunEnd, ExprError>): Result<bool, ExprError> {
    match r
    case Err(e) => Err(e)
    case Ok(end) => if end.top.None? then Err(EmptyResult) else Ok(Truthy(end.top.value))
  }

  ghost function EvalResult(env: Env, code: seq<byte>): Result<bool, ExprError> {
    Verdict(Run(false, env, code, [], env.rec, 0))
  }

  ghost function TriggerResult(env: Env, code: seq<byte>): Result<Option<seq<byte>>, ExprError> {
    match Run(false, env, code, [], env.rec, 0)
    case Err(e) => Err(e)
    case Ok(end) => Ok(if end.rejected then None else Some(end.work))
  }

  // ---- the interpreter as the original runs it ----------------------------------------------

  method WriteField(fields: seq<Field>, work: array<byte>, fid: u16, val: Value) returns (ok: bool)
    modifies work
    ensures ok == WriteResult(fields, old(work[..]), fid, val).Some?
    ensures ok ==> WriteResult(fields, old(work[..]), fid, val) == Some(work[..])
  {
    hide ToLE, PutBit, RecordSize, Codec.StoredCount;
    var idx := FieldIndex(fields, fid);
    if idx.None? {
      return true;
    }
    var i := idx.value;
    var off := Offset(fields, i);
    var w := fields[i].kind.Width();
    if off + w > work.Length {
      return true;
    }
    if val.VInt? && w > 16 {
      return false;
    }
    var shaped := CodecShaped(fields, work[..]);
    Codec.CopyInto(work, off, FieldBytes(w, val));
    if shaped {
      var k := BITMAP_OFF + i / 8;
      if k >= work.Length {
        return false;
      }
      work[k] := if val.VNull? then SetBit(work[k], i % 8) else ClearBit(work[k], i % 8);
    }
    return true;
  }

  method ExecBinary(env: Env, ins: Instr, a: Value, b: Value) returns (r: Result<Value, ExprError>)
    requires ins.Cmp? || ins.Arith? || ins.And? || ins.Or? || ins.Like? || ins.Hmac256?
    ensures r == Binary(false, env, ins, a, b)
  {
    match ins
    case Cmp(op) => r := Ok(Flag(VmCmp(op, a, b)));
    case Arith(op) =>
      if a.VInt? && b.VInt? {
        var n := ArithResult(op, a.n, b.n);
        if n.Err? {
          return Err(n.error);
        }
        r := Ok(VInt(n.value));
      } else {
        r := Err(TypeMismatch);
      }
    case And => r := Ok(Flag(Truthy(a) && Truthy(b)));
    case Or => r := Ok(Flag(Truthy(a) || Truthy(b)));
    case Like =>
      var m := false;
      if a.VBytes? && b.VBytes? {
        m := LikeMatcher.LikeMatch(TrimNuls(a.b), b.b);
      }
      r := Ok(Flag(m));
    case Hmac256 => r := Ok(VBytes(env.hmac(HashBytes(b), HashBytes(a))));
  }

  /** One pass of the dispatch loop: the stack after `ins`, or how the run ends. */
  method Dispatch(env: Env, ins: Instr, st: seq<Value>, work: array<byte>)
    returns (rejected: bool, r: Result<seq<Value>, ExprError>)
    modifies work
    ensures match Exec(false, env, ins, st, old(work[..]))
            case Rejected => rejected && work[..] == old(work[..])
            case Fail(e) => !rejected && r == Err(e)
            case Next(st', work') => !rejected && r == Ok(st') && work[..] == work'
  {
    rejected := false;
    var n := |st|;
    match ins {
      case PushInt(k) => r := Ok(st + [VInt(k)]);
      case PushBytes(b) => r := Ok(st + [VBytes(b)]);
      case LoadField(fid) => r := Ok(st + [Load(env.fields, env.rec, fid)]);
      case IsNull(fid) => r := Ok(st + [Flag(Load(env.fields, env.rec, fid).VNull?)]);
      case Reject => return true, Ok(st);
      case Not =>
        if n < 1 { return false, Err(StackUnderflow); }
        r := Ok(st[..n - 1] + [Flag(!Truthy(st[n - 1]))]);
      case Sha256 =>
        if n < 1 { return false, Err(StackUnderflow); }
        r := Ok(st[..n - 1] + [VBytes(env.sha256(HashBytes(st[n - 1])))]);
      case SetField(fid) =>
        if n < 1 { return false, Err(StackUnderflow); }
        var ok := WriteField(env.fields, work, fid, st[n - 1]);
        r := if ok then Ok(st[..n - 1]) else Err(Panics);
      case _ =>
        if n < 2 { return false, Err(StackUnderflow); }
        var v := ExecBinary(env, ins, st[n - 2], st[n - 1]);
        match v
        case Err(e) => r := Err(e);
        case Ok(x) => r := Ok(st[..n - 2] + [x]);
    }
  }

  method RunProgram(env: Env, code: seq<byte>, work: array<byte>)
    returns (r: Result<(bool, Option<Value>), ExprError>)
    modifies work
    ensures match Run(false, env, code, [], old(work[..]), 0)
            case Err(e) => r == Err(e)
            case Ok(end) => r == Ok((end.rejected, end.top)) && work[..] == end.work
  {
    hide Exec, Fetch;
    var st: seq<Value> := [];
    var pc, gas := 0, 0;
    assert code[0..] == code;
    while pc < |code|
      invariant 0 <= pc <= |code|
      invariant Run(false, env, code, [], old(work[..]), 0) == Run(false, env, code[pc..], st, work[..], gas)
    {
      gas := gas + 1;
      if gas > GAS_LIMIT {
        return Err(OutOfGas);
      }
      var f := Fetch(code[pc..]);
      if f.None? {
        return Err(BadProgram);
      }
      var (ins, len) := f.value;
      var rejected, s := Dispatch(env, ins, st, work);
      if rejected {
        return Ok((true, None));
      }
      if s.Err? {
        return Err(s.error);
      }
      st := s.value;
      assert code[pc..][len..] == code[pc + len..];
      pc := pc + len;
    }
    r := Ok((false, if st == [] then None else Some(st[|st| - 1])));
  }

  method Eval(env: Env, code: seq<byte>) returns (r: Result<bool, ExprError>)
    ensures r == EvalResult(env, code)
  {
    var work := new byte[|env.rec|](i requires 0 <= i < |env.rec| => env.rec[i]);
    assert work[..] == env.rec;
    var end := RunProgram(env, code, work);
    match end
    case Err(e) => r := Err(e);
    case Ok((_, None)) => r := Err(EmptyResult);
    case Ok((_, Some(v))) => r := Ok(Truthy(v));
  }

  method EvalTrigger(env: Env, code: seq<byte>) returns (r: Result<Option<seq<byte>>, ExprError>)
    ensures r == TriggerResult(env, code)
  {
    var work := new byte[|env.rec|](i requires 0 <= i < |env.rec| => env.rec[i]);
    assert work[..] == env.rec;
    var end := RunProgram(env, code, work);
    match end
    case Err(e) => r := Err(e);
    case Ok((rejected, _)) => r := Ok(if rejected then None else Some(work[..]));
  }
}
