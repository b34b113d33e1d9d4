/**
 Before-write triggers.  A trigger is a program of blocks that compute values
 from the original record and store them with SET_FIELD into the working copy.
 Blocks that write different fields may run in any order.
 */
module Trigger {
  import opened Bytes
  import opened Schema
  import opened Expr

  datatype Write = Write(fid: u16, val: Value)

  // ---- a block, apart from the working record -----------------------------------------

  function Prepend(ws: seq<Write>, r: Option<(seq<Value>, seq<Write>)>): Option<(seq<Value>, seq<Write>)> {
    if r.None? then None else Some((r.value.0, ws + r.value.1))
  }

  lemma PrependPrepend(a: seq<Write>, b: seq<Write>, r: Option<(seq<Value>, seq<Write>)>)
    ensures Prepend(a, Prepend(b, r)) == Prepend(a + b, r)
    ensures Prepend([], r) == r
  {
    if r.Some? {
      assert a + (b + r.value.1) == (a + b) + r.value.1;
      assert [] + r.value.1 == r.value.1;
    }
  }

  /** Final stack and stores of a program, neither of which the working record affects. */
  ghost function Effects(env: Env, code: seq<byte>, st: seq<Value>): (r: Option<(seq<Value>, seq<Write>)>)
    decreases |code|
  {
    if code == [] then Some((st, []))
    else match Fetch(code)
      case None => None
      case Some((ins, len)) =>
        if ins.SetField? then
          if st == [] then None
          else Prepend([Write(ins.fid, st[|st| - 1])], Effects(env, code[len..], st[..|st| - 1]))
        else match Exec(false, env, ins, st, [])
          case Next(st', _) => Effects(env, code[len..], st')
          case _ => None
  }

  function ApplyWrites(fields: seq<Field>, work: seq<byte>, ws: seq<Write>): (r: Option<seq<byte>>)
    decreases |ws|
  {
    if ws == [] then Some(work)
    else match WriteResult(fields, work, ws[0].fid, ws[0].val)
      case None => None
      case Some(w) => ApplyWrites(fields, w, ws[1..])
  }

  lemma ExecIgnoresWork(env: Env, ins: Instr, st: seq<Value>, work: seq<byte>)
    requires !ins.SetField?
    ensures var o := Exec(false, env, ins, st, []);
            Exec(false, env, ins, st, work) == if o.Next? then Next(o.st, work) else o
  {
    hide Binary, Load;
  }

  /** The rest of a run is its effects applied to the working record. */
  lemma {:induction false} RunIsEffects(env: Env, code: seq<byte>, st: seq<Value>, work: seq<byte>, gas: nat)
    requires Effects(env, code, st).Some? && gas + InstrCount(code) <= GAS_LIMIT
    ensures var (st', ws) := Effects(env, code, st).value;
            Run(false, env, code, st, work, gas)
            == match ApplyWrites(env.fields, work, ws)
               case None => Err(Panics)
               case Some(w) => Ok(RunEnd(false, if st' == [] then None else Some(st'[|st'| - 1]), w))
    decreases |code|
  {
    hide Fetch, Exec, WriteResult;
    if code != [] {
      var (ins, len) := Fetch(code).value;
      if ins.SetField? {
        var top := st[|st| - 1];
        EffectsOfStore(env, code, st, ins, len);
        var ws, rest := Effects(env, code, st).value.1, Effects(env, code[len..], st[..|st| - 1]).value.1;
        assert ws[1..] == rest && ws[0] == Write(ins.fid, top);
        StoreStep(env, code, st, work, gas, ins, len);
        hide Run, Effects;
        if WriteResult(env.fields, work, ins.fid, top).Some? {
          RunIsEffects(env, code[len..], st[..|st| - 1], WriteResult(env.fields, work, ins.fid, top).value, gas + 1);
        }
      } else {
        var o := Exec(false, env, ins, st, []).st;
        KeepsWork(env, ins, st);
        ExecIgnoresWork(env, ins, st, work);
        EffectsOfOther(env, code, st, ins, len, o);
        RunStep(false, env, code, st, work, gas, ins, len, o, work);
        hide Run, Effects;
        RunIsEffects(env, code[len..], o, work, gas + 1);
      }
    }
  }

  /** A store, as one step of a run. */
  lemma StoreStep(env: Env, code: seq<byte>, st: seq<Value>, work: seq<byte>, gas: nat, ins: Instr, len: nat)
    requires code != [] && Fetch(code) == Some((ins, len)) && len <= |code| && gas + 1 <= GAS_LIMIT
    requires ins.SetField? && st != []
    ensures InstrCount(code) == 1 + InstrCount(code[len..])
    ensures Run(false, env, code, st, work, gas)
         == match WriteResult(env.fields, work, ins.fid, st[|st| - 1])
            case None => Err(Panics)
            case Some(w) => Run(false, env, code[len..], st[..|st| - 1], w, gas + 1)
  {
    hide Fetch, WriteResult;
  }

  /** Values below what a program uses stay where they are. */
  lemma ExecFrame(env: Env, ins: Instr, base: seq<Value>, st: seq<Value>)
    requires !ins.SetField? && Exec(false, env, ins, st, []).Next?
    ensures Exec(false, env, ins, base + st, []) == Next(base + Exec(false, env, ins, st, []).st, [])
  {
    hide Exec;
    if ins.PushInt? || ins.PushBytes? || ins.LoadField? || ins.IsNull? {
      PushFrame(env, ins, base, st);
    } else if ins.Not? || ins.Sha256? {
      UnaryFrame(env, ins, base, st);
    } else {
      NotRejected(env, ins, st);
      BinaryFrame(env, ins, base, st);
    }
  }

  lemma NotRejected(env: Env, ins: Instr, st: seq<Value>)
    requires Exec(false, env, ins, st, []).Next?
    ensures !ins.Reject?
  {
  }

  lemma PushFrame(env: Env, ins: Instr, base: seq<Value>, st: seq<Value>)
    requires ins.PushInt? || ins.PushBytes? || ins.LoadField? || ins.IsNull?
    ensures Exec(false, env, ins, base + st, []) == Next(base + Exec(false, env, ins, st, []).st, [])
  {
    hide Load, Flag;
    var o := Exec(false, env, ins, st, []).st;
    assert base + st + [o[|st|]] == base + o;
  }

  lemma UnaryFrame(env: Env, ins: Instr, base: seq<Value>, st: seq<Value>)
    requires (ins.Not? || ins.Sha256?) && Exec(false, env, ins, st, []).Next?
    ensures Exec(false, env, ins, base + st, []) == Next(base + Exec(false, env, ins, st, []).st, [])
  {
    hide Truthy, HashBytes, Flag;
    FrameTop(base, st, 1, Exec(false, env, ins, st, []).st[|st| - 1]);
  }

  lemma BinaryFrame(env: Env, ins: Instr, base: seq<Value>, st: seq<Value>)
    requires ins.Cmp? || ins.Arith? || ins.And? || ins.Or? || ins.Like? || ins.Hmac256?
    requires Exec(false, env, ins, st, []).Next?
    ensures Exec(false, env, ins, base + st, []) == Next(base + Exec(false, env, ins, st, []).st, [])
  {
    hide Binary;
    FrameTop(base, st, 2, Exec(false, env, ins, st, []).st[|st| - 2]);
  }

  /** Replacing the top of a stack leaves what is below it. */
  lemma FrameTop(base: seq<Value>, st: seq<Value>, k: nat, v: Value)
    requires 1 <= k <= 2 && k <= |st|
    ensures var whole, n := base + st, |st|; var m := |whole|;
            && whole[m - 1] == st[n - 1] && (k == 2 ==> whole[m - 2] == st[n - 2])
            && whole[..m - k] + [v] == base + (st[..n - k] + [v])
  {
  }

  lemma EffectsOfStore(env: Env, code: seq<byte>, st: seq<Value>, ins: Instr, len: nat)
    requires code != [] && Fetch(code) == Some((ins, len)) && len <= |code| && ins.SetField? && st != []
    ensures Effects(env, code, st)
         == Prepend([Write(ins.fid, st[|st| - 1])], Effects(env, code[len..], st[..|st| - 1]))
  {
    hide Fetch, Prepend;
  }

  lemma EffectsOfOther(env: Env, code: seq<byte>, st: seq<Value>, ins: Instr, len: nat, st': seq<Value>)
    requires code != [] && Fetch(code) == Some((ins, len)) && len <= |code| && !ins.SetField?
    requires Exec(false, env, ins, st, []) == Next(st', [])
    ensures Effects(env, code, st) == Effects(env, code[len..], st')
  {
    hide Fetch, Exec, Prepend;
  }

  lemma {:induction false} EffectsFrame(env: Env, code: seq<byte>, base: seq<Value>, st: seq<Value>)
    requires Effects(env, code, st).Some?
    ensures var (st', ws) := Effects(env, code, st).value;
            Effects(env, code, base + st) == Some((base + st', ws))
    decreases |code|
  {
    hide Fetch, Exec;
    if code != [] {
      var (ins, len) := Fetch(code).value;
      if ins.SetField? {
        var whole := base + st;
        assert whole[|whole| - 1] == st[|st| - 1] && whole[..|whole| - 1] == base + st[..|st| - 1];
        EffectsOfStore(env, code, st, ins, len);
        EffectsOfStore(env, code, whole, ins, len);
        hide Effects;
        EffectsFrame(env, code[len..], base, st[..|st| - 1]);
      } else {
        var o := Exec(false, env, ins, st, []).st;
        KeepsWork(env, ins, st);
        ExecFrame(env, ins, base, st);
        EffectsOfOther(env, code, st, ins, len, o);
        EffectsOfOther(env, code, base + st, ins, len, base + o);
        hide Effects;
        EffectsFrame(env, code[len..], base, o);
      }
    }
  }

  lemma KeepsWork(env: Env, ins: Instr, st: seq<Value>)
    requires !ins.SetField? && Exec(false, env, ins, st, []).Next?
    ensures Exec(false, env, ins, st, []) == Next(Exec(false, env, ins, st, []).st, [])
  {
    hide Binary, Load, Truthy, HashBytes, Flag;
  }

  lemma {:induction false} EffectsConcat(env: Env, code: seq<byte>, more: seq<byte>, st: seq<Value>)
    requires Effects(env, code, st).Some?
    ensures var (st', ws) := Effects(env, code, st).value;
            Effects(env, code + more, st) == Prepend(ws, Effects(env, more, st'))
    ensures InstrCount(code + more) == InstrCount(code) + InstrCount(more)
    decreases |code|
  {
    hide Fetch, Exec, Prepend;
    if code == [] {
      assert code + more == more;
      PrependPrepend([], [], Effects(env, more, st));
    } else {
      FetchIsLocal(code, more);
      var (ins, len) := Fetch(code).value;
      assert (code + more)[len..] == code[len..] + more;
      if ins.SetField? {
        var first := [Write(ins.fid, st[|st| - 1])];
        PrependSome(first, Effects(env, code[len..], st[..|st| - 1]));
        EffectsConcat(env, code[len..], more, st[..|st| - 1]);
        var (st', ws) := Effects(env, code[len..], st[..|st| - 1]).value;
        PrependPrepend(first, ws, Effects(env, more, st'));
      } else {
        EffectsConcat(env, code[len..], more, Exec(false, env, ins, st, []).st);
      }
    }
  }

  lemma PrependSome(a: seq<Write>, r: Option<(seq<Value>, seq<Write>)>)
    ensures Prepend(a, r).Some? == r.Some?
    ensures r.Some? ==> Prepend(a, r).value == (r.value.0, a + r.value.1)
  {
  }

  // ---- stores to different fields commute -----------------------------------------------------

  lemma {:induction false} PutBitCommutes(b: nat, i: nat, x: bool, j: nat, y: bool)
    requires i != j
    ensures PutBit(PutBit(b, i, x), j, y) == PutBit(PutBit(b, j, y), i, x)
    decreases i
  {
    hide PutBit;
    PutBitHalves(b, i, x);
    PutBitHalves(b, j, y);
    PutBitHalves(PutBit(b, i, x), j, y);
    PutBitHalves(PutBit(b, j, y), i, x);
    if i > 0 && j > 0 { PutBitCommutes(b / 2, i - 1, x, j - 1, y); }
    SameHalves(PutBit(PutBit(b, i, x), j, y), PutBit(PutBit(b, j, y), i, x));
  }

  lemma PutBitHalves(b: nat, i: nat, x: bool)
    ensures PutBit(b, i, x) / 2 == if i == 0 then b / 2 else PutBit(b / 2, i - 1, x)
    ensures PutBit(b, i, x) % 2 == if i == 0 then (if x then 1 else 0) else b % 2
  {
  }

  lemma SameHalves(a: nat, b: nat)
    requires a / 2 == b / 2 && a % 2 == b % 2
    ensures a == b
  {
  }

  /** Whether a store to column `i` is skipped, aborts or happens, by lengths alone. */
  predicate Skips(fields: seq<Field>, len: nat, i: nat)
    requires i < |fields|
  {
    Offset(fields, i) + fields[i].kind.Width() > len
  }

  predicate Aborts(fields: seq<Field>, i: nat, v: Value)
    requires i < |fields|
  {
    v.VInt? && fields[i].kind.Width() > 16
  }

  /** Byte `k` after a store of `v` to column `i`. */
  function ByteAfter(fields: seq<Field>, work: seq<byte>, i: nat, v: Value, k: nat): byte
    requires i < |fields| && i < MAX_FIELDS && k < |work| && !Aborts(fields, i, v)
  {
    var off, w := Offset(fields, i), fields[i].kind.Width();
    if off <= k < off + w then FieldBytes(w, v)[k - off]
    else if CodecShaped(fields, work) && k == BITMAP_OFF + i / 8 then
      if v.VNull? then SetBit(work[k], i % 8) else ClearBit(work[k], i % 8)
    else work[k]
  }

  /** A store, byte by byte. */
  lemma StoreBytes(fields: seq<Field>, work: seq<byte>, fid: u16, v: Value, i: nat)
    requires |fields| <= MAX_FIELDS && FieldIndex(fields, fid) == Some(i)
    ensures Skips(fields, |work|, i) ==> WriteResult(fields, work, fid, v) == Some(work)
    ensures !Skips(fields, |work|, i) && Aborts(fields, i, v) ==> WriteResult(fields, work, fid, v) == None
    ensures !Skips(fields, |work|, i) && !Aborts(fields, i, v) ==>
              var r := WriteResult(fields, work, fid, v);
              && r.Some?
              && CodecShaped(fields, r.value) == CodecShaped(fields, work)
              && forall k | 0 <= k < |work| :: r.value[k] == ByteAfter(fields, work, i, v, k)
  {
    hide FieldBytes, SetBit, ClearBit, RecordSize, Offset, FromLE;
    if !Skips(fields, |work|, i) && !Aborts(fields, i, v) {
      var r := WriteResult(fields, work, fid, v).value;
      assert r[SCHEMA_VER_BYTES..BITMAP_OFF] == work[SCHEMA_VER_BYTES..BITMAP_OFF];
    }
  }

  lemma TwoStores(
      fields: seq<Field>, work: seq<byte>, i: nat, v: Value, j: nat, u: Value, a: seq<byte>, b: seq<byte>, k: nat)
    requires |fields| <= MAX_FIELDS && i < |fields| && j < |fields| && i != j
    requires !Aborts(fields, i, v) && !Aborts(fields, j, u)
    requires |a| == |b| == |work| && k < |work|
    requires CodecShaped(fields, a) == CodecShaped(fields, b) == CodecShaped(fields, work)
    requires a[k] == ByteAfter(fields, work, i, v, k) && b[k] == ByteAfter(fields, work, j, u, k)
    ensures ByteAfter(fields, a, j, u, k) == ByteAfter(fields, b, i, v, k)
  {
    hide FieldBytes, CodecShaped, Offset, PutBit;
    if i < j { OffsetsGrow(fields, i, j); } else { OffsetsGrow(fields, j, i); }
    if k == BITMAP_OFF + i / 8 == BITMAP_OFF + j / 8 {
      assert i % 8 != j % 8;
      PutBitCommutes(work[k], i % 8, v.VNull?, j % 8, u.VNull?);
    }
  }

  function Then(fields: seq<Field>, work: Option<seq<byte>>, w: Write): Option<seq<byte>> {
    if work.None? then None else WriteResult(fields, work.value, w.fid, w.val)
  }

  lemma StoresCommute(fields: seq<Field>, work: seq<byte>, x: Write, y: Write)
    requires |fields| <= MAX_FIELDS && x.fid != y.fid
    ensures Then(fields, Then(fields, Some(work), x), y) == Then(fields, Then(fields, Some(work), y), x)
  {
    hide WriteResult, ByteAfter, CodecShaped;
    var fi, fj := FieldIndex(fields, x.fid), FieldIndex(fields, y.fid);
    if fi.None? || fj.None? {
      UnknownStore(fields, x);
      UnknownStore(fields, y);
    } else {
      var i, j := fi.value, fj.value;
      StoreBytes(fields, work, x.fid, x.val, i);
      StoreBytes(fields, work, y.fid, y.val, j);
      var a, b := Then(fields, Some(work), x), Then(fields, Some(work), y);
      if a.Some? { StoreBytes(fields, a.value, y.fid, y.val, j); }
      if b.Some? { StoreBytes(fields, b.value, x.fid, x.val, i); }
      if !Skips(fields, |work|, i) && !Skips(fields, |work|, j) && a.Some? && b.Some? {
        var ab, ba := Then(fields, a, y).value, Then(fields, b, x).value;
        forall k | 0 <= k < |work| ensures ab[k] == ba[k] {
          TwoStores(fields, work, i, x.val, j, y.val, a.value, b.value, k);
        }
        assert ab == ba;
      }
    }
  }

  lemma UnknownStore(fields: seq<Field>, w: Write)
    ensures FieldIndex(fields, w.fid).None? ==>
              forall work :: WriteResult(fields, work, w.fid, w.val) == Some(work)
  {
  }

  // ---- the order of blocks does not matter --------------------------------------------------------

  lemma {:induction false} ApplyConcat(fields: seq<Field>, work: seq<byte>, a: seq<Write>, b: seq<Write>)
    ensures ApplyWrites(fields, work, a + b)
            == match ApplyWrites(fields, work, a)
               case None => None
               case Some(w) => ApplyWrites(fields, w, b)
    decreases |a|
  {
    hide WriteResult;
    if a == [] {
      assert a + b == b;
    } else {
      assert (a + b)[1..] == a[1..] + b;
      var w := WriteResult(fields, work, a[0].fid, a[0].val);
      if w.Some? { ApplyConcat(fields, w.value, a[1..], b); }
    }
  }

  ghost function Ids(ws: seq<Write>): set<u16> {
    set w | w in ws :: w.fid
  }

  lemma {:induction false} StoreMovesAcross(fields: seq<Field>, work: seq<byte>, x: Write, ws: seq<Write>)
    requires |fields| <= MAX_FIELDS && x.fid !in Ids(ws)
    ensures ApplyWrites(fields, work, [x] + ws) == ApplyWrites(fields, work, ws + [x])
    decreases |ws|
  {
    hide WriteResult;
    if ws == [] {
      assert [x] + ws == ws + [x];
    } else {
      var y, rest := ws[0], ws[1..];
      assert ws == [y] + rest && y in ws;
      assert forall w :: w in rest ==> w in ws;
      StoresCommute(fields, work, x, y);
      assert ([x] + ws)[1..] == ws && (ws + [x])[1..] == rest + [x];
      assert ([x] + rest)[1..] == rest;
      var fx := WriteResult(fields, work, x.fid, x.val);
      var fy := WriteResult(fields, work, y.fid, y.val);
      if fy.Some? {
        StoreMovesAcross(fields, fy.value, x, rest);
      }
    }
  }

  lemma {:induction false} StoresMoveAcross(fields: seq<Field>, work: seq<byte>, xs: seq<Write>, ys: seq<Write>)
    requires |fields| <= MAX_FIELDS && Ids(xs) !! Ids(ys)
    ensures ApplyWrites(fields, work, xs + ys) == ApplyWrites(fields, work, ys + xs)
    decreases |xs|
  {
    hide ApplyWrites, Ids;
    if xs == [] {
      assert xs + ys == ys && ys + xs == ys;
    } else {
      var x, rest := xs[0], xs[1..];
      assert xs == [x] + rest;
      IdsSplit(x, rest);
      calc {
        ApplyWrites(fields, work, xs + ys);
        { assert xs + ys == [x] + (rest + ys); ApplyConcat(fields, work, [x], rest + ys); }
        (match ApplyWrites(fields, work, [x]) case None => None case Some(w) => ApplyWrites(fields, w, rest + ys));
        { if ApplyWrites(fields, work, [x]).Some? {
            StoresMoveAcross(fields, ApplyWrites(fields, work, [x]).value, rest, ys); } }
        (match ApplyWrites(fields, work, [x]) case None => None case Some(w) => ApplyWrites(fields, w, ys + rest));
        { ApplyConcat(fields, work, [x], ys + rest); assert [x] + (ys + rest) == ([x] + ys) + rest; }
        ApplyWrites(fields, work, ([x] + ys) + rest);
        { ApplyConcat(fields, work, [x] + ys, rest);
          StoreMovesAcross(fields, work, x, ys);
          ApplyConcat(fields, work, ys + [x], rest); }
        ApplyWrites(fields, work, (ys + [x]) + rest);
        { assert (ys + [x]) + rest == ys + xs; }
        ApplyWrites(fields, work, ys + xs);
      }
    }
  }

  lemma IdsSplit(x: Write, rest: seq<Write>)
    ensures Ids([x] + rest) == {x.fid} + Ids(rest)
  {
  }

  lemma IdsConcat(a: seq<Write>, b: seq<Write>)
    ensures Ids(a + b) == Ids(a) + Ids(b)
  {
  }

  /** All stores of a list of stores, in order. */
  function Flatten<T>(blocks: seq<seq<T>>): seq<T> {
    if blocks == [] then [] else blocks[0] + Flatten(blocks[1..])
  }

  /** A block runs on its own, from an empty stack, to its end. */
  ghost predicate SelfContained(env: Env, block: seq<byte>) {
    Effects(env, block, []).Some?
  }

  ghost function WritesOf(env: Env, block: seq<byte>): seq<Write> {
    if SelfContained(env, block) then Effects(env, block, []).value.1 else []
  }

  ghost predicate Independent(env: Env, blocks: seq<seq<byte>>) {
    && (forall b | b in blocks :: SelfContained(env, b))
    && (forall i, j | 0 <= i < j < |blocks| ::
          Ids(WritesOf(env, blocks[i])) !! Ids(WritesOf(env, blocks[j])))
  }

  ghost function AllWrites(env: Env, blocks: seq<seq<byte>>): seq<Write> {
    if blocks == [] then [] else WritesOf(env, blocks[0]) + AllWrites(env, blocks[1..])
  }

  function Count(blocks: seq<seq<byte>>): nat {
    if blocks == [] then 0 else InstrCount(blocks[0]) + Count(blocks[1..])
  }

  /** Concatenated blocks have the blocks' effects one after the other. */
  lemma {:induction false} EffectsOfBlocks(env: Env, blocks: seq<seq<byte>>, st: seq<Value>)
    requires forall b | b in blocks :: SelfContained(env, b)
    ensures Effects(env, Flatten(blocks), st).Some?
    ensures Effects(env, Flatten(blocks), st).value.1 == AllWrites(env, blocks)
    ensures InstrCount(Flatten(blocks)) == Count(blocks)
    decreases |blocks|
  {
    hide Effects;
    if blocks == [] {
      EmptyCode(env, st);
    } else {
      assert blocks[0] in blocks && forall b :: b in blocks[1..] ==> b in blocks;
      var ws := Effects(env, blocks[0], []).value.1;
      EffectsFrame(env, blocks[0], st, []);
      assert st + [] == st;
      var st' := Effects(env, blocks[0], st).value.0;
      EffectsOfBlocks(env, blocks[1..], st');
      EffectsConcat(env, blocks[0], Flatten(blocks[1..]), st);
    }
  }

  lemma EmptyCode(env: Env, st: seq<Value>)
    ensures Effects(env, [], st) == Some((st, [])) && InstrCount([]) == 0
  {
  }

  lemma {:induction false} AllWritesConcat(env: Env, a: seq<seq<byte>>, b: seq<seq<byte>>)
    ensures AllWrites(env, a + b) == AllWrites(env, a) + AllWrites(env, b)
    ensures Count(a + b) == Count(a) + Count(b)
    decreases |a|
  {
    hide WritesOf;
    if a == [] {
      assert a + b == b;
    } else {
      assert (a + b)[1..] == a[1..] + b;
      AllWritesConcat(env, a[1..], b);
    }
  }

  lemma {:induction false} DisjointFromAll(env: Env, blocks: seq<seq<byte>>, ids: set<u16>)
    requires forall b | b in blocks :: Ids(WritesOf(env, b)) !! ids
    ensures Ids(AllWrites(env, blocks)) !! ids
    decreases |blocks|
  {
    hide WritesOf;
    if blocks != [] {
      assert blocks[0] in blocks && forall b :: b in blocks[1..] ==> b in blocks;
      DisjointFromAll(env, blocks[1..], ids);
      IdsConcat(WritesOf(env, blocks[0]), AllWrites(env, blocks[1..]));
    }
  }

  ghost function AfterBlock(env: Env, work: seq<byte>, b: seq<byte>, rest: seq<seq<byte>>): Option<seq<byte>> {
    match ApplyWrites(env.fields, work, WritesOf(env, b))
    case None => None
    case Some(w) => ApplyWrites(env.fields, w, AllWrites(env, rest))
  }

  /** A block that shares no field with those before it can run first. */
  lemma MoveToFront(env: Env, pre: seq<seq<byte>>, b: seq<byte>, post: seq<seq<byte>>, work: seq<byte>)
    requires |env.fields| <= MAX_FIELDS
    requires forall c | c in pre :: Ids(WritesOf(env, c)) !! Ids(WritesOf(env, b))
    ensures ApplyWrites(env.fields, work, AllWrites(env, pre + ([b] + post)))
            == AfterBlock(env, work, b, pre + post)
    ensures Count(pre + ([b] + post)) == InstrCount(b) + Count(pre + post)
  {
    hide WritesOf, ApplyWrites, Ids, Effects, AllWrites, Count;
    DisjointFromAll(env, pre, Ids(WritesOf(env, b)));
    AllWritesConcat(env, pre, [b] + post);
    AllWritesConcat(env, [b], post);
    AllWritesConcat(env, pre, post);
    AllWritesOne(env, b);
    WritesMoveToFront(env.fields, work, AllWrites(env, pre), WritesOf(env, b), AllWrites(env, post));
  }

  lemma AlreadyInFront(env: Env, b: seq<byte>, rest: seq<seq<byte>>, work: seq<byte>)
    requires |env.fields| <= MAX_FIELDS
    ensures ApplyWrites(env.fields, work, AllWrites(env, [b] + rest)) == AfterBlock(env, work, b, rest)
    ensures Count([b] + rest) == InstrCount(b) + Count(rest)
  {
    assert [] + ([b] + rest) == [b] + rest && [] + rest == rest;
    MoveToFront(env, [], b, rest, work);
  }

  lemma WritesMoveToFront(fields: seq<Field>, work: seq<byte>, pre: seq<Write>, b: seq<Write>, post: seq<Write>)
    requires |fields| <= MAX_FIELDS && Ids(pre) !! Ids(b)
    ensures ApplyWrites(fields, work, pre + (b + post))
            == match ApplyWrites(fields, work, b)
               case None => None
               case Some(w) => ApplyWrites(fields, w, pre + post)
  {
    hide ApplyWrites, Ids;
    assert pre + (b + post) == (pre + b) + post;
    ApplyConcat(fields, work, pre + b, post);
    StoresMoveAcross(fields, work, pre, b);
    ApplyConcat(fields, work, b + pre, post);
    assert (b + pre) + post == b + (pre + post);
    ApplyConcat(fields, work, b, pre + post);
  }

  lemma {:induction false} PermutedWrites(env: Env, bs: seq<seq<byte>>, cs: seq<seq<byte>>, work: seq<byte>)
    requires |env.fields| <= MAX_FIELDS && multiset(bs) == multiset(cs)
    requires Independent(env, bs)
    ensures ApplyWrites(env.fields, work, AllWrites(env, bs)) == ApplyWrites(env.fields, work, AllWrites(env, cs))
    ensures Count(bs) == Count(cs)
    decreases |bs|
  {
    hide WritesOf, ApplyWrites, Ids, Effects, AllWrites, Count;
    if bs == [] {
      assert |multiset(cs)| == 0;
      assert cs == [];
    } else {
      var b, rest := bs[0], bs[1..];
      assert bs == [b] + rest;
      var pre, post := Around(b, bs, cs);
      SameRest(b, rest, pre, post);
      RestIsIndependent(env, bs);
      FirstIsApart(env, bs, pre + post);
      assert forall c :: c in pre ==> c in pre + post;
      MoveToFront(env, pre, b, post, work);
      AlreadyInFront(env, b, rest, work);
      var w := ApplyWrites(env.fields, work, WritesOf(env, b));
      PermutedWrites(env, rest, pre + post, if w.Some? then w.value else work);
    }
  }

  lemma Around(b: seq<byte>, bs: seq<seq<byte>>, cs: seq<seq<byte>>) returns (pre: seq<seq<byte>>, post: seq<seq<byte>>)
    requires b in bs && multiset(bs) == multiset(cs)
    ensures cs == pre + ([b] + post)
  {
    assert b in multiset(bs);
    var k :| 0 <= k < |cs| && cs[k] == b;
    pre, post := cs[..k], cs[k + 1..];
  }

  lemma FirstIsApart(env: Env, bs: seq<seq<byte>>, others: seq<seq<byte>>)
    requires bs != [] && Independent(env, bs) && multiset(bs[1..]) == multiset(others)
    ensures forall c | c in others :: Ids(WritesOf(env, c)) !! Ids(WritesOf(env, bs[0]))
  {
    hide WritesOf, Ids, Effects;
    forall c | c in others
      ensures Ids(WritesOf(env, c)) !! Ids(WritesOf(env, bs[0]))
    {
      assert c in multiset(bs[1..]);
      var j :| 0 <= j < |bs[1..]| && bs[1..][j] == c;
      assert bs[j + 1] == c;
    }
  }

  lemma SameRest(b: seq<byte>, rest: seq<seq<byte>>, pre: seq<seq<byte>>, post: seq<seq<byte>>)
    requires multiset([b] + rest) == multiset(pre + ([b] + post))
    ensures multiset(rest) == multiset(pre + post)
  {
    var mb, mr, mp, mq := multiset([b]), multiset(rest), multiset(pre), multiset(post);
    assert mb + mr == mp + (mb + mq);
    forall x ensures mr[x] == (mp + mq)[x] {
      assert (mb + mr)[x] == (mp + (mb + mq))[x];
    }
    assert mr == mp + mq;
  }

  lemma AllWritesOne(env: Env, b: seq<byte>)
    ensures AllWrites(env, [b]) == WritesOf(env, b) && Count([b]) == InstrCount(b)
  {
  }

  lemma RestIsIndependent(env: Env, bs: seq<seq<byte>>)
    requires bs != [] && Independent(env, bs)
    ensures Independent(env, bs[1..])
  {
    hide WritesOf, Ids, Effects;
    var rest := bs[1..];
    assert forall c :: c in rest ==> c in bs;
    forall i, j | 0 <= i < j < |rest|
      ensures Ids(WritesOf(env, rest[i])) !! Ids(WritesOf(env, rest[j]))
    {
      assert rest[i] == bs[i + 1] && rest[j] == bs[j + 1];
    }
  }

  /**
   A trigger of self-contained blocks that write disjoint sets of fields gives
   the same result under every permutation of its blocks.
   */
  lemma OrderIndependence(env: Env, bs: seq<seq<byte>>, cs: seq<seq<byte>>)
    requires |env.fields| <= MAX_FIELDS
    requires Independent(env, bs) && multiset(bs) == multiset(cs)
    requires InstrCount(Flatten(bs)) <= GAS_LIMIT
    ensures TriggerResult(env, Flatten(bs)) == TriggerResult(env, Flatten(cs))
  {
    hide Effects, ApplyWrites, Run, WritesOf, Ids;
    forall c | c in cs
      ensures SelfContained(env, c)
    {
      assert c in multiset(cs);
      assert c in bs;
    }
    EffectsOfBlocks(env, bs, []);
    EffectsOfBlocks(env, cs, []);
    PermutedWrites(env, bs, cs, env.rec);
    RunIsEffects(env, Flatten(bs), [], env.rec, 0);
    RunIsEffects(env, Flatten(cs), [], env.rec, 0);
  }
}
