/**
 Whole runs of the read cache: which entry an insertion evicts, and that reads
 through the cache always show the backing store.
 */
module CacheRuns {
  import opened Bytes
  import opened Cache

  // ---- runs and last uses --------------------------------------------------------------

  datatype Op = OpGet(key: Key) | OpInsert(key: Key, val: Val) | OpInvalidate(key: Key) | OpClear

  function After(list: seq<Entry>, cap: nat, op: Op): seq<Entry> {
    match op
    case OpGet(k) => AfterGet(list, k)
    case OpInsert(k, v) => AfterInsert(list, cap, k, v)
    case OpInvalidate(k) => Without(list, k)
    case OpClear => []
  }

  /** The recency list after a run from an empty cache. */
  function ListAfter(cap: nat, ops: seq<Op>): seq<Entry> {
    if ops == [] then [] else After(ListAfter(cap, ops[..|ops| - 1]), cap, ops[|ops| - 1])
  }

  predicate Uses(op: Op, k: Key) {
    (op.OpGet? || op.OpInsert?) && op.key == k
  }

  /** Index of the last operation that reads or stores the key; -1 if none does. */
  function LastUse(ops: seq<Op>, k: Key): (i: int)
    ensures -1 <= i < |ops|
    ensures i >= 0 ==> Uses(ops[i], k)
    ensures forall j :: i < j < |ops| ==> !Uses(ops[j], k)
  {
    if ops == [] then -1
    else if Uses(ops[|ops| - 1], k) then |ops| - 1
    else LastUse(ops[..|ops| - 1], k)
  }

  /** The list is in order of last use. */
  ghost predicate ByUse(list: seq<Entry>, ops: seq<Op>) {
    && (forall i :: 0 <= i < |list| ==> LastUse(ops, list[i].key) >= 0)
    && (forall i, j :: 0 <= i < j < |list| ==> LastUse(ops, list[i].key) < LastUse(ops, list[j].key))
  }

  lemma ByUseDistinct(list: seq<Entry>, ops: seq<Op>)
    requires ByUse(list, ops)
    ensures Distinct(list)
  {
    forall i, j | 0 <= i < j < |list|
      ensures list[i].key != list[j].key
    {
      assert LastUse(ops, list[i].key) < LastUse(ops, list[j].key);
    }
  }

  lemma UnusedKeeps(ops: seq<Op>, op: Op, k: Key)
    ensures LastUse(ops + [op], k) == if Uses(op, k) then |ops| else LastUse(ops, k)
  {
    assert (ops + [op])[..|ops|] == ops;
  }

  /** An operation that uses no key of the list leaves its order. */
  lemma ByUseLater(list: seq<Entry>, ops: seq<Op>, op: Op)
    requires ByUse(list, ops) && forall i :: 0 <= i < |list| ==> !Uses(op, list[i].key)
    ensures ByUse(list, ops + [op])
  {
    forall k ensures LastUse(ops + [op], k) == if Uses(op, k) then |ops| else LastUse(ops, k) {
      UnusedKeeps(ops, op, k);
    }
  }

  lemma ByUseRemove(list: seq<Entry>, ops: seq<Op>, p: nat)
    requires ByUse(list, ops) && p < |list|
    ensures ByUse(list[..p] + list[p + 1..], ops)
  {
    hide LastUse;
    var list' := list[..p] + list[p + 1..];
    assert forall i :: 0 <= i < |list'| ==> list'[i] == list[if i < p then i else i + 1];
  }

  lemma ByUseAppend(list: seq<Entry>, ops: seq<Op>, op: Op, e: Entry)
    requires ByUse(list, ops) && Uses(op, e.key) && !Cached(list, e.key)
    ensures ByUse(list + [e], ops + [op])
  {
    forall k ensures LastUse(ops + [op], k) == if Uses(op, k) then |ops| else LastUse(ops, k) {
      UnusedKeeps(ops, op, k);
    }
    forall i | 0 <= i < |list|
      ensures !Uses(op, list[i].key)
    {
      assert Cached(list, list[i].key);
    }
    hide LastUse;
  }

  lemma ByUseWithout(list: seq<Entry>, ops: seq<Op>, k: Key)
    requires ByUse(list, ops)
    ensures ByUse(Without(list, k), ops)
    ensures Cached(list, k) ==> |Without(list, k)| == |list| - 1
  {
    ByUseDistinct(list, ops);
    hide LastUse, Without;
    if Cached(list, k) {
      var p :| 0 <= p < |list| && list[p].key == k;
      WithoutAt(list, p);
      ByUseRemove(list, ops, p);
    } else {
      WithoutAbsent(list, k);
    }
  }

  /** One operation keeps the list bounded and in order of last use. */
  lemma AfterKeepsOrder(list: seq<Entry>, ops: seq<Op>, cap: nat, op: Op)
    requires cap >= 1 && |list| <= cap && ByUse(list, ops)
    ensures |After(list, cap, op)| <= cap && ByUse(After(list, cap, op), ops + [op])
  {
    hide LastUse, ByUse, Without, Find;
    match op
    case OpGet(k) =>
      if Cached(list, k) {
        ByUseWithout(list, ops, k);
        ByUseAppend(Without(list, k), ops, op, Entry(k, Find(list, k).value));
      } else {
        ByUseLater(list, ops, op);
      }
    case OpInsert(k, v) =>
      if Cached(list, k) {
        ByUseWithout(list, ops, k);
        ByUseAppend(Without(list, k), ops, op, Entry(k, v));
      } else if |list| >= cap {
        assert list[..0] + list[1..] == list[1..];
        ByUseRemove(list, ops, 0);
        assert !Cached(list[1..], k);
        ByUseAppend(list[1..], ops, op, Entry(k, v));
      } else {
        ByUseAppend(list, ops, op, Entry(k, v));
      }
    case OpInvalidate(k) =>
      ByUseWithout(list, ops, k);
      ByUseLater(Without(list, k), ops, op);
    case OpClear =>
      assert ByUse([], ops + [op]) by { EmptyByUse(ops + [op]); }
  }

  lemma LastOp(cap: nat, ops: seq<Op>)
    ensures ops == [] ==> ListAfter(cap, ops) == []
    ensures ops != [] ==>
              var pre, op := ops[..|ops| - 1], ops[|ops| - 1];
              ListAfter(cap, ops) == After(ListAfter(cap, pre), cap, op) && pre + [op] == ops
  {
    hide After;
  }

  lemma EmptyByUse(ops: seq<Op>)
    ensures ByUse([], ops)
  {
  }

  /** After every run the list has at most `cap` entries, in order of last use. */
  lemma {:induction false} RunsKeepOrder(cap: nat, ops: seq<Op>)
    requires cap >= 1
    ensures |ListAfter(cap, ops)| <= cap && ByUse(ListAfter(cap, ops), ops)
  {
    hide *;
    LastOp(cap, ops);
    if ops == [] {
      EmptyByUse(ops);
    } else {
      var pre, op := ops[..|ops| - 1], ops[|ops| - 1];
      RunsKeepOrder(cap, pre);
      AfterKeepsOrder(ListAfter(cap, pre), pre, cap, op);
    }
  }

  /**
   When the cache is full after any run, storing a new key evicts the one entry
   whose last use is the earliest, and no other.
   */
  lemma EvictsLeastRecentlyUsed(cap: nat, ops: seq<Op>, k: Key, v: Val) returns (victim: Entry)
    requires cap >= 1 && |ListAfter(cap, ops)| == cap && !Cached(ListAfter(cap, ops), k)
    ensures var list := ListAfter(cap, ops); var list' := ListAfter(cap, ops + [OpInsert(k, v)]);
      && victim in list && victim !in list'
      && (forall e :: e in list && e != victim ==> LastUse(ops, victim.key) < LastUse(ops, e.key))
      && (forall e :: e in list' <==> e == Entry(k, v) || (e in list && e != victim))
  {
    var list := ListAfter(cap, ops);
    var ops' := ops + [OpInsert(k, v)];
    var list' := ListAfter(cap, ops');
    RunsKeepOrder(cap, ops);
    ByUseDistinct(list, ops);
    assert ops'[..|ops'| - 1] == ops;
    assert list' == list[1..] + [Entry(k, v)];
    victim := list[0];
    hide LastUse, ListAfter;
    assert Cached(list, victim.key);
    forall e | e in list && e != victim
      ensures LastUse(ops, victim.key) < LastUse(ops, e.key) && e in list'
    {
      var i :| 0 <= i < |list| && list[i] == e;
      assert list'[i - 1] == e;
    }
    forall e | e in list'
      ensures e == Entry(k, v) || (e in list && e != victim)
    {
      var i :| 0 <= i < |list'| && list'[i] == e;
      if i < |list| - 1 { assert e == list[i + 1]; }
    }
    assert list'[|list'| - 1] == Entry(k, v);
  }

  // ---- coherence with the backing store -------------------------------------------------------

  type Store = map<Key, Val>

  datatype Event =
    | Read(key: Key)
    | Put(key: Key, val: Val, writeThrough: bool)
    | Delete(key: Key)
      // A transaction aborts: the store goes back to some earlier state.
    | Abort(restored: Store)

  datatype System = System(db: Store, list: seq<Entry>)

  function Lookup(db: Store, k: Key): Option<Val> {
    if k in db then Some(db[k]) else None
  }

  /** What a reader gets: the cached value on a hit, the stored one on a miss. */
  function ReadResult(s: System, k: Key): Option<Val> {
    match Find(s.list, k)
    case Some(v) => Some(v)
    case None => Lookup(s.db, k)
  }

  function NextSystem(s: System, cap: nat, e: Event): System {
    match e
    case Read(k) =>
      var list := AfterGet(s.list, k);
      if Find(s.list, k).None? && k in s.db
      then System(s.db, AfterInsert(list, cap, k, s.db[k]))
      else System(s.db, list)
    case Put(k, v, through) =>
      System(s.db[k := v], if through then AfterInsert(s.list, cap, k, v) else Without(s.list, k))
    case Delete(k) => System(s.db - {k}, Without(s.list, k))
    case Abort(db) => System(db, [])
  }

  function SystemAfter(db: Store, cap: nat, events: seq<Event>): System {
    if events == [] then System(db, [])
    else NextSystem(SystemAfter(db, cap, events[..|events| - 1]), cap, events[|events| - 1])
  }

  ghost predicate Coherent(s: System) {
    forall e :: e in s.list ==> Lookup(s.db, e.key) == Some(e.val)
  }

  lemma NextIsCoherent(s: System, cap: nat, e: Event)
    requires Coherent(s)
    ensures Coherent(NextSystem(s, cap, e))
  {
  }

  lemma {:induction false} RunsAreCoherent(db: Store, cap: nat, events: seq<Event>)
    ensures Coherent(SystemAfter(db, cap, events))
  {
    if events != [] {
      hide Coherent, NextSystem;
      RunsAreCoherent(db, cap, events[..|events| - 1]);
      NextIsCoherent(SystemAfter(db, cap, events[..|events| - 1]), cap, events[|events| - 1]);
    }
  }

  /** After every run, a read through the cache gives the store's current value. */
  lemma ReadsShowTheStore(db: Store, cap: nat, events: seq<Event>, k: Key)
    ensures var s := SystemAfter(db, cap, events); ReadResult(s, k) == Lookup(s.db, k)
  {
    RunsAreCoherent(db, cap, events);
    hide SystemAfter;
  }

  /** A change the cache is not told about goes unnoticed exactly when it cannot be seen. */
  lemma UntoldChange(s: System, k: Key, v: Val)
    requires Coherent(s)
    ensures Coherent(s.(db := s.db[k := v])) <==> (Cached(s.list, k) ==> Lookup(s.db, k) == Some(v))
  {
    if Cached(s.list, k) {
      var i :| 0 <= i < |s.list| && s.list[i].key == k;
      assert s.list[i] in s.list;
    } else {
      forall e | e in s.list
        ensures e.key != k
      {
        var i :| 0 <= i < |s.list| && s.list[i] == e;
      }
    }
  }
}
