/**
 The bounded read cache: a hash map from key to value and last-used tick,
 mirrored by an ordered set of (tick, key) whose least element is the victim.
 Its meaning is a recency list, least recently used entry first.
 */
module Cache {
  import opened Bytes

  type Key = seq<byte>
  type Val = seq<byte>

  // ---- recency lists -----------------------------------------------------------------

  datatype Entry = Entry(key: Key, val: Val)

  predicate Cached(list: seq<Entry>, k: Key) {
    exists i :: 0 <= i < |list| && list[i].key == k
  }

  predicate Distinct(list: seq<Entry>) {
    forall i, j :: 0 <= i < j < |list| ==> list[i].key != list[j].key
  }

  function Find(list: seq<Entry>, k: Key): (r: Option<Val>)
    ensures r.Some? <==> Cached(list, k)
    ensures r.Some? ==> Entry(k, r.value) in list
  {
    if list == [] then None
    else if list[0].key == k then Some(list[0].val)
    else
      assert list == [list[0]] + list[1..];
      Find(list[1..], k)
  }

  function Without(list: seq<Entry>, k: Key): (r: seq<Entry>)
    ensures !Cached(r, k)
    ensures forall e :: e in r <==> e in list && e.key != k
    ensures |r| <= |list|
  {
    if list == [] then []
    else
      assert list == [list[0]] + list[1..];
      if list[0].key == k then Without(list[1..], k) else [list[0]] + Without(list[1..], k)
  }

  function AfterGet(list: seq<Entry>, k: Key): seq<Entry> {
    match Find(list, k)
    case None => list
    case Some(v) => Without(list, k) + [Entry(k, v)]
  }

  function AfterInsert(list: seq<Entry>, cap: nat, k: Key, v: Val): seq<Entry> {
    if Cached(list, k) then Without(list, k) + [Entry(k, v)]
    else if |list| >= cap && list != [] then list[1..] + [Entry(k, v)]
    else list + [Entry(k, v)]
  }

  // ---- the cache -------------------------------------------------------------------------

  /** Order of the set: tick first, then key bytes. */
  predicate KeyLe(a: Key, b: Key) {
    a == [] || (b != [] && (a[0] < b[0] || (a[0] == b[0] && KeyLe(a[1..], b[1..]))))
  }

  predicate Before(a: (nat, Key), b: (nat, Key)) {
    a.0 < b.0 || (a.0 == b.0 && KeyLe(a.1, b.1))
  }

  // ---- how the two indexes represent a recency list ----------------------------------------

  type Entries = map<Key, (Val, nat)>

  /** The list holds exactly the entries of the map. */
  ghost predicate Lists(list: seq<Entry>, entries: Entries) {
    && |list| == |entries|
    && (forall e :: e in list ==> e.key in entries && entries[e.key].0 == e.val)
    && (forall k :: k in entries ==> Cached(list, k))
  }

  /** Later places were used later. */
  ghost predicate Ascends(list: seq<Entry>, entries: Entries)
    requires forall e :: e in list ==> e.key in entries
  {
    forall i, j :: 0 <= i < j < |list| ==> entries[list[i].key].1 < entries[list[j].key].1
  }

  /** The ordered set mirrors the map, and every tick is past. */
  ghost predicate Indexes(entries: Entries, order: set<(nat, Key)>, clock: nat) {
    && (forall k :: k in entries ==> (entries[k].1, k) in order && entries[k].1 <= clock)
    && (forall o :: o in order ==> o.1 in entries && entries[o.1].1 == o.0)
  }

  ghost predicate Mirrors(list: seq<Entry>, entries: Entries, order: set<(nat, Key)>, clock: nat) {
    Lists(list, entries) && Ascends(list, entries) && Indexes(entries, order, clock)
  }

  /** In a list without repeated keys, `Without` cuts out one place. */
  lemma {:induction false} WithoutAt(list: seq<Entry>, p: nat)
    requires Distinct(list) && p < |list|
    ensures Without(list, list[p].key) == list[..p] + list[p + 1..]
    ensures Find(list, list[p].key) == Some(list[p].val)
    decreases |list|
  {
    hide Distinct, Cached;
    var k := list[p].key;
    TailDistinct(list);
    if p == 0 {
      WithoutAbsent(list[1..], k);
    } else {
      WithoutAt(list[1..], p - 1);
      FirstDiffers(list, p);
      HeadApart(list, p);
    }
  }

  lemma TailDistinct(list: seq<Entry>)
    requires Distinct(list) && list != []
    ensures Distinct(list[1..]) && !Cached(list[1..], list[0].key)
  {
  }

  lemma InsertCases(list: seq<Entry>, cap: nat, k: Key, v: Val)
    ensures Cached(list, k) ==> AfterInsert(list, cap, k, v) == Without(list, k) + [Entry(k, v)]
    ensures !Cached(list, k) && |list| >= cap && list != [] ==>
              AfterInsert(list, cap, k, v) == list[1..] + [Entry(k, v)]
    ensures !Cached(list, k) && (|list| < cap || list == []) ==>
              AfterInsert(list, cap, k, v) == list + [Entry(k, v)]
  {
    hide Cached, Without;
  }

  lemma HeadApart(list: seq<Entry>, p: nat)
    requires 0 < p < |list|
    ensures list[..p] + list[p + 1..] == [list[0]] + (list[1..][..p - 1] + list[1..][p..])
  {
  }

  lemma FirstDiffers(list: seq<Entry>, p: nat)
    requires Distinct(list) && 0 < p < |list|
    ensures list[0].key != list[p].key
  {
  }

  lemma {:induction false} WithoutAbsent(list: seq<Entry>, k: Key)
    requires !Cached(list, k)
    ensures Without(list, k) == list
  {
    if list != [] {
      assert list[0].key != k;
      assert forall i :: 0 <= i < |list[1..]| ==> list[1..][i] == list[i + 1];
      WithoutAbsent(list[1..], k);
    }
  }

  lemma MirrorsDistinct(list: seq<Entry>, entries: Entries, order: set<(nat, Key)>, clock: nat)
    requires Mirrors(list, entries, order, clock)
    ensures Distinct(list) && |list| == |entries|
    ensures order == {} <==> list == []
    ensures forall k :: k in entries <==> Cached(list, k)
    ensures forall i :: 0 <= i < |list| ==> list[i].key in entries && entries[list[i].key].0 == list[i].val
  {
    forall i | 0 <= i < |list|
      ensures list[i].key in entries && entries[list[i].key].0 == list[i].val
    {
      assert list[i] in list;
    }
    if list == [] {
      assert forall o :: o !in order;
    } else {
      assert list[0].key in entries;
    }
    forall i, j | 0 <= i < j < |list|
      ensures list[i].key != list[j].key
    {
      assert entries[list[i].key].1 < entries[list[j].key].1;
    }
  }

  lemma CachedRemove(list: seq<Entry>, p: nat, c: Key)
    requires p < |list| && c != list[p].key && Cached(list, c)
    ensures Cached(list[..p] + list[p + 1..], c)
  {
    var i :| 0 <= i < |list| && list[i].key == c;
    var list' := list[..p] + list[p + 1..];
    assert list'[if i < p then i else i - 1].key == c;
  }

  lemma CachedAppend(list: seq<Entry>, e: Entry, c: Key)
    requires Cached(list, c) || c == e.key
    ensures Cached(list + [e], c)
  {
    if c == e.key {
      assert (list + [e])[|list|].key == c;
    } else {
      var i :| 0 <= i < |list| && list[i].key == c;
      assert (list + [e])[i].key == c;
    }
  }

  lemma Kept(list: seq<Entry>, p: nat, e: Entry)
    requires Distinct(list) && p < |list| && e in list[..p] + list[p + 1..]
    ensures e in list && e.key != list[p].key
  {
    var list' := list[..p] + list[p + 1..];
    var i :| 0 <= i < |list'| && list'[i] == e;
    assert e == list[if i < p then i else i + 1];
  }

  lemma ListsRemove(list: seq<Entry>, p: nat, entries: Entries)
    requires Lists(list, entries) && Distinct(list) && p < |list|
    ensures Lists(list[..p] + list[p + 1..], entries - {list[p].key})
  {
    hide Cached, Distinct;
    var k := list[p].key;
    var list', entries' := list[..p] + list[p + 1..], entries - {k};
    assert |list'| == |entries'| by {
      assert list[p] in list;
      assert entries'.Keys == entries.Keys - {k};
    }
    forall c | c in entries' ensures Cached(list', c) {
      CachedRemove(list, p, c);
    }
    forall e | e in list' ensures e.key in entries' && entries'[e.key].0 == e.val {
      Kept(list, p, e);
    }
  }

  lemma ListsAppend(list: seq<Entry>, entries: Entries, k: Key, v: Val, t: nat)
    requires Lists(list, entries) && k !in entries
    ensures Lists(list + [Entry(k, v)], entries[k := (v, t)])
  {
    hide Cached;
    var list', entries' := list + [Entry(k, v)], entries[k := (v, t)];
    assert |list'| == |entries'| by {
      assert entries'.Keys == entries.Keys + {k};
    }
    forall c | c in entries' ensures Cached(list', c) {
      CachedAppend(list, Entry(k, v), c);
    }
    forall e | e in list' ensures e.key in entries' && entries'[e.key].0 == e.val {
      assert e == Entry(k, v) || e in list;
    }
  }

  lemma AscendsRemove(list: seq<Entry>, p: nat, entries: Entries)
    requires Lists(list, entries) && Ascends(list, entries)
    requires Distinct(list) && p < |list|
    ensures var list' := list[..p] + list[p + 1..]; var entries' := entries - {list[p].key};
            (forall e :: e in list' ==> e.key in entries') && Ascends(list', entries')
  {
    hide Cached, Distinct, Lists;
    var list', entries' := list[..p] + list[p + 1..], entries - {list[p].key};
    assert forall e | e in list :: e.key in entries by { ListedKeys(list, entries); }
    forall e | e in list' ensures e.key in entries' {
      Kept(list, p, e);
    }
    forall i, j | 0 <= i < j < |list'|
      ensures entries'[list'[i].key].1 < entries'[list'[j].key].1
    {
      var x := RemovedAt(list, p, i);
      var y := RemovedAt(list, p, j);
      assert list'[i] in list' && list'[j] in list';
    }
  }

  lemma ListedKeys(list: seq<Entry>, entries: Entries)
    requires Lists(list, entries)
    ensures forall e | e in list :: e.key in entries
  {
    hide Cached;
  }

  /** Where an element of the shortened list came from. */
  lemma RemovedAt(list: seq<Entry>, p: nat, i: nat) returns (x: nat)
    requires p < |list| && i < |list| - 1
    ensures x == (if i < p then i else i + 1) && x < |list| && (list[..p] + list[p + 1..])[i] == list[x]
  {
    x := if i < p then i else i + 1;
  }

  lemma AscendsAppend(list: seq<Entry>, entries: Entries, e: Entry, t: nat)
    requires Lists(list, entries) && Ascends(list, entries)
    requires e.key !in entries && forall k :: k in entries ==> entries[k].1 < t
    ensures var list' := list + [e]; var entries' := entries[e.key := (e.val, t)];
            (forall x :: x in list' ==> x.key in entries') && Ascends(list', entries')
  {
    hide Cached;
    var list', entries' := list + [e], entries[e.key := (e.val, t)];
    forall x | x in list' ensures x.key in entries' {
      assert x == e || x in list;
    }
    forall i, j | 0 <= i < j < |list'|
      ensures entries'[list'[i].key].1 < entries'[list'[j].key].1
    {
      assert list'[i] in list' && list'[j] in list';
      assert list'[i] == list[i] && list[i] in list;
    }
  }

  lemma MirrorsRemove(list: seq<Entry>, p: nat, entries: Entries, order: set<(nat, Key)>, clock: nat)
    requires Mirrors(list, entries, order, clock) && p < |list| && list[p].key in entries
    ensures var k := list[p].key;
            Mirrors(list[..p] + list[p + 1..], entries - {k}, order - {(entries[k].1, k)}, clock)
  {
    hide Lists, Ascends, Indexes;
    MirrorsDistinct(list, entries, order, clock);
    ListsRemove(list, p, entries);
    AscendsRemove(list, p, entries);
    IndexesRemove(entries, order, clock, list[p].key);
  }

  lemma IndexesRemove(entries: Entries, order: set<(nat, Key)>, clock: nat, k: Key)
    requires Indexes(entries, order, clock) && k in entries
    ensures Indexes(entries - {k}, order - {(entries[k].1, k)}, clock)
  {
  }

  lemma IndexesAppend(entries: Entries, order: set<(nat, Key)>, clock: nat, k: Key, v: Val, t: nat)
    requires Indexes(entries, order, clock) && k !in entries && t > clock
    ensures Indexes(entries[k := (v, t)], order + {(t, k)}, t)
    ensures forall c :: c in entries ==> entries[c].1 < t
  {
  }

  lemma MirrorsAppend(list: seq<Entry>, entries: Entries, order: set<(nat, Key)>, clock: nat,
                      k: Key, v: Val, t: nat)
    requires Mirrors(list, entries, order, clock) && k !in entries && t > clock
    ensures Mirrors(list + [Entry(k, v)], entries[k := (v, t)], order + {(t, k)}, t)
  {
    hide Lists, Ascends, Indexes;
    IndexesAppend(entries, order, clock, k, v, t);
    ListsAppend(list, entries, k, v, t);
    AscendsAppend(list, entries, Entry(k, v), t);
  }

  /** Dropping a key from the list and both indexes. */
  lemma MirrorsDrop(list: seq<Entry>, entries: Entries, order: set<(nat, Key)>, clock: nat, k: Key)
    requires Mirrors(list, entries, order, clock) && k in entries
    ensures Mirrors(Without(list, k), entries - {k}, order - {(entries[k].1, k)}, clock)
    ensures Cached(list, k) && Find(list, k) == Some(entries[k].0)
    ensures |Without(list, k)| == |list| - 1
  {
    hide Mirrors, Without, Find;
    MirrorsDistinct(list, entries, order, clock);
    var p :| 0 <= p < |list| && list[p].key == k;
    WithoutAt(list, p);
    MirrorsRemove(list, p, entries, order, clock);
  }

  /** Using a key again: its entry moves to the end with a fresh tick. */
  lemma MirrorsRefresh(list: seq<Entry>, entries: Entries, order: set<(nat, Key)>, clock: nat, k: Key, v: Val, t: nat)
    requires Mirrors(list, entries, order, clock) && k in entries && t > clock
    ensures Mirrors(Without(list, k) + [Entry(k, v)], entries[k := (v, t)],
                    order - {(entries[k].1, k)} + {(t, k)}, t)
    ensures Cached(list, k) && Find(list, k) == Some(entries[k].0)
    ensures |Without(list, k)| == |list| - 1
  {
    hide Mirrors, Without, Find, Cached;
    MirrorsDrop(list, entries, order, clock, k);
    MirrorsAppend(Without(list, k), entries - {k}, order - {(entries[k].1, k)}, clock, k, v, t);
    assert (entries - {k})[k := (v, t)] == entries[k := (v, t)];
  }

  /** Evicting the first entry and adding a new one. */
  lemma MirrorsEvict(list: seq<Entry>, entries: Entries, order: set<(nat, Key)>, clock: nat, k: Key, v: Val, t: nat)
    requires Mirrors(list, entries, order, clock) && k !in entries && t > clock
    requires list != [] && list[0].key in entries
    ensures var victim := list[0].key;
            Mirrors(list[1..] + [Entry(k, v)], (entries - {victim})[k := (v, t)],
                    order - {(entries[victim].1, victim)} + {(t, k)}, t)
  {
    hide Mirrors;
    var victim := list[0].key;
    MirrorsRemove(list, 0, entries, order, clock);
    assert list[..0] + list[1..] == list[1..];
    MirrorsAppend(list[1..], entries - {victim}, order - {(entries[victim].1, victim)}, clock, k, v, t);
  }

  lemma MirrorsLater(list: seq<Entry>, entries: Entries, order: set<(nat, Key)>, clock: nat, later: nat)
    requires Mirrors(list, entries, order, clock) && clock <= later
    ensures Mirrors(list, entries, order, later)
  {
  }

  class ReadCache {
    const cap: nat
    var entries: Entries
    var order: set<(nat, Key)>
    var clock: nat
    var hits: nat
    var misses: nat
    /** The entries, least recently used first. */
    ghost var recent: seq<Entry>

    ghost predicate Valid()
      reads this
    {
      cap >= 1 && |recent| <= cap && Mirrors(recent, entries, order, clock)
    }

    constructor (capacity: nat)
      ensures Valid() && recent == []
      ensures cap == if capacity < 1 then 1 else capacity
      ensures hits == 0 && misses == 0
    {
      cap := if capacity < 1 then 1 else capacity;
      entries, order, clock, hits, misses := map[], {}, 0, 0, 0;
      recent := [];
    }

    method Get(key: Key) returns (r: Option<Val>)
      requires Valid()
      modifies this
      ensures Valid()
      ensures r == Find(old(recent), key)
      ensures recent == AfterGet(old(recent), key)
      ensures hits == old(hits) + (if r.Some? then 1 else 0)
      ensures misses == old(misses) + (if r.Some? then 0 else 1)
    {
      hide Mirrors, Without, Find, Cached, Distinct;
      MirrorsDistinct(recent, entries, order, clock);
      var now := clock + 1;
      if key in entries {
        var (val, oldTick) := entries[key];
        MirrorsRefresh(recent, entries, order, clock, key, val, now);
        entries := entries[key := (val, now)];
        order := order - {(oldTick, key)};
        order := order + {(now, key)};
        hits := hits + 1;
        recent := Without(recent, key) + [Entry(key, val)];
        r := Some(val);
      } else {
        MirrorsLater(recent, entries, order, clock, now);
        misses := misses + 1;
        r := None;
      }
      clock := now;
    }

    method Insert(key: Key, val: Val)
      requires Valid()
      modifies this
      ensures Valid()
      ensures recent == AfterInsert(old(recent), cap, key, val)
      ensures hits == old(hits) && misses == old(misses)
    {
      hide Mirrors, Without, Find, Cached, Distinct, AfterInsert;
      MirrorsDistinct(recent, entries, order, clock);
      InsertCases(recent, cap, key, val);
      var now: nat := clock + 1;
      if key in entries {
        MirrorsRefresh(recent, entries, order, clock, key, val, now);
        order := order - {(entries[key].1, key)};
        recent := Without(recent, key);
      } else if |entries| >= cap && order != {} {
        var victim := Least();
        MirrorsEvict(recent, entries, order, clock, key, val, now);
        order := order - {victim};
        entries := entries - {victim.1};
        recent := recent[1..];
      } else {
        MirrorsAppend(recent, entries, order, clock, key, val, now);
      }
      order := order + {(now, key)};
      entries := entries[key := (val, now)];
      recent := recent + [Entry(key, val)];
      clock := now;
    }

    /** The least (tick, key) of the set is the first entry of the recency list. */
    method Least() returns (victim: (nat, Key))
      requires Valid() && order != {}
      ensures victim in order && forall o :: o in order ==> Before(victim, o)
      ensures recent != [] && victim == (entries[recent[0].key].1, recent[0].key)
    {
      MirrorsDistinct(recent, entries, order, clock);
      ghost var first := (entries[recent[0].key].1, recent[0].key);
      assert first in order;
      forall o | o in order
        ensures Before(first, o)
      {
        var i :| 0 <= i < |recent| && recent[i].key == o.1;
        KeyLeReflexive(o.1);
      }
      victim :| victim in order && forall o :: o in order ==> Before(victim, o);
      assert Before(victim, first);
      ghost var j :| 0 <= j < |recent| && recent[j].key == victim.1;
    }

    method Invalidate(key: Key)
      requires Valid()
      modifies this
      ensures Valid()
      ensures recent == Without(old(recent), key)
      ensures hits == old(hits) && misses == old(misses)
    {
      hide Mirrors, Without, Find, Cached, Distinct;
      MirrorsDistinct(recent, entries, order, clock);
      if key in entries {
        MirrorsDrop(recent, entries, order, clock, key);
        var t := entries[key].1;
        entries := entries - {key};
        order := order - {(t, key)};
        recent := Without(recent, key);
      } else {
        WithoutAbsent(recent, key);
      }
    }

    method Clear()
      requires Valid()
      modifies this
      ensures Valid() && recent == []
      ensures hits == old(hits) && misses == old(misses)
    {
      entries, order := map[], {};
      recent := [];
    }

    method Len() returns (n: nat)
      requires Valid()
      ensures n == |recent| <= cap
    {
      n := |entries|;
    }
  }

  lemma {:induction false} KeyLeReflexive(k: Key)
    ensures KeyLe(k, k)
  {
    if k != [] { KeyLeReflexive(k[1..]); }
  }
}
