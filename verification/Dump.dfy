/** get_all_entries and the restore functions (store.hpp): a dump of a store, restored anywhere at
    any later time, is the store's live view at that time. */
module Dump {
  import opened Bytes
  import opened Keyspace
  import opened Memory
  import opened StoreModel
  import opened ValueLoops

  // ----- listing one value

  lemma FirstWinsStep(pairs: seq<(Str, Str)>, key: Str, value: Str)
    ensures FirstWins(pairs + [(key, value)])
         == if key in FirstWins(pairs) then FirstWins(pairs) else FirstWins(pairs)[key := value]
  {
    var all := pairs + [(key, value)];
    assert all[..|all| - 1] == pairs;
  }

  lemma OverlayStep<V>(m: map<Str, V>, pairs: seq<(Str, V)>, key: Str, value: V)
    ensures Overlay(m, pairs + [(key, value)]) == Overlay(m, pairs)[key := value]
  {
    var all := pairs + [(key, value)];
    assert all[..|all| - 1] == pairs;
  }

  lemma RestStep<V>(m: map<Str, V>, rest: set<Str>, key: Str)
    requires rest <= m.Keys && key in rest
    ensures m - (rest - {key}) == (m - rest)[key := m[key]]
  {
  }

  method ListFields(h: map<Str, Str>) returns (pairs: seq<(Str, Str)>)
    ensures FirstWins(pairs) == h && DistinctKeys(pairs)
  {
    pairs := [];
    var rest := h.Keys;
    assert h - rest == map[];
    while rest != {}
      invariant rest <= h.Keys && FirstWins(pairs) == h - rest && DistinctKeys(pairs)
      invariant forall i :: 0 <= i < |pairs| ==> pairs[i].0 !in rest
      decreases |rest|
    {
      var key :| key in rest;
      FirstWinsStep(pairs, key, h[key]);
      RestStep(h, rest, key);
      pairs := pairs + [(key, h[key])];
      rest := rest - {key};
    }
    assert h - rest == h;
  }

  method ListScores(z: map<Str, Score>) returns (pairs: seq<(Str, Score)>)
    ensures Overlay(map[], pairs) == z && DistinctKeys(pairs)
  {
    pairs := [];
    var rest := z.Keys;
    assert z - rest == map[];
    while rest != {}
      invariant rest <= z.Keys && Overlay(map[], pairs) == z - rest && DistinctKeys(pairs)
      invariant forall i :: 0 <= i < |pairs| ==> pairs[i].0 !in rest
      decreases |rest|
    {
      var key :| key in rest;
      OverlayStep(map[], pairs, key, z[key]);
      RestStep(z, rest, key);
      pairs := pairs + [(key, z[key])];
      rest := rest - {key};
    }
    assert z - rest == z;
  }

  method ListMembers(s: set<Str>) returns (members: seq<Str>)
    ensures Members(members) == s && NoDuplicates(members)
  {
    members := [];
    var rest := s;
    while rest != {}
      invariant rest <= s && NoDuplicates(members) && forall x :: x in members <==> x in s - rest
      decreases |rest|
    {
      var x :| x in rest;
      assert x !in members;
      members := members + [x];
      rest := rest - {x};
    }
  }

  method DumpOf(v: Value) returns (d: DumpValue)
    ensures Lists(d, v)
  {
    match v {
      case StringV(t) => { d := StringDump(t); }
      case ListV(l) => { d := ListDump(l); }
      case HashV(h) => { var pairs := ListFields(h); d := HashDump(pairs); }
      case SetV(s) => { var members := ListMembers(s); d := SetDump(members); }
      case ZSetV(z) => { var pairs := ListScores(z); d := ZSetDump(pairs); }
    }
  }

  // ----- listing the store

  /** get_all_entries. */
  method GetAllEntries(store: Store, clock: Clock) returns (entries: seq<DumpEntry>)
    requires store.Valid()
    ensures Dumps(entries, store.Live(clock.now), clock)
  {
    hide Store.Shaped, IndexOf, Total, LiveItems, Lists;
    var keys := store.StoredKeys();
    ghost var live := store.Live(clock.now);
    entries := [];
    for i := 0 to |keys|
      invariant forall a, b :: 0 <= a < b < |entries| ==> entries[a].key != entries[b].key
      invariant forall a :: 0 <= a < |entries| ==> Listed(entries[a], live, clock) && entries[a].key in keys[..i]
      invariant forall k :: k in live && k in keys[..i] ==> exists a :: 0 <= a < |entries| && entries[a].key == k
    {
      assert keys[..i + 1] == keys[..i] + [keys[i]] && keys[i] !in keys[..i];
      var cell := store.Find(keys[i]);
      if !(cell.value.expireAt != 0 && cell.value.expireAt <= clock.now) {
        var deadline := if cell.value.expireAt > clock.now then clock.wall + (cell.value.expireAt - clock.now) else 0;
        var d := DumpOf(cell.value.value);
        ghost var before := entries;
        entries := entries + [DumpEntry(keys[i], d, deadline)];
        assert forall a :: 0 <= a < |before| ==> entries[a] == before[a];
        assert entries[|before|].key == keys[i];
      }
    }
    assert keys[..|keys|] == keys;
  }

  ghost predicate Listed(e: DumpEntry, db: Db, clock: Clock) {
    e.key in db && Lists(e.value, db[e.key].value) && e.deadline == WallDeadline(db[e.key].expireAt, clock)
  }

  // ----- restoring

  /** restore_string_entry, restore_list_entry and restore_collection_entry. */
  method RestoreEntry(store: Store, e: DumpEntry, clock: Clock)
    requires store.Valid()
    modifies store`shards, store`items, store`ttlKeys, store`used, store`peak
    ensures store.Kept(e.key)
    ensures store.Live(clock.now) == RestoreDb(old(store.Live(clock.now)), clock, e)
  {
    hide Store.Shaped, IndexOf, NoEmptyIn, Total, Weight, LiveItems, ValueOf;
    if EmptyDump(e.value) { return; }
    NonEmptyDump(e.value);
    var value := ValueOf(e.value);
    var key := e.key;
    TotalErase(store.items, key);
    var cell := store.Find(key);
    if cell.Some? {
      var mem := EstimateEntryMemory(key, cell.value.value);
      store.SubMemory(mem);
    }
    if e.deadline == 0 {
      Install(store, key, Item(value, 0), old(store.items), old(store.ttlKeys), old(store.used));
      LiveUpdate(old(store.items), store.items, key, clock.now, Some(Item(value, 0)));
    } else if e.deadline <= clock.wall {
      store.EraseData(key);
      store.IndexErase(key);
      EraseKeeps(old(store.items), old(store.ttlKeys), key);
      LiveUpdate(old(store.items), store.items, key, clock.now, None);
    } else {
      var item := Item(value, clock.now + (e.deadline - clock.wall));
      Install(store, key, item, old(store.items), old(store.ttlKeys), old(store.used));
      LiveUpdate(old(store.items), store.items, key, clock.now, Some(item));
    }
  }

  /** Writes an entry whose predecessor's memory has already been released, with its index entry. */
  method Install(store: Store, key: Str, item: Item, ghost items: Db, ghost ttlKeys: set<Str>, ghost used: nat)
    requires store.Shaped() && store.items == items && store.ttlKeys == ttlKeys && IndexOf(items, ttlKeys)
    requires used <= Total(items) && store.used <= store.peak && !EmptyValue(item.value)
    requires Total(items) == Total(items - {key}) + if key in items then Weight(key, items[key].value) else 0
    requires store.used == (var mem := if key in items then Weight(key, items[key].value) else 0;
                            if mem >= used then 0 else used - mem)
    modifies store`shards, store`items, store`ttlKeys, store`used, store`peak
    ensures store.Valid() && store.items == items[key := item] && store.items - {key} == items - {key}
    ensures used == Total(items) ==> store.Exact()
    ensures NoEmptyIn(items) ==> store.NoEmpty()
  {
    hide Store.Shaped, IndexOf, NoEmptyIn, Total, Weight, LiveItems;
    store.StoreEntry(key, item);
    if item.expireAt == 0 { store.IndexErase(key); } else { store.IndexInsert(key); }
    var mem := EstimateEntryMemory(key, item.value);
    store.AddMemory(mem);
    TotalPut(items, key, item);
    PutKeeps(items, ttlKeys, key, item, store.ttlKeys);
  }

  lemma NonEmptyDump(d: DumpValue)
    requires !EmptyDump(d)
    ensures !EmptyValue(ValueOf(d))
  {
    match d
    case HashDump(p) => FirstWinsNonEmpty(p);
    case SetDump(m) => SomeMember(m);
    case ZSetDump(p) => assert p[0].0 in Overlay(map[], p);
    case _ =>
  }

  lemma FirstWinsNonEmpty(p: seq<(Str, Str)>)
    requires p != []
    ensures FirstWins(p) != map[]
  {
    assert p[|p| - 1].0 in FirstWins(p);
  }

  // ----- a restored dump carries the store over

  function RestoredCell(e: DumpEntry, clock: Clock): Cell {
    if e.deadline == 0 then Some(Item(ValueOf(e.value), 0))
    else if e.deadline <= clock.wall then None
    else Some(Item(ValueOf(e.value), clock.now + (e.deadline - clock.wall)))
  }

  lemma {:induction false} RestoreAllAt(entries: seq<DumpEntry>, clock: Clock, i: nat)
    requires i < |entries| && forall a, b :: 0 <= a < b < |entries| ==> entries[a].key != entries[b].key
    requires forall a :: 0 <= a < |entries| ==> !EmptyDump(entries[a].value)
    ensures Lookup(RestoreAll(map[], clock, entries), entries[i].key) == RestoredCell(entries[i], clock)
  {
    hide ValueOf, EmptyDump;
    var n := |entries| - 1;
    if i < n {
      assert entries[..n][i] == entries[i];
      RestoreAllAt(entries[..n], clock, i);
    } else {
      RestoreAllElsewhere(entries[..n], clock, entries[n].key);
    }
  }

  lemma {:induction false} RestoreAllElsewhere(entries: seq<DumpEntry>, clock: Clock, key: Str)
    requires forall a :: 0 <= a < |entries| ==> entries[a].key != key
    ensures key !in RestoreAll(map[], clock, entries)
  {
    hide ValueOf, EmptyDump;
    if entries != [] { RestoreAllElsewhere(entries[..|entries| - 1], clock, key); }
  }

  lemma ListsNonEmpty(d: DumpValue, v: Value)
    requires Lists(d, v) && !EmptyValue(v)
    ensures !EmptyDump(d)
  {
  }

  /** Restoring a dump of db, taken at time at, into an empty store at any later time, in whatever
      process, gives what db has become by then. */
  lemma RestoreCarries(db: Db, at: Clock, entries: seq<DumpEntry>, later: Clock)
    requires Dumps(entries, db, at)
    requires forall k :: k in db ==> Alive(db[k].expireAt, at.now) && !EmptyValue(db[k].value)
    ensures Carries(db, at, RestoreAll(map[], later, entries), later)
  {
    hide RestoreAll, Lists, EmptyValue, EmptyDump;
    var r := RestoreAll(map[], later, entries);
    forall i | 0 <= i < |entries| ensures !EmptyDump(entries[i].value) {
      ListsNonEmpty(entries[i].value, db[entries[i].key].value);
    }
    forall k
      ensures (k in r <==> k in db && (db[k].expireAt == 0 || WallDeadline(db[k].expireAt, at) > later.wall))
              && (k in r ==> r[k].value == db[k].value
                             && (r[k].expireAt == 0 <==> db[k].expireAt == 0)
                             && WallDeadline(r[k].expireAt, later) == WallDeadline(db[k].expireAt, at))
    {
      if k in db {
        var i :| 0 <= i < |entries| && entries[i].key == k;
        RestoreAllAt(entries, later, i);
        ListsValue(entries[i].value, db[k].value);
      } else {
        RestoreAllElsewhere(entries, later, k);
      }
    }
  }

  lemma ListsValue(d: DumpValue, v: Value)
    requires Lists(d, v)
    ensures ValueOf(d) == v
  {
  }
}
