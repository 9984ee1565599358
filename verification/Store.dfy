/** The sharded store (store.hpp): its shards, TTL index and memory counter agree with one flat
    map after every operation, and every operation does to the live part of that map what the
    specification in Keyspace says. */
module StoreModel {
  import opened Bytes
  import opened Keyspace
  import opened Memory
  import opened Sharding
  import opened ValueLoops
  import Glob

  datatype Shard = Shard(data: Db, keysWithTtl: set<Str>)

  /** An operation that leaves all other keys alone and gives key a new live cell updates the live
      view at key. */
  lemma LiveUpdate(before: Db, after: Db, key: Str, now: nat, cell: Cell)
    requires after - {key} == before - {key}
    requires Lookup(after, key) == cell && (cell.Some? ==> Alive(cell.value.expireAt, now))
    ensures LiveItems(after, now) == Update(LiveItems(before, now), key, cell)
  {
    hide LiveItems;
    var l, u := LiveItems(after, now), Update(LiveItems(before, now), key, cell);
    forall k ensures (k in l <==> k in u) && (k in l ==> l[k] == u[k]) {
      if k != key {
        assert k in after <==> k in after - {key};
        assert k in before <==> k in before - {key};
        assert k in after ==> after[k] == (after - {key})[k] == (before - {key})[k];
      }
    }
  }

  lemma UpdateSame(db: Db, key: Str)
    ensures Update(db, key, Lookup(db, key)) == db
  {
  }

  ghost predicate IndexOf(db: Db, ttlKeys: set<Str>) {
    forall k :: k in ttlKeys <==> k in db && db[k].expireAt != 0
  }

  ghost predicate NoEmptyIn(db: Db) {
    forall k :: k in db ==> !EmptyValue(db[k].value)
  }

  lemma PutKeeps(db: Db, ttlKeys: set<Str>, key: Str, item: Item, nowTtl: set<Str>)
    requires IndexOf(db, ttlKeys) && nowTtl - {key} == ttlKeys - {key} && (key in nowTtl <==> item.expireAt != 0)
    ensures IndexOf(db[key := item], nowTtl)
    ensures NoEmptyIn(db) && !EmptyValue(item.value) ==> NoEmptyIn(db[key := item])
    ensures db[key := item] - {key} == db - {key}
  {
    forall k ensures k in nowTtl <==> k in db[key := item] && db[key := item][k].expireAt != 0 {
      assert k != key ==> (k in nowTtl <==> k in nowTtl - {key}) && (k in ttlKeys <==> k in ttlKeys - {key});
    }
  }

  lemma EraseKeeps(db: Db, ttlKeys: set<Str>, key: Str)
    requires IndexOf(db, ttlKeys)
    ensures IndexOf(db - {key}, ttlKeys - {key})
    ensures NoEmptyIn(db) ==> NoEmptyIn(db - {key})
    ensures db - {key} - {key} == db - {key}
  {
  }

  /** Every element of the sets once. */
  method Enumerate(sets: seq<set<Str>>) returns (keys: seq<Str>)
    requires forall i, k :: 0 <= i < |sets| && k in sets[i] ==> ShardIndex(k) == i
    ensures NoDuplicates(keys) && forall k :: k in keys <==> ShardIndex(k) < |sets| && k in sets[ShardIndex(k)]
  {
    hide ShardIndex;
    keys := [];
    for i := 0 to |sets|
      invariant NoDuplicates(keys) && forall k :: k in keys <==> ShardIndex(k) < i && k in sets[ShardIndex(k)]
    {
      var rest := sets[i];
      while rest != {}
        invariant rest <= sets[i] && NoDuplicates(keys)
        invariant forall k :: k in keys <==> k in (if ShardIndex(k) < i then sets[ShardIndex(k)] else sets[i] - rest)
        decreases |rest|
      {
        var key :| key in rest;
        rest := rest - {key};
        assert key !in keys;
        keys := keys + [key];
      }
    }
  }

  class Store {
    var shards: seq<Shard>
    var used: nat
    var peak: nat
    var dirty: nat
    var maxmemory: nat
    ghost var items: Db
    ghost var ttlKeys: set<Str>

    /** items and ttlKeys are what the shards hold, every key in the shard it hashes to. */
    ghost predicate Shaped()
      reads `shards, `items, `ttlKeys
    {
      |shards| == NUM_SHARDS
      && (forall i, k :: 0 <= i < NUM_SHARDS && k in shards[i].data ==> ShardIndex(k) == i)
      && (forall i, k :: 0 <= i < NUM_SHARDS && k in shards[i].keysWithTtl ==> ShardIndex(k) == i)
      && (forall k :: k in items <==> k in shards[ShardIndex(k)].data)
      && (forall k :: k in items ==> items[k] == shards[ShardIndex(k)].data[k])
      && (forall k :: k in ttlKeys <==> k in shards[ShardIndex(k)].keysWithTtl)
    }

    /** The TTL index holds exactly the keys with a deadline. */
    ghost predicate Indexed()
      reads `items, `ttlKeys
    {
      IndexOf(items, ttlKeys)
    }

    ghost predicate Valid()
      reads this
    {
      Shaped() && Indexed() && used <= Total(items) && used <= peak
    }

    ghost predicate Exact()
      reads `used, `items
    {
      used == Total(items)
    }

    ghost predicate NoEmpty()
      reads `items
    {
      NoEmptyIn(items)
    }

    ghost function Live(now: nat): Db
      reads `items
    {
      LiveItems(items, now)
    }

    /** The operation kept the invariant and left all other keys alone. */
    twostate predicate Only(key: Str)
      reads this
    {
      Valid() && items - {key} == old(items) - {key}
    }

    /** The key is no longer stored if its deadline has passed. */
    ghost predicate Collected(key: Str, now: nat)
      reads `items
    {
      key in items ==> key in Live(now)
    }

    /** What almost every operation on one key keeps. */
    twostate predicate Kept(key: Str)
      reads this
    {
      Only(key) && (old(Exact()) ==> Exact()) && (old(NoEmpty()) ==> NoEmpty())
    }

    constructor (maxMemory: nat)
      ensures Valid() && Exact() && NoEmpty() && items == map[] && maxmemory == maxMemory
    {
      shards := seq(NUM_SHARDS, _ => Shard(map[], {}));
      used, peak, dirty, maxmemory := 0, 0, 0, maxMemory;
      items, ttlKeys := map[], {};
    }

    // ----- steps on one shard

    method Find(key: Str) returns (cell: Cell)
      requires Shaped()
      ensures cell == Lookup(items, key)
    {
      var shard := shards[ShardIndex(key)];
      cell := if key in shard.data then Some(shard.data[key]) else None;
    }

    method StoreEntry(key: Str, item: Item)
      requires Shaped()
      modifies `shards, `items
      ensures Shaped() && items == old(items)[key := item]
    {
      hide ShardIndex;
      var i := ShardIndex(key);
      shards := shards[i := shards[i].(data := shards[i].data[key := item])];
      items := items[key := item];
    }

    method EraseData(key: Str)
      requires Shaped()
      modifies `shards, `items
      ensures Shaped() && items == old(items) - {key}
    {
      hide ShardIndex;
      var i := ShardIndex(key);
      shards := shards[i := shards[i].(data := shards[i].data - {key})];
      items := items - {key};
    }

    method IndexInsert(key: Str)
      requires Shaped()
      modifies `shards, `ttlKeys
      ensures Shaped() && ttlKeys == old(ttlKeys) + {key}
    {
      hide ShardIndex;
      var i := ShardIndex(key);
      shards := shards[i := shards[i].(keysWithTtl := shards[i].keysWithTtl + {key})];
      ttlKeys := ttlKeys + {key};
    }

    method IndexErase(key: Str)
      requires Shaped()
      modifies `shards, `ttlKeys
      ensures Shaped() && ttlKeys == old(ttlKeys) - {key}
    {
      hide ShardIndex;
      var i := ShardIndex(key);
      shards := shards[i := shards[i].(keysWithTtl := shards[i].keysWithTtl - {key})];
      ttlKeys := ttlKeys - {key};
    }

    method AddMemory(bytes: nat)
      modifies `used, `peak
      ensures used == old(used) + bytes
      ensures peak == if used > old(peak) then used else old(peak)
    {
      used := used + bytes;
      if used > peak { peak := used; }
    }

    method SubMemory(bytes: nat)
      modifies `used
      ensures used == if bytes >= old(used) then 0 else old(used) - bytes
    {
      if used > 0 { used := if bytes >= used then 0 else used - bytes; }
    }

    /** Charges the change of an entry's estimate. */
    method Charge(before: nat, after: nat)
      modifies `used, `peak
      ensures old(used) + after - before <= used || used == 0
      ensures used == if old(used) + after >= before then old(used) + after - before else 0
      ensures used <= peak || old(used) > old(peak)
    {
      if after > before { AddMemory(after - before); } else if after < before { SubMemory(before - after); }
    }

    /** Erases an entry and what belongs to it. */
    method EraseEntry(key: Str, item: Item)
      requires Valid() && key in items && items[key] == item
      modifies `shards, `items, `ttlKeys, `used
      ensures Kept(key) && items == old(items) - {key} && ttlKeys == old(ttlKeys) - {key}
    {
      hide ShardIndex, Weight, Total, Shaped, IndexOf, NoEmptyIn;
      var mem := EstimateEntryMemory(key, item.value);
      SubMemory(mem);
      EraseData(key);
      IndexErase(key);
      TotalErase(old(items), key);
      EraseKeeps(old(items), old(ttlKeys), key);
    }

    /** Looks a key up, erasing it first when its deadline has passed. */
    method FindAlive(key: Str, now: nat) returns (cell: Cell)
      requires Valid()
      modifies `shards, `items, `ttlKeys, `used
      ensures Kept(key)
      ensures cell == Lookup(items, key) == Lookup(old(Live(now)), key)
      ensures Live(now) == old(Live(now)) == Update(old(Live(now)), key, cell)
      ensures Alive(DeadlineOf(cell), now) && (cell.Some? <==> key in old(Live(now)))
      ensures cell.Some? ==> items == old(items)
      ensures Collected(key, now)
    {
      hide ShardIndex, Weight, Total, Shaped, LiveItems, IndexOf, NoEmptyIn;
      cell := Find(key);
      if cell.Some? && cell.value.expireAt != 0 && cell.value.expireAt <= now {
        EraseEntry(key, cell.value);
        cell := None;
      }
      LiveUpdate(old(items), items, key, now, cell);
      UpdateSame(LiveItems(old(items), now), key);
    }

    /** Looks a key up, treating an expired entry as missing but leaving it in place. */
    method FindInPlace(key: Str, now: nat) returns (cell: Cell)
      requires Valid()
      ensures cell == Lookup(Live(now), key)
      ensures Live(now) == Update(Live(now), key, cell)
      ensures cell.Some? ==> cell == Lookup(items, key)
      ensures Alive(DeadlineOf(cell), now)
    {
      hide ShardIndex, Shaped, LiveItems;
      cell := Find(key);
      UpdateSame(LiveItems(items, now), key);
      if cell.Some? && cell.value.expireAt != 0 && cell.value.expireAt <= now { cell := None; }
    }

    /** Writes a string over an entry, or creates one. */
    method WriteString(key: Str, cell: Cell, value: Str, expireAt: nat)
      requires Shaped() && cell == Lookup(items, key)
      modifies `shards, `items, `used, `peak
      ensures Shaped() && items == old(items)[key := Item(StringV(value), expireAt)]
      ensures Lookup(items, key) == Some(Item(StringV(value), expireAt))
      ensures old(used <= Total(items)) ==> used <= Total(items)
      ensures old(Exact()) ==> Exact()
      ensures old(used <= peak) ==> used <= peak
    {
      hide ShardIndex, Total, Shaped, LiveItems;
      var item := Item(StringV(value), expireAt);
      if cell.Some? {
        var oldMem := EstimateEntryMemory(key, cell.value.value);
        StoreEntry(key, item);
        var newMem := EstimateEntryMemory(key, item.value);
        Charge(oldMem, newMem);
      } else {
        StoreEntry(key, item);
        AddMemory(112 + |key| + |value|);
      }
      TotalErase(old(items), key);
      TotalPut(old(items), key, item);
    }

    /** Writes the text of a number over a string, or creates one. */
    method WriteNumber(key: Str, cell: Cell, text: Str)
      requires Valid() && cell == Lookup(items, key) && (cell.Some? ==> cell.value.value.StringV?)
      modifies `shards, `items, `used, `peak
      ensures Kept(key) && Lookup(items, key) == Some(Item(StringV(text), DeadlineOf(cell)))
    {
      hide ShardIndex, Total, Shaped, LiveItems, IndexOf, NoEmptyIn;
      if cell.Some? {
        Charge(|cell.value.value.text|, |text|);
        StoreEntry(key, cell.value.(value := StringV(text)));
      } else {
        StoreEntry(key, Item(StringV(text), 0));
        AddMemory(112 + |key| + |text|);
      }
      TotalErase(old(items), key);
      TotalPut(old(items), key, Item(StringV(text), DeadlineOf(cell)));
      IndexedKey(old(items), ttlKeys, key);
      PutKeeps(old(items), ttlKeys, key, Item(StringV(text), DeadlineOf(cell)), ttlKeys);
    }

    /** Puts a new value into an entry, its deadline unchanged, and charges the difference. */
    method WriteValue(key: Str, cell: Cell, value: Value)
      requires Valid() && cell == Lookup(items, key) && !EmptyValue(value)
      modifies `shards, `items, `used, `peak
      ensures Kept(key) && Lookup(items, key) == Some(Item(value, DeadlineOf(cell)))
    {
      hide ShardIndex, Weight, Total, Shaped, LiveItems, IndexOf, NoEmptyIn;
      var oldMem := 0;
      if cell.Some? { oldMem := EstimateEntryMemory(key, cell.value.value); }
      StoreEntry(key, Item(value, DeadlineOf(cell)));
      var newMem := EstimateEntryMemory(key, value);
      Charge(oldMem, newMem);
      TotalErase(old(items), key);
      TotalPut(old(items), key, Item(value, DeadlineOf(cell)));
      IndexedKey(old(items), ttlKeys, key);
      PutKeeps(old(items), ttlKeys, key, Item(value, DeadlineOf(cell)), ttlKeys);
    }

    /** Puts a new value into an entry that may just have been created with the value blank, charging
      only the growth from there. */
    method GrowValue(key: Str, cell: Cell, blank: Value, value: Value)
      requires Valid() && cell == Lookup(items, key) && (cell.Some? ==> cell.value.value == blank)
      requires 0 < Weight(key, blank) <= Weight(key, value)
      modifies `shards, `items, `used, `peak
      ensures Only(key) && Lookup(items, key) == Some(Item(value, DeadlineOf(cell)))
      ensures old(Exact()) ==> (Exact() <==> cell.Some?)
      ensures old(NoEmpty()) && !EmptyValue(value) ==> NoEmpty()
    {
      hide ShardIndex, Weight, Total, Shaped, LiveItems, IndexOf, NoEmptyIn;
      var oldMem := EstimateEntryMemory(key, blank);
      StoreEntry(key, Item(value, DeadlineOf(cell)));
      var newMem := EstimateEntryMemory(key, value);
      if newMem > oldMem { AddMemory(newMem - oldMem); }
      TotalErase(old(items), key);
      TotalPut(old(items), key, Item(value, DeadlineOf(cell)));
      IndexedKey(old(items), ttlKeys, key);
      PutKeeps(old(items), ttlKeys, key, Item(value, DeadlineOf(cell)), ttlKeys);
    }

    /** Puts a smaller value into an entry, or erases the entry when nothing is left in it. */
    method ShrinkValue(key: Str, item: Item, value: Value)
      requires Valid() && Lookup(items, key) == Some(item) && Weight(key, value) <= Weight(key, item.value)
      modifies `shards, `items, `ttlKeys, `used
      ensures Kept(key)
      ensures Lookup(items, key) == if EmptyValue(value) then None else Some(item.(value := value))
    {
      hide ShardIndex, Weight, Total, Shaped, LiveItems, IndexOf, NoEmptyIn;
      var oldMem := EstimateEntryMemory(key, item.value);
      TotalErase(old(items), key);
      if EmptyValue(value) {
        SubMemory(oldMem);
        EraseData(key);
        IndexErase(key);
        EraseKeeps(old(items), old(ttlKeys), key);
      } else {
        StoreEntry(key, item.(value := value));
        var newMem := EstimateEntryMemory(key, value);
        if oldMem > newMem { SubMemory(oldMem - newMem); }
        TotalPut(old(items), key, item.(value := value));
        IndexedKey(old(items), ttlKeys, key);
        PutKeeps(old(items), old(ttlKeys), key, item.(value := value), ttlKeys);
      }
    }

    /** The end of zadd: stores the scores and charges the bytes counted. */
    method WriteScores(key: Str, cell: Cell, scores: map<Str, Score>, addedBytes: nat)
      requires Valid() && cell == Lookup(items, key) && (cell.Some? ==> cell.value.value.ZSetV?)
      requires addedBytes == Weight(key, ZSetV(scores)) - if cell.Some? then Weight(key, cell.value.value) else 0
      modifies `shards, `items, `used, `peak
      ensures Only(key) && Lookup(items, key) == Some(Item(ZSetV(scores), DeadlineOf(cell)))
      ensures old(Exact()) ==> Exact()
      ensures old(NoEmpty()) && scores != map[] ==> NoEmpty()
    {
      hide ShardIndex, Weight, Total, Shaped, LiveItems, IndexOf, NoEmptyIn;
      StoreEntry(key, Item(ZSetV(scores), DeadlineOf(cell)));
      if addedBytes > 0 { AddMemory(addedBytes); }
      TotalErase(old(items), key);
      TotalPut(old(items), key, Item(ZSetV(scores), DeadlineOf(cell)));
      IndexedKey(old(items), ttlKeys, key);
      PutKeeps(old(items), ttlKeys, key, Item(ZSetV(scores), DeadlineOf(cell)), ttlKeys);
    }

    /** The end of zrem: stores what is left, or erases the entry, and releases the bytes counted. */
    method DropScores(key: Str, item: Item, scores: map<Str, Score>, removedBytes: nat)
      requires Valid() && Lookup(items, key) == Some(item) && item.value.ZSetV?
      requires removedBytes == ScoresWeight(item.value.scores) - ScoresWeight(scores)
      modifies `shards, `items, `ttlKeys, `used
      ensures Kept(key)
      ensures Lookup(items, key) == if scores == map[] then None else Some(item.(value := ZSetV(scores)))
    {
      hide ShardIndex, Total, Shaped, LiveItems, IndexOf, NoEmptyIn, ScoresWeight;
      TotalErase(old(items), key);
      if scores == map[] {
        ScoresEmpty();
        SubMemory(112 + |key| + removedBytes);
        EraseData(key);
        IndexErase(key);
        EraseKeeps(old(items), old(ttlKeys), key);
      } else {
        StoreEntry(key, item.(value := ZSetV(scores)));
        if removedBytes > 0 { SubMemory(removedBytes); }
        TotalPut(old(items), key, item.(value := ZSetV(scores)));
        IndexedKey(old(items), ttlKeys, key);
        PutKeeps(old(items), old(ttlKeys), key, item.(value := ZSetV(scores)), ttlKeys);
      }
    }

    // ----- strings

    method SetWithOptions(key: Str, value: Str, now: nat, ttl: nat, keepTtl: bool, nx: bool, xx: bool) returns (reply: Reply)
      requires Valid()
      modifies `shards, `items, `ttlKeys, `used, `peak, `dirty
      ensures Kept(key)
      ensures var e := SetAct(Lookup(old(Live(now)), key), now, value, ttl, keepTtl, nx, xx);
              reply == e.reply && Live(now) == Update(old(Live(now)), key, e.cell)
      ensures dirty == old(dirty) + if reply.Applied? then 1 else 0
    {
      hide ShardIndex, Total, Shaped, LiveItems, IndexOf, NoEmptyIn, Weight, Update, Members, Added, Overlay;
      var cell := FindAlive(key, now);
      if (nx && cell.Some?) || (xx && cell.None?) {
        return NotApplied;
      }
      var expireAt := 0;
      if ttl != 0 {
        expireAt := now + ttl;
      } else if keepTtl && cell.Some? {
        expireAt := cell.value.expireAt;
      }
      var hadTtl := cell.Some? && cell.value.expireAt != 0;
      ghost var before, beforeTtl := items, ttlKeys;
      WriteString(key, cell, value, expireAt);
      if expireAt != 0 {
        IndexInsert(key);
      } else if hadTtl {
        IndexErase(key);
      }
      IndexedKey(before, beforeTtl, key);
      PutKeeps(before, beforeTtl, key, Item(StringV(value), expireAt), ttlKeys);
      LiveUpdate(old(items), items, key, now, Some(Item(StringV(value), expireAt)));
      dirty := dirty + 1;
      reply := Applied;
    }

    method Setex(key: Str, now: nat, ttl: nat, value: Str) returns (reply: Reply)
      requires Valid() && ttl > 0
      modifies `shards, `items, `ttlKeys, `used, `peak, `dirty
      ensures Kept(key)
      ensures var e := SetexAct(now, ttl, value);
              reply == e.reply && Live(now) == Update(old(Live(now)), key, e.cell)
      ensures dirty == old(dirty) + 1
    {
      hide ShardIndex, Total, Shaped, LiveItems, IndexOf, NoEmptyIn, Weight, Update, Members, Added, Overlay;
      var expireAt := now + ttl;
      var cell := Find(key);
      WriteString(key, cell, value, expireAt);
      IndexInsert(key);
      PutKeeps(old(items), old(ttlKeys), key, Item(StringV(value), expireAt), ttlKeys);
      LiveUpdate(old(items), items, key, now, Some(Item(StringV(value), expireAt)));
      dirty := dirty + 1;
      reply := Applied;
    }

    method Get(key: Str, now: nat) returns (reply: Reply)
      requires Valid()
      modifies `shards, `items, `ttlKeys, `used
      ensures Kept(key) && Live(now) == old(Live(now)) && Collected(key, now)
      ensures reply == GetAct(Lookup(old(Live(now)), key)).reply
    {
      hide ShardIndex, Total, Shaped, LiveItems, IndexOf, NoEmptyIn, Weight, Lookup, Update, Alive, Members, Added,
        Overlay;
      var cell := FindAlive(key, now);
      if cell.None? { return NotFound; }
      if !cell.value.value.StringV? { return WrongType; }
      reply := Got(cell.value.value.text);
    }

    /** modify_int, for incrby and decrby. */
    method ModifyInt(key: Str, now: nat, delta: int, isDecrement: bool) returns (reply: Reply)
      requires Valid() && IsInt64(delta)
      modifies `shards, `items, `ttlKeys, `used, `peak, `dirty
      ensures Kept(key)
      ensures var e := IncrAct(Lookup(old(Live(now)), key), if isDecrement then -delta else delta);
              reply == e.reply && Live(now) == Update(old(Live(now)), key, e.cell)
      ensures dirty == old(dirty) + if reply.Number? then 1 else 0
    {
      hide ShardIndex, Total, Shaped, LiveItems, IndexOf, NoEmptyIn, Weight, Lookup, Update, Alive, Members, Added,
        Overlay, SignedDigits, FromChars, ParseInt64, ParseHashInteger;
      var cell := FindAlive(key, now);
      var current := 0;
      if cell.Some? {
        if !cell.value.value.StringV? { return WrongType; }
        var parsed := ParseInt64(cell.value.value.text);
        if parsed.None? { return NotAnInteger; }
        current := parsed.value;
      }
      var sum := if isDecrement then SubInt64(current, delta) else AddInt64(current, delta);
      if sum.None? { return Overflow; }
      var text := SignedDigits(sum.value);
      WriteNumber(key, cell, text);
      LiveUpdate(old(items), items, key, now, Some(Item(StringV(text), DeadlineOf(cell))));
      dirty := dirty + 1;
      reply := Number(sum.value);
    }

    // ----- hashes

    method Hset(key: Str, fields: seq<(Str, Str)>, now: nat) returns (reply: Reply)
      requires Valid()
      modifies `shards, `items, `ttlKeys, `used, `peak, `dirty
      ensures Kept(key)
      ensures var e := HsetAct(Lookup(old(Live(now)), key), fields);
              reply == e.reply && Live(now) == Update(old(Live(now)), key, e.cell)
      ensures dirty == old(dirty) + if reply.Count? then |fields| else 0
    {
      hide ShardIndex, Total, Shaped, LiveItems, IndexOf, NoEmptyIn, Weight, Lookup, Update, Alive, Members, Added,
        Overlay;
      if fields == [] {
        UpdateSame(LiveItems(items, now), key);
        return Count(0);
      }
      var cell := FindAlive(key, now);
      if cell.Some? && !cell.value.value.HashV? { return WrongType; }
      var hash, added := PutAll(HashOf(cell), fields);
      assert fields[0].0 in hash;
      WriteValue(key, cell, HashV(hash));
      LiveUpdate(old(items), items, key, now, Some(Item(HashV(hash), DeadlineOf(cell))));
      dirty := dirty + |fields|;
      reply := Count(added);
    }

    /** On an absent key the entry's base cost is never charged. */
    method Hsetnx(key: Str, field: Str, value: Str, now: nat) returns (reply: Reply)
      requires Valid()
      modifies `shards, `items, `ttlKeys, `used, `peak, `dirty
      ensures Only(key) && (old(NoEmpty()) ==> NoEmpty())
      ensures old(Exact()) ==> (Exact() <==> key in old(Live(now)))
      ensures var e := HsetnxAct(Lookup(old(Live(now)), key), field, value);
              reply == e.reply && Live(now) == Update(old(Live(now)), key, e.cell)
      ensures dirty == old(dirty) + if reply.Count? then reply.count else 0
    {
      hide ShardIndex, Total, Shaped, LiveItems, IndexOf, NoEmptyIn, Weight, Lookup, Update, Alive, Members, Added,
        Overlay;
      var cell := FindAlive(key, now);
      if cell.Some? && !cell.value.value.HashV? { return WrongType; }
      var hash := HashOf(cell);
      if field in hash { return Count(0); }
      HashGrows(key, hash, field, value);
      assert field in hash[field := value];
      GrowValue(key, cell, HashV(hash), HashV(hash[field := value]));
      LiveUpdate(old(items), items, key, now, Some(Item(HashV(hash[field := value]), DeadlineOf(cell))));
      dirty := dirty + 1;
      reply := Count(1);
    }

    method Hincrby(key: Str, field: Str, delta: int, now: nat) returns (reply: Reply)
      requires Valid() && IsInt64(delta)
      modifies `shards, `items, `ttlKeys, `used, `peak, `dirty
      ensures Kept(key)
      ensures var e := HincrbyAct(Lookup(old(Live(now)), key), field, delta);
              reply == e.reply && Live(now) == Update(old(Live(now)), key, e.cell)
      ensures dirty == old(dirty) + if reply.Number? then 1 else 0
    {
      hide ShardIndex, Total, Shaped, LiveItems, IndexOf, NoEmptyIn, Weight, Lookup, Update, Alive, Members, Added,
        Overlay, SignedDigits, FromChars, ParseInt64, ParseHashInteger;
      var cell := FindAlive(key, now);
      var current := 0;
      if cell.Some? {
        if !cell.value.value.HashV? { return WrongType; }
        if field in cell.value.value.fields {
          var parsed := ParseHashInteger(cell.value.value.fields[field]);
          if parsed.None? { return NotAnInteger; }
          current := parsed.value;
        }
      }
      var sum := AddInt64(current, delta);
      if sum.None? { return Overflow; }
      var hash := HashOf(cell)[field := SignedDigits(sum.value)];
      assert field in hash;
      WriteValue(key, cell, HashV(hash));
      LiveUpdate(old(items), items, key, now, Some(Item(HashV(hash), DeadlineOf(cell))));
      dirty := dirty + 1;
      reply := Number(sum.value);
    }

    method Hdel(key: Str, fields: seq<Str>, now: nat) returns (reply: Reply)
      requires Valid()
      modifies `shards, `items, `ttlKeys, `used, `dirty
      ensures Kept(key)
      ensures var e := HdelAct(Lookup(old(Live(now)), key), fields);
              reply == e.reply && Live(now) == Update(old(Live(now)), key, e.cell)
      ensures dirty == old(dirty) + if reply.Count? then reply.count else 0
    {
      hide ShardIndex, Total, Shaped, LiveItems, IndexOf, NoEmptyIn, Weight, Lookup, Update, Alive, Members, Added,
        Overlay;
      var cell := FindAlive(key, now);
      if cell.None? { return NotFound; }
      if !cell.value.value.HashV? { return WrongType; }
      var hash, removed := RemoveFields(key, cell.value.value.fields, fields);
      ShrinkValue(key, cell.value, HashV(hash));
      LiveUpdate(old(items), items, key, now, if hash == map[] then None else Some(cell.value.(value := HashV(hash))));
      dirty := dirty + removed;
      reply := Count(removed);
    }

    // ----- sets and sorted sets

    /** On an absent key the entry's base cost is never charged; without values it stores an empty
        set. */
    method Sadd(key: Str, values: seq<Str>, now: nat) returns (reply: Reply)
      requires Valid()
      modifies `shards, `items, `ttlKeys, `used, `peak, `dirty
      ensures Only(key) && (old(NoEmpty()) && values != [] ==> NoEmpty())
      ensures old(Exact()) ==> (Exact() <==> key in old(Live(now)))
      ensures var e := SaddAct(Lookup(old(Live(now)), key), values);
              reply == e.reply && Live(now) == Update(old(Live(now)), key, e.cell)
      ensures dirty == old(dirty) + if reply.Count? then reply.count else 0
    {
      hide ShardIndex, Total, Shaped, LiveItems, IndexOf, NoEmptyIn, Weight, Lookup, Update, Alive, Members, Added,
        Overlay;
      var cell := FindAlive(key, now);
      if cell.Some? && !cell.value.value.SetV? { return WrongType; }
      var members, added := AddMembers(key, SetOf(cell), values);
      GrowValue(key, cell, SetV(SetOf(cell)), SetV(members));
      LiveUpdate(old(items), items, key, now, Some(Item(SetV(members), DeadlineOf(cell))));
      dirty := dirty + added;
      reply := Count(added);
    }

    /** An expired set is reported missing but left in place. */
    method Srem(key: Str, values: seq<Str>, now: nat) returns (reply: Reply)
      requires Valid()
      modifies `shards, `items, `ttlKeys, `used, `dirty
      ensures Kept(key)
      ensures var e := SremAct(Lookup(old(Live(now)), key), values);
              reply == e.reply && Live(now) == Update(old(Live(now)), key, e.cell)
      ensures dirty == old(dirty) + if reply.Count? then reply.count else 0
    {
      hide ShardIndex, Total, Shaped, LiveItems, IndexOf, NoEmptyIn, Weight, Lookup, Update, Alive, Members, Added,
        Overlay;
      var cell := FindInPlace(key, now);
      if cell.None? { return NotFound; }
      if !cell.value.value.SetV? { return WrongType; }
      var members, removed := RemoveMembers(key, cell.value.value.members, values);
      ShrinkValue(key, cell.value, SetV(members));
      LiveUpdate(old(items), items, key, now, if members == {} then None else Some(cell.value.(value := SetV(members))));
      dirty := dirty + removed;
      reply := Count(removed);
    }

    /** Without values on an absent key it stores an empty sorted set. */
    method Zadd(key: Str, values: seq<(Str, Score)>, now: nat) returns (reply: Reply)
      requires Valid()
      modifies `shards, `items, `ttlKeys, `used, `peak, `dirty
      ensures Only(key) && (old(Exact()) ==> Exact()) && (old(NoEmpty()) && values != [] ==> NoEmpty())
      ensures var e := ZaddAct(Lookup(old(Live(now)), key), values);
              reply == e.reply && Live(now) == Update(old(Live(now)), key, e.cell)
      ensures dirty == old(dirty) + if reply.Count? then reply.count else 0
    {
      hide ShardIndex, Total, Shaped, LiveItems, IndexOf, NoEmptyIn, ScoresWeight, Lookup, Update, Alive, Members,
        Added, Overlay;
      var cell := FindAlive(key, now);
      if cell.Some? && !cell.value.value.ZSetV? { return WrongType; }
      var scores, added, addedBytes := PutScores(ZSetOf(cell), values);
      if cell.None? { addedBytes := addedBytes + 112 + |key|; }
      assert values != [] ==> values[0].0 in scores;
      ScoresEmpty();
      WriteScores(key, cell, scores, addedBytes);
      LiveUpdate(old(items), items, key, now, Some(Item(ZSetV(scores), DeadlineOf(cell))));
      dirty := dirty + added;
      reply := Count(added);
    }

    /** An expired sorted set is reported missing but left in place. */
    method Zrem(key: Str, values: seq<Str>, now: nat) returns (reply: Reply)
      requires Valid()
      modifies `shards, `items, `ttlKeys, `used, `dirty
      ensures Kept(key)
      ensures var e := ZremAct(Lookup(old(Live(now)), key), values);
              reply == e.reply && Live(now) == Update(old(Live(now)), key, e.cell)
      ensures dirty == old(dirty) + if reply.Count? then reply.count else 0
    {
      hide ShardIndex, Total, Shaped, LiveItems, IndexOf, NoEmptyIn, Weight, Lookup, Update, Alive, Members, Added,
        Overlay;
      var cell := FindInPlace(key, now);
      if cell.None? { return NotFound; }
      if !cell.value.value.ZSetV? { return WrongType; }
      var scores, removed, removedBytes := RemoveScores(cell.value.value.scores, values);
      DropScores(key, cell.value, scores, removedBytes);
      LiveUpdate(old(items), items, key, now, if scores == map[] then None else Some(cell.value.(value := ZSetV(scores))));
      dirty := dirty + removed;
      reply := Count(removed);
    }

    // ----- lists

    /** The end of a push: stores the list and charges the bytes counted. */
    method WriteList(key: Str, cell: Cell, list: seq<Str>, addedBytes: nat)
      requires Valid() && cell == Lookup(items, key) && (cell.Some? ==> cell.value.value.ListV?) && list != []
      requires Sizes(list) == Sizes(ListOf(cell)) + addedBytes
      modifies `shards, `items, `used, `peak
      ensures Kept(key) && Lookup(items, key) == Some(Item(ListV(list), DeadlineOf(cell)))
    {
      hide ShardIndex, Total, Shaped, LiveItems, IndexOf, NoEmptyIn;
      var item := Item(ListV(list), DeadlineOf(cell));
      StoreEntry(key, item);
      if cell.Some? { AddMemory(addedBytes); } else { AddMemory(112 + |key| + addedBytes); }
      TotalErase(old(items), key);
      TotalPut(old(items), key, item);
      IndexedKey(old(items), ttlKeys, key);
      PutKeeps(old(items), ttlKeys, key, item, ttlKeys);
    }

    /** lpush, or rpush when left is false, up to the release of the shard lock. */
    method Push(key: Str, values: seq<Str>, left: bool, now: nat) returns (reply: Reply)
      requires Valid()
      modifies `shards, `items, `ttlKeys, `used, `peak, `dirty
      ensures Kept(key)
      ensures var e := PushAct(Lookup(old(Live(now)), key), values, left);
              reply == e.reply && Live(now) == Update(old(Live(now)), key, e.cell)
      ensures dirty == old(dirty) + if reply.Count? then |values| else 0
    {
      hide ShardIndex, Total, Shaped, LiveItems, IndexOf, NoEmptyIn, Weight, Lookup, Update, Alive, Reversed, Sizes;
      if values == [] {
        UpdateSame(LiveItems(items, now), key);
        return Count(0);
      }
      var cell := FindAlive(key, now);
      var addedBytes := EstimateElements(values);
      if cell.Some? && !cell.value.value.ListV? { return WrongType; }
      var list;
      if left { list := PushFront(ListOf(cell), values); } else { list := PushBack(ListOf(cell), values); }
      WriteList(key, cell, list, addedBytes);
      LiveUpdate(old(items), items, key, now, Some(Item(ListV(list), DeadlineOf(cell))));
      dirty := dirty + |values|;
      reply := Count(|list|);
    }

    /** The end of a pop: releases the bytes counted and stores what is left, or erases the entry. */
    method DropElements(key: Str, item: Item, rest: seq<Str>, poppedBytes: nat)
      requires Valid() && Lookup(items, key) == Some(item) && item.value.ListV?
      requires poppedBytes == Sizes(item.value.elements) - Sizes(rest)
      modifies `shards, `items, `ttlKeys, `used
      ensures Kept(key)
      ensures Lookup(items, key) == if rest == [] then None else Some(item.(value := ListV(rest)))
    {
      hide ShardIndex, Total, Shaped, LiveItems, IndexOf, NoEmptyIn;
      TotalErase(old(items), key);
      SubMemory(poppedBytes);
      if rest == [] {
        SubMemory(112 + |key|);
        EraseData(key);
        IndexErase(key);
        EraseKeeps(old(items), old(ttlKeys), key);
      } else {
        StoreEntry(key, item.(value := ListV(rest)));
        TotalPut(old(items), key, item.(value := ListV(rest)));
        IndexedKey(old(items), ttlKeys, key);
        PutKeeps(old(items), old(ttlKeys), key, item.(value := ListV(rest)), ttlKeys);
      }
    }

    /** lpop, or rpop when left is false. */
    method Pop(key: Str, count: nat, left: bool, now: nat) returns (reply: Reply)
      requires Valid()
      modifies `shards, `items, `ttlKeys, `used, `dirty
      ensures Kept(key)
      ensures var e := PopAct(Lookup(old(Live(now)), key), count, left);
              reply == e.reply && Live(now) == Update(old(Live(now)), key, e.cell)
      ensures dirty == old(dirty) + if reply.Popped? then |reply.popped| else 0
    {
      hide ShardIndex, Total, Shaped, LiveItems, IndexOf, NoEmptyIn, Weight, Lookup, Update, Alive, Reversed, Sizes;
      var cell := FindAlive(key, now);
      if cell.None? { return NotFound; }
      if !cell.value.value.ListV? { return WrongType; }
      var list := cell.value.value.elements;
      if list == [] {
        DropElements(key, cell.value, [], 0);
        LiveUpdate(old(items), items, key, now, None);
        return NotFound;
      }
      var toPop := Min(count, |list|);
      var rest, popped, poppedBytes;
      if left {
        rest, popped, poppedBytes := PopFront(list, toPop);
      } else {
        rest, popped, poppedBytes := PopBack(list, toPop);
      }
      DropElements(key, cell.value, rest, poppedBytes);
      LiveUpdate(old(items), items, key, now, if rest == [] then None else Some(cell.value.(value := ListV(rest))));
      dirty := dirty + |popped|;
      reply := Popped(popped);
    }

    // ----- deadlines

    /** Gives an entry a new deadline. */
    method SetDeadline(key: Str, item: Item, expireAt: nat)
      requires Valid() && Lookup(items, key) == Some(item) && expireAt > 0
      modifies `shards, `items, `ttlKeys
      ensures Kept(key) && Lookup(items, key) == Some(item.(expireAt := expireAt))
    {
      hide ShardIndex, Weight, Total, Shaped, LiveItems, IndexOf, NoEmptyIn;
      StoreEntry(key, item.(expireAt := expireAt));
      IndexInsert(key);
      TotalErase(old(items), key);
      TotalPut(old(items), key, item.(expireAt := expireAt));
      NotEmptyAt(old(items), key);
      PutKeeps(old(items), old(ttlKeys), key, item.(expireAt := expireAt), ttlKeys);
    }

    /** Erases an entry on request. */
    method Remove(key: Str, item: Item, now: nat)
      requires Valid() && Lookup(items, key) == Some(item)
      modifies `shards, `items, `ttlKeys, `used, `dirty
      ensures Kept(key) && Lookup(items, key) == None
      ensures Live(now) == Update(old(Live(now)), key, None) && dirty == old(dirty) + 1
    {
      hide ShardIndex, Weight, Total, Shaped, LiveItems, IndexOf, NoEmptyIn;
      EraseEntry(key, item);
      LiveUpdate(old(items), items, key, now, None);
      dirty := dirty + 1;
    }

    method Expire(key: Str, ttl: nat, clock: Clock) returns (reply: Reply)
      requires Valid()
      modifies `shards, `items, `ttlKeys, `used, `dirty
      ensures Kept(key)
      ensures var e := ExpireAct(Lookup(old(Live(clock.now)), key), clock, ttl);
              reply == e.reply && Live(clock.now) == Update(old(Live(clock.now)), key, e.cell)
      ensures dirty == old(dirty) + if reply.Expiry? then reply.changed else 0
    {
      hide ShardIndex, Total, Shaped, LiveItems, IndexOf, NoEmptyIn, Weight, Lookup, Update;
      var cell := FindAlive(key, clock.now);
      if cell.None? { return Expiry(0, 0); }
      if ttl == 0 {
        Remove(key, cell.value, clock.now);
        return Expiry(1, 0);
      }
      SetDeadline(key, cell.value, clock.now + ttl);
      LiveUpdate(old(items), items, key, clock.now, Some(cell.value.(expireAt := clock.now + ttl)));
      dirty := dirty + 1;
      reply := Expiry(1, clock.wall + ttl);
    }

    method ExpireAt(key: Str, epoch: nat, clock: Clock) returns (reply: Reply)
      requires Valid()
      modifies `shards, `items, `ttlKeys, `used, `dirty
      ensures Kept(key)
      ensures var e := ExpireAtAct(Lookup(old(Live(clock.now)), key), clock, epoch);
              reply == e.reply && Live(clock.now) == Update(old(Live(clock.now)), key, e.cell)
      ensures dirty == old(dirty) + if reply.Count? then reply.count else 0
    {
      hide ShardIndex, Total, Shaped, LiveItems, IndexOf, NoEmptyIn, Weight, Lookup, Update;
      var cell := FindAlive(key, clock.now);
      if cell.None? { return Count(0); }
      if epoch <= clock.wall {
        Remove(key, cell.value, clock.now);
        return Count(1);
      }
      var expireAt := clock.now + (epoch - clock.wall);
      SetDeadline(key, cell.value, expireAt);
      LiveUpdate(old(items), items, key, clock.now, Some(cell.value.(expireAt := expireAt)));
      dirty := dirty + 1;
      reply := Count(1);
    }

    method Ttl(key: Str, now: nat, milliseconds: bool) returns (reply: Reply)
      requires Valid()
      modifies `shards, `items, `ttlKeys, `used
      ensures Kept(key) && Live(now) == old(Live(now)) && Collected(key, now)
      ensures reply == TtlAct(Lookup(old(Live(now)), key), now, milliseconds).reply
    {
      hide ShardIndex, Total, Shaped, LiveItems, IndexOf, NoEmptyIn, Weight, Update;
      var cell := FindAlive(key, now);
      if cell.None? { return Number(-2); }
      if cell.value.expireAt == 0 { return Number(-1); }
      var diff := cell.value.expireAt - now;
      reply := Number(if milliseconds then diff else (diff + 999) / 1000);
    }

    method Persist(key: Str, now: nat) returns (reply: Reply)
      requires Valid()
      modifies `shards, `items, `ttlKeys, `used, `dirty
      ensures Kept(key)
      ensures var e := PersistAct(Lookup(old(Live(now)), key));
              reply == e.reply && Live(now) == Update(old(Live(now)), key, e.cell)
      ensures dirty == old(dirty) + if reply.Count? then reply.count else 0
    {
      hide ShardIndex, Total, Shaped, LiveItems, IndexOf, NoEmptyIn, Weight, Lookup, Update;
      var cell := FindAlive(key, now);
      if cell.None? || cell.value.expireAt == 0 { return Count(0); }
      ClearDeadline(key, cell.value);
      LiveUpdate(old(items), items, key, now, Some(cell.value.(expireAt := 0)));
      dirty := dirty + 1;
      reply := Count(1);
    }

    method ClearDeadline(key: Str, item: Item)
      requires Valid() && Lookup(items, key) == Some(item)
      modifies `shards, `items, `ttlKeys
      ensures Kept(key) && Lookup(items, key) == Some(item.(expireAt := 0))
    {
      hide ShardIndex, Weight, Total, Shaped, LiveItems, IndexOf, NoEmptyIn;
      StoreEntry(key, item.(expireAt := 0));
      IndexErase(key);
      TotalErase(old(items), key);
      TotalPut(old(items), key, item.(expireAt := 0));
      NotEmptyAt(old(items), key);
      PutKeeps(old(items), old(ttlKeys), key, item.(expireAt := 0), ttlKeys);
    }

    // ----- several keys

    /** What operations on several keys keep. */
    twostate predicate KeptAll()
      reads this
    {
      Valid() && (old(Exact()) ==> Exact()) && (old(NoEmpty()) ==> NoEmpty())
    }

    method Mset(pairs: seq<(Str, Str)>, now: nat) returns (reply: Reply)
      requires Valid()
      modifies `shards, `items, `ttlKeys, `used, `peak, `dirty
      ensures KeptAll() && reply == Applied
      ensures Live(now) == MsetDb(old(Live(now)), pairs)
      ensures dirty == old(dirty) + |pairs|
    {
      hide ShardIndex, Total, Shaped, LiveItems, IndexOf, NoEmptyIn, Weight;
      for i := 0 to |pairs|
        invariant KeptAll() && dirty == old(dirty)
        invariant Live(now) == MsetDb(old(Live(now)), pairs[..i])
      {
        assert pairs[..i + 1][..i] == pairs[..i];
        ghost var before, beforeTtl := items, ttlKeys;
        var key := pairs[i].0;
        var cell := Find(key);
        WriteString(key, cell, pairs[i].1, 0);
        IndexErase(key);
        PutKeeps(before, beforeTtl, key, Item(StringV(pairs[i].1), 0), ttlKeys);
        LiveUpdate(before, items, key, now, Some(Item(StringV(pairs[i].1), 0)));
      }
      assert pairs[..|pairs|] == pairs;
      dirty := dirty + |pairs|;
      reply := Applied;
    }

    /** Erases the keys that are still present and expired. */
    method EraseExpired(keys: seq<Str>, now: nat)
      requires Valid()
      modifies `shards, `items, `ttlKeys, `used
      ensures KeptAll() && Live(now) == old(Live(now))
      ensures items.Keys <= old(items).Keys && forall k :: k in keys ==> Collected(k, now)
    {
      hide ShardIndex, Total, Shaped, LiveItems, IndexOf, NoEmptyIn, Weight, Lookup, Update, Alive;
      for i := 0 to |keys|
        invariant KeptAll() && Live(now) == old(Live(now)) && items.Keys <= old(items).Keys
        invariant forall j :: 0 <= j < i ==> Collected(keys[j], now)
      {
        ghost var before := items;
        var _ := FindAlive(keys[i], now);
        OnlyFewer(before, items, keys[i]);
      }
    }

    method Mget(keys: seq<Str>, now: nat) returns (reply: Reply)
      requires Valid()
      modifies `shards, `items, `ttlKeys, `used
      ensures KeptAll() && Live(now) == old(Live(now))
      ensures reply == Reply.Values(MgetReply(old(Live(now)), keys)) && forall k :: k in keys ==> Collected(k, now)
    {
      hide ShardIndex, Total, Shaped, IndexOf, NoEmptyIn, Weight;
      var result, expired := [], [];
      for i := 0 to |keys|
        invariant unchanged(this) && |result| == i
        invariant result == MgetReply(Live(now), keys)[..i]
        invariant forall j :: 0 <= j < i ==> Collected(keys[j], now) || keys[j] in expired
      {
        var cell := Find(keys[i]);
        if cell.None? {
          result := result + [None];
        } else if cell.value.expireAt != 0 && cell.value.expireAt <= now {
          result := result + [None];
          expired := expired + [keys[i]];
        } else if !cell.value.value.StringV? {
          result := result + [None];
        } else {
          result := result + [Some(cell.value.value.text)];
        }
      }
      EraseExpired(expired, now);
      reply := Reply.Values(result);
    }

    method Exists(keys: seq<Str>, now: nat) returns (reply: Reply)
      requires Valid()
      modifies `shards, `items, `ttlKeys, `used
      ensures KeptAll() && Live(now) == old(Live(now))
      ensures reply == Count(ExistsCount(old(Live(now)), keys)) && forall k :: k in keys ==> Collected(k, now)
    {
      hide ShardIndex, Total, Shaped, IndexOf, NoEmptyIn, Weight;
      var count, expired := 0, [];
      for i := 0 to |keys|
        invariant unchanged(this) && count == ExistsCount(Live(now), keys[..i])
        invariant forall j :: 0 <= j < i ==> Collected(keys[j], now) || keys[j] in expired
      {
        assert keys[..i + 1][..i] == keys[..i];
        var cell := Find(keys[i]);
        if cell.Some? {
          if cell.value.expireAt != 0 && cell.value.expireAt <= now {
            expired := expired + [keys[i]];
          } else {
            count := count + 1;
          }
        }
      }
      assert keys[..|keys|] == keys;
      EraseExpired(expired, now);
      reply := Count(count);
    }

    /** Erases a key, and tells whether it was live. */
    method EraseIfPresent(key: Str, now: nat) returns (isActive: bool)
      requires Valid()
      modifies `shards, `items, `ttlKeys, `used
      ensures KeptAll() && (isActive <==> key in old(Live(now)))
      ensures Live(now) == if isActive then old(Live(now)) - {key} else old(Live(now))
    {
      hide ShardIndex, Total, Shaped, LiveItems, IndexOf, NoEmptyIn, Weight;
      var cell := Find(key);
      isActive := false;
      UpdateSame(LiveItems(items, now), key);
      if cell.Some? {
        isActive := cell.value.expireAt == 0 || cell.value.expireAt > now;
        EraseEntry(key, cell.value);
        LiveUpdate(old(items), items, key, now, None);
      }
    }

    /** Counts each live key once, however often it is named. */
    method Del(keys: seq<Str>, now: nat) returns (reply: Reply)
      requires Valid()
      modifies `shards, `items, `ttlKeys, `used, `dirty
      ensures KeptAll()
      ensures Live(now) == DelDb(old(Live(now)), keys)
      ensures reply == Count(DelCount(old(Live(now)), keys))
      ensures dirty == old(dirty) + reply.count
    {
      hide ShardIndex, Total, Shaped, LiveItems, IndexOf, NoEmptyIn, Weight, DelDb, DelCount;
      ghost var db := Live(now);
      var count := 0;
      DelNothing(db);
      for i := 0 to |keys|
        invariant KeptAll() && dirty == old(dirty)
        invariant Live(now) == DelDb(db, keys[..i]) && count == DelCount(db, keys[..i])
      {
        DelStep(db, keys, i);
        var isActive := EraseIfPresent(keys[i], now);
        if isActive { count := count + 1; }
      }
      assert keys[..|keys|] == keys;
      if count > 0 { dirty := dirty + count; }
      reply := Count(count);
    }

    method Flushdb() returns (reply: Reply)
      requires Valid()
      modifies `shards, `items, `ttlKeys, `used, `dirty
      ensures Valid() && Exact() && NoEmpty() && items == map[]
      ensures reply == Applied && dirty == old(dirty) + 1
    {
      hide ShardIndex, Weight;
      for i := 0 to NUM_SHARDS
        invariant |shards| == NUM_SHARDS && dirty == old(dirty)
        invariant forall j :: 0 <= j < i ==> shards[j] == Shard(map[], {})
      {
        shards := shards[i := Shard(map[], {})];
      }
      items, ttlKeys := map[], {};
      used := 0;
      dirty := dirty + 1;
      reply := Applied;
    }

    // ----- walks over all shards

    /** All stored keys, shard by shard, in the order the shards' tables happen to have. */
    method StoredKeys() returns (keys: seq<Str>)
      requires Shaped()
      ensures NoDuplicates(keys) && forall k :: k in keys <==> k in items
    {
      hide ShardIndex;
      var tables := shards;
      keys := Enumerate(seq(|tables|, i requires 0 <= i < |tables| => tables[i].data.Keys));
    }

    /** All keys of the TTL index, shard by shard. */
    method IndexedKeys() returns (keys: seq<Str>)
      requires Shaped()
      ensures NoDuplicates(keys) && forall k :: k in keys <==> k in ttlKeys
    {
      hide ShardIndex;
      var tables := shards;
      keys := Enumerate(seq(|tables|, i requires 0 <= i < |tables| => tables[i].keysWithTtl));
    }

    method Size(now: nat) returns (count: nat)
      requires Valid()
      ensures count == |Live(now)|
    {
      hide ShardIndex, Shaped, IndexOf, Total, LiveItems;
      var keys := StoredKeys();
      count := 0;
      ghost var live, seen: set<Str> := Live(now), {};
      for i := 0 to |keys|
        invariant (forall k :: k in seen <==> k in keys[..i] && k in live) && count == |seen|
      {
        assert keys[..i + 1] == keys[..i] + [keys[i]];
        var cell := Find(keys[i]);
        if cell.value.expireAt == 0 || cell.value.expireAt > now {
          assert keys[i] !in keys[..i];
          count := count + 1;
          seen := seen + {keys[i]};
        }
      }
      assert seen == Live(now).Keys;
    }

    method ExpiresSize(now: nat) returns (count: nat)
      requires Valid()
      ensures count == |set k | k in Live(now) && Live(now)[k].expireAt != 0|
    {
      hide ShardIndex, Shaped, Total, LiveItems;
      var keys := IndexedKeys();
      count := 0;
      ghost var live, seen: set<Str> := Live(now), {};
      for i := 0 to |keys|
        invariant (forall k :: k in seen <==> k in keys[..i] && k in live) && count == |seen|
      {
        assert keys[..i + 1] == keys[..i] + [keys[i]];
        var cell := Find(keys[i]);
        if cell.Some? && (cell.value.expireAt == 0 || cell.value.expireAt > now) {
          assert keys[i] !in keys[..i];
          count := count + 1;
          seen := seen + {keys[i]};
        }
      }
      assert seen == (set k | k in Live(now) && Live(now)[k].expireAt != 0);
    }

    /** keys: for every pattern, the live keys its route accepts; these are the keys the documented
        meaning of the pattern accepts unless a key holds a star and the general path is taken. */
    method Keys(pattern: Str, now: nat) returns (result: seq<Str>)
      requires Valid()
      ensures NoDuplicates(result)
      ensures forall k :: k in result ==> k in Live(now) && Glob.Accepts(pattern, k)
      ensures forall k :: k in Live(now) && Glob.Accepts(pattern, k)
                && (Glob.RouteOf(pattern).General? ==> Glob.STAR !in k || Glob.STAR !in pattern)
                ==> k in result
    {
      hide ShardIndex, Shaped, Total, IndexOf, Glob.Accepts, Glob.RouteAccepts, Glob.RouteOf;
      var route := Glob.RouteOf(pattern);
      if route.Exact? {
        result := ExactKey(pattern, now);
      } else {
        var keys := StoredKeys();
        result := [];
        for i := 0 to |keys|
          invariant NoDuplicates(result)
          invariant forall k :: k in result <==> k in keys[..i] && k in Live(now) && Glob.RouteAccepts(pattern, k)
        {
          var cell := Find(keys[i]);
          if cell.value.expireAt == 0 || cell.value.expireAt > now {
            var matched := Glob.MatchRoute(pattern, keys[i]);
            if matched {
              assert keys[i] !in keys[..i];
              result := result + [keys[i]];
            }
          }
        }
        assert keys[..|keys|] == keys;
      }
      forall k | k in Live(now)
        ensures k in result ==> Glob.Accepts(pattern, k)
        ensures (route.General? ==> Glob.STAR !in k || Glob.STAR !in pattern) && Glob.Accepts(pattern, k) ==> k in result
      {
        if k in result { Glob.RouteSound(pattern, k); }
        if route.General? ==> Glob.STAR !in k || Glob.STAR !in pattern { Glob.RouteIsGlob(pattern, k); }
      }
    }

    /** A pattern without wildcards is looked up. */
    method ExactKey(pattern: Str, now: nat) returns (result: seq<Str>)
      requires Valid() && Glob.RouteOf(pattern).Exact?
      ensures NoDuplicates(result)
      ensures forall k :: k in result <==> k in Live(now) && Glob.RouteAccepts(pattern, k)
    {
      hide ShardIndex, Shaped, Total, IndexOf, Glob.RouteOf;
      result := [];
      var cell := Find(pattern);
      if cell.Some? && (cell.value.expireAt == 0 || cell.value.expireAt > now) { result := [pattern]; }
    }

    method ShardData(shard: nat) returns (data: Db)
      requires Shaped() && shard < NUM_SHARDS
      ensures data == shards[shard].data
    {
      data := shards[shard].data;
    }

    // ----- active expiry

    ghost function IndexShare(shard: nat): set<Str>
      reads `ttlKeys
    {
      set k | k in ttlKeys && ShardIndex(k) == shard
    }

    /** Erases a key of the TTL index if its deadline has passed. */
    method SweepKey(key: Str, now: nat)
      requires Valid() && key in ttlKeys
      modifies `shards, `items, `ttlKeys, `used
      ensures KeptAll() && Live(now) == old(Live(now)) && items.Keys <= old(items).Keys
      ensures forall k :: k != key ==> (k in items <==> k in old(items)) && (k in ttlKeys <==> k in old(ttlKeys))
      ensures key in items ==> key in Live(now)
    {
      hide ShardIndex, Total, Weight, LiveItems, NoEmptyIn, Shaped, IndexOf;
      IndexedKey(items, ttlKeys, key);
      var cell := Find(key);
      UpdateSame(LiveItems(items, now), key);
      if cell.value.expireAt != 0 && cell.value.expireAt <= now {
        EraseEntry(key, cell.value);
        LiveUpdate(old(items), items, key, now, None);
      }
    }

    /** One shard's turn of evict_expired. */
    method SweepShard(shard: nat, limit: nat, now: nat)
      requires Valid() && shard < NUM_SHARDS
      modifies `shards, `items, `ttlKeys, `used
      ensures KeptAll() && Live(now) == old(Live(now))
      ensures items.Keys <= old(items).Keys
      ensures forall k :: ShardIndex(k) != shard ==> (k in items <==> k in old(items)) && (k in ttlKeys <==> k in old(ttlKeys))
      ensures forall k :: k in items && ShardIndex(k) == shard && k !in Live(now) ==> |old(IndexShare(shard))| > limit
    {
      hide ShardIndex, Total, Weight, LiveItems, NoEmptyIn, Shaped, IndexOf;
      ghost var live := Live(now);
      var share := ShareOf(shard);
      var rest, checked := share, 0;
      while rest != {} && checked < limit
        invariant KeptAll() && Live(now) == live && items.Keys <= old(items).Keys
        invariant rest <= share && checked == |share| - |rest| <= limit
        invariant forall k :: ShardIndex(k) != shard ==> (k in items <==> k in old(items)) && (k in ttlKeys <==> k in old(ttlKeys))
        invariant rest <= ttlKeys
        invariant forall k :: k in items && k in share && k !in rest ==> k in live
        decreases |rest|
      {
        var key :| key in rest;
        assert key in share;
        rest := rest - {key};
        SweepKey(key, now);
        checked := checked + 1;
      }
      assert rest != {} ==> |share| > limit;
      forall k | k in items && ShardIndex(k) == shard && k !in Live(now) ensures |share| > limit {
        IndexedKey(old(items), old(ttlKeys), k);
      }
    }

    method ShareOf(shard: nat) returns (share: set<Str>)
      requires Valid() && shard < NUM_SHARDS
      ensures share == IndexShare(shard)
    {
      hide ShardIndex, Total, IndexOf;
      share := shards[shard].keysWithTtl;
    }

    /** evict_expired: unobservable through the live view, and it leaves an expired key behind only in
        a shard whose index is larger than the share of the batch. */
    method EvictExpired(batchLimit: nat, now: nat)
      requires Valid()
      modifies `shards, `items, `ttlKeys, `used
      ensures KeptAll() && Live(now) == old(Live(now)) && items.Keys <= old(items).Keys
      ensures forall k :: k in items && k !in Live(now) ==>
                |old(IndexShare(ShardIndex(k)))| * NUM_SHARDS > batchLimit
    {
      hide ShardIndex, Total, Weight, LiveItems, NoEmptyIn, Shaped, IndexOf;
      var limitPerShard := (batchLimit + NUM_SHARDS - 1) / NUM_SHARDS;
      for shard := 0 to NUM_SHARDS
        invariant KeptAll() && Live(now) == old(Live(now)) && items.Keys <= old(items).Keys
        invariant forall k :: ShardIndex(k) >= shard ==> (k in items <==> k in old(items)) && (k in ttlKeys <==> k in old(ttlKeys))
        invariant forall k :: k in items && ShardIndex(k) < shard && k !in Live(now) ==> |old(IndexShare(ShardIndex(k)))| > limitPerShard
      {
        assert IndexShare(shard) == old(IndexShare(shard));
        SweepShard(shard, limitPerShard, now);
      }
    }
  }

  /** add_overflow: the tests use only values that fit 64 bits, and reject exactly the sums that do
      not. */
  function AddInt64(a: int, b: int): (r: Option<int>)
    requires IsInt64(a) && IsInt64(b)
    ensures r == if IsInt64(a + b) then Some(a + b) else None
  {
    if (b > 0 && a > INT64_MAX - b) || (b < 0 && a < INT64_MIN - b) then None else Some(a + b)
  }

  /** sub_overflow. */
  function SubInt64(a: int, b: int): (r: Option<int>)
    requires IsInt64(a) && IsInt64(b)
    ensures r == if IsInt64(a - b) then Some(a - b) else None
  {
    if (b > 0 && a < INT64_MIN + b) || (b < 0 && a > INT64_MAX + b) then None else Some(a - b)
  }

  lemma DelNothing(db: Db)
    ensures DelDb(db, []) == db && DelCount(db, []) == 0
  {
    MinusNothing(db);
    NoMembers(db.Keys);
  }

  lemma DelStep(db: Db, keys: seq<Str>, i: nat)
    requires i < |keys|
    ensures var rest := DelDb(db, keys[..i]);
            DelDb(db, keys[..i + 1]) == (if keys[i] in rest then rest - {keys[i]} else rest)
            && DelCount(db, keys[..i + 1]) == DelCount(db, keys[..i]) + if keys[i] in rest then 1 else 0
  {
    hide Members;
    RemoveStep(db, keys, i, DelDb(db, keys[..i]));
  }

  lemma OnlyFewer(before: Db, after: Db, key: Str)
    requires after - {key} == before - {key} && (key in after ==> key in before)
    ensures after.Keys <= before.Keys
  {
    forall k | k in after ensures k in before {
      if k != key { assert k in after - {key}; }
    }
  }

  lemma NotEmptyAt(db: Db, key: Str)
    requires key in db
    ensures NoEmptyIn(db) ==> !EmptyValue(db[key].value)
  {
  }

  lemma IndexedKey(db: Db, ttlKeys: set<Str>, key: Str)
    requires IndexOf(db, ttlKeys)
    ensures key in ttlKeys <==> key in db && db[key].expireAt != 0
  {
  }
}
