/** check_memory_and_evict (store.hpp): which keys it may remove, how many, and when it gives up,
    for every iteration order of the shards' tables. */
module Eviction {
  import opened Bytes
  import opened Keyspace
  import opened Memory
  import opened Sharding
  import opened StoreModel

  datatype Policy = NoEviction | AllKeysLru | VolatileLru | AllKeysRandom | VolatileTtl

  const MAX_ATTEMPTS: nat := 10000
  const SAMPLE_SIZE: nat := 5

  predicate Volatile(policy: Policy) { policy.VolatileLru? || policy.VolatileTtl? }

  predicate Lru(policy: Policy) { policy.AllKeysLru? || policy.VolatileLru? }

  predicate Expired(item: Item, now: nat) { item.expireAt != 0 && item.expireAt <= now }

  /** A volatile policy considers only keys with a deadline. */
  predicate Eligible(policy: Policy, item: Item) { Volatile(policy) ==> item.expireAt != 0 }

  /** The access stamp of a key, 0 for one never touched. */
  function Stamp(stamps: map<Str, nat>, key: Str): nat { if key in stamps then stamps[key] else 0 }

  /** The stamps and deadlines are clock values below the initial "worst" value of the search. */
  ghost predicate InRange(db: Db, stamps: map<Str, nat>) {
    forall k :: k in db ==> Stamp(stamps, k) < UINT64_MAX && db[k].expireAt < UINT64_MAX
  }

  /** What a policy prefers to remove: the lower the rank the better. */
  function Rank(policy: Policy, stamps: map<Str, nat>, key: Str, item: Item): nat {
    if Lru(policy) then Stamp(stamps, key) else if policy.VolatileTtl? then item.expireAt else 0
  }

  ghost function EligibleKeys(policy: Policy, db: Db): set<Str> {
    set k | k in db && Eligible(policy, db[k])
  }

  /** The search state: the best key so far and its rank, and whether it is an expired one. */
  datatype Search = Search(best: Option<Str>, worst: nat, expired: bool)

  /** Compares one eligible key with the best so far. */
  function Consider(policy: Policy, stamps: map<Str, nat>, s: Search, key: Str, item: Item): Search {
    if Lru(policy) then
      if Stamp(stamps, key) < s.worst then Search(Some(key), Stamp(stamps, key), false) else s
    else if policy.VolatileTtl? then
      if item.expireAt < s.worst then Search(Some(key), item.expireAt, false) else s
    else Search(Some(key), s.worst, false)
  }

  /** s is the best of start and the keys seen. */
  ghost predicate BestOf(data: Db, policy: Policy, stamps: map<Str, nat>, start: Search, s: Search, seen: set<Str>) {
    (s == start
     || (s.best.Some? && s.best.value in data && Eligible(policy, data[s.best.value]) && !s.expired
         && (policy.AllKeysRandom? || s.worst == Rank(policy, stamps, s.best.value, data[s.best.value]))))
    && s.worst <= start.worst
    && (forall k :: k in seen ==>
          k in data && (policy.AllKeysRandom? || s.worst <= Rank(policy, stamps, k, data[k])))
    && (start.best.Some? ==> s.best.Some?)
    && (s.best.None? ==> s.worst == UINT64_MAX && seen == {})
  }

  lemma ConsiderKeeps(data: Db, policy: Policy, stamps: map<Str, nat>, start: Search, s: Search, seen: set<Str>, key: Str)
    requires BestOf(data, policy, stamps, start, s, seen) && !policy.NoEviction? && !start.expired
    requires key in data && Eligible(policy, data[key]) && InRange(data, stamps)
    ensures BestOf(data, policy, stamps, start, Consider(policy, stamps, s, key, data[key]), seen + {key})
    ensures Consider(policy, stamps, s, key, data[key]).best.Some?
  {
  }

  /** One shard's part of the search. Unless it ends the search, it has looked at five eligible keys
      or at all there are. */
  method SampleShard(data: Db, policy: Policy, stamps: map<Str, nat>, now: nat, start: Search)
    returns (s: Search, ghost seen: set<Str>)
    requires !policy.NoEviction? && !start.expired && (policy.AllKeysRandom? ==> start.best.None?)
    requires InRange(data, stamps) && (start.best.None? ==> start.worst == UINT64_MAX)
    ensures s.expired ==> s.best.Some? && s.best.value in data && Expired(data[s.best.value], now)
    ensures !s.expired ==> BestOf(data, policy, stamps, start, s, seen) && seen <= EligibleKeys(policy, data)
    ensures !s.expired && !policy.AllKeysRandom? ==> |seen| == Min(SAMPLE_SIZE, |EligibleKeys(policy, data)|)
    ensures s.best.None? ==> EligibleKeys(policy, data) == {} && forall k :: k in data ==> !Expired(data[k], now)
  {
    hide BestOf, Eligible, Rank, Consider, Stamp, InRange, Expired, EligibleKeys;
    s, seen := start, {};
    ghost var eligible := EligibleKeys(policy, data);
    EligibleMeans(policy, data);
    var sampled := 0;
    var rest := data.Keys;
    BestStart(data, policy, stamps, start);
    while rest != {}
      invariant rest <= data.Keys && !s.expired && (policy.AllKeysRandom? ==> s.best.None?)
      invariant BestOf(data, policy, stamps, start, s, seen)
      invariant forall k :: k in eligible ==> k in seen || k in rest
      invariant forall k :: k in seen ==> k in eligible && k !in rest
      invariant |seen| == sampled < SAMPLE_SIZE && (s.best.None? ==> seen == {})
      invariant forall k :: k in data && k !in rest ==> !Expired(data[k], now)
      decreases |rest|
    {
      var k :| k in rest;
      rest := rest - {k};
      if Expired(data[k], now) {
        s := Search(Some(k), s.worst, true);
        return;
      }
      if Volatile(policy) && data[k].expireAt == 0 {
        NotEligible(policy, data[k]);
        continue;
      }
      EligibleNow(policy, data[k]);
      ConsiderKeeps(data, policy, stamps, start, s, seen, k);
      NotExpired(policy, stamps, s, k, data[k]);
      s := Consider(policy, stamps, s, k, data[k]);
      seen := seen + {k};
      if policy.AllKeysRandom? { return; }
      sampled := sampled + 1;
      if sampled >= SAMPLE_SIZE {
        SubsetSize(seen, eligible);
        return;
      }
    }
    assert eligible == seen;
  }

  lemma EligibleMeans(policy: Policy, data: Db)
    ensures forall k :: k in EligibleKeys(policy, data) <==> k in data && Eligible(policy, data[k])
  {
  }

  lemma BestStart(data: Db, policy: Policy, stamps: map<Str, nat>, start: Search)
    requires start.best.None? ==> start.worst == UINT64_MAX
    ensures BestOf(data, policy, stamps, start, start, {})
  {
  }

  lemma NotEligible(policy: Policy, item: Item)
    requires Volatile(policy) && item.expireAt == 0
    ensures !Eligible(policy, item)
  {
  }

  lemma EligibleNow(policy: Policy, item: Item)
    requires !(Volatile(policy) && item.expireAt == 0)
    ensures Eligible(policy, item)
  {
  }

  lemma NotExpired(policy: Policy, stamps: map<Str, nat>, s: Search, key: Str, item: Item)
    requires !s.expired
    ensures !Consider(policy, stamps, s, key, item).expired
  {
  }

  // ----- the search over all shards

  predicate MayGo(policy: Policy, item: Item, now: nat) { Expired(item, now) || Eligible(policy, item) }

  /** The victim is no worse than any key sampled, and every shard was sampled as far as five of its
      eligible keys. */
  ghost predicate BestSampled(store: Store, policy: Policy, stamps: map<Str, nat>, victim: Str, seen: seq<set<Str>>)
    reads store
  {
    store.Shaped() && victim in store.items && |seen| == NUM_SHARDS
    && forall i :: 0 <= i < NUM_SHARDS ==>
         var data := store.shards[i].data;
         |seen[i]| == Min(SAMPLE_SIZE, |EligibleKeys(policy, data)|)
         && forall k :: k in seen[i] ==>
              k in data && Eligible(policy, data[k])
              && Rank(policy, stamps, victim, store.items[victim]) <= Rank(policy, stamps, k, data[k])
  }

  /** The best key so far is one of the store's, and its rank is known. */
  ghost predicate Leads(items: Db, policy: Policy, stamps: map<Str, nat>, s: Search) {
    s.best.Some? ==>
      s.best.value in items && Eligible(policy, items[s.best.value])
      && (policy.AllKeysRandom? || s.worst == Rank(policy, stamps, s.best.value, items[s.best.value]))
  }

  /** The search goes on in shard i. */
  method SampleNext(store: Store, i: nat, policy: Policy, stamps: map<Str, nat>, now: nat, start: Search)
    returns (s: Search, ghost seen: set<Str>)
    requires store.Valid() && i < NUM_SHARDS && !policy.NoEviction? && InRange(store.items, stamps)
    requires !start.expired && (policy.AllKeysRandom? ==> start.best.None?)
    requires Leads(store.items, policy, stamps, start) && (start.best.None? ==> start.worst == UINT64_MAX)
    ensures s.expired ==> s.best.Some? && s.best.value in store.items && Expired(store.items[s.best.value], now)
    ensures !s.expired ==> Leads(store.items, policy, stamps, s) && s.worst <= start.worst
    ensures !s.expired && !policy.AllKeysRandom? ==> Sampled(store.shards[i].data, policy, stamps, s.worst, seen)
    ensures s.best.None? ==> start.best.None? && s.worst == UINT64_MAX && Barren(store.shards[i].data, policy, now)
  {
    hide Total, IndexOf, ShardIndex, Rank, Stamp, Eligible, Expired, EligibleKeys, InRange, BestOf, Store.Shaped;
    var data := store.ShardData(i);
    InShard(store, i, stamps);
    if data == map[] {
      EmptyShard(policy, stamps, start.worst, now);
      s, seen := start, {};
    } else {
      s, seen := SampleShard(data, policy, stamps, now, start);
      if !s.expired { BestMeans(data, policy, stamps, start, s, seen); }
    }
  }

  lemma BarrenAt(data: Db, policy: Policy, now: nat, key: Str)
    requires Barren(data, policy, now) && key in data
    ensures !MayGo(policy, data[key], now)
  {
  }

  /** The keys of shard i the policy may take: those with a deadline under a volatile policy, else all. */
  ghost function Candidates(policy: Policy, db: Db, i: nat): set<Str> {
    set k | k in db && ShardIndex(k) == i && (policy.VolatileLru? || policy.VolatileTtl? ==> db[k].expireAt != 0)
  }

  /** Why a key is evicted, in the policy's own terms: its deadline has passed; or it is a candidate and,
      of up to five candidates of each shard that were looked at, the one longest not accessed (the LRU
      policies) or the one whose deadline comes first (volatile-ttl); or any key (allkeys-random). */
  ghost predicate Justified(policy: Policy, stamps: map<Str, nat>, now: nat, db: Db, key: Str, expired: bool, seen: seq<set<Str>>) {
    key in db
    && if expired then db[key].expireAt != 0 && db[key].expireAt <= now
       else
         (policy.VolatileLru? || policy.VolatileTtl? ==> db[key].expireAt != 0)
         && (!policy.AllKeysRandom? ==>
               |seen| == 32
               && forall i :: 0 <= i < 32 ==>
                    seen[i] <= Candidates(policy, db, i) && |seen[i]| == Min(5, |Candidates(policy, db, i)|))
         && (policy.AllKeysLru? || policy.VolatileLru? ==>
               forall i, k :: 0 <= i < |seen| && k in seen[i] ==> Stamp(stamps, key) <= Stamp(stamps, k))
         && (policy.VolatileTtl? ==>
               forall i, k :: 0 <= i < |seen| && k in seen[i] ==> k in db && db[key].expireAt <= db[k].expireAt)
  }

  lemma CandidatesOf(store: Store, policy: Policy, i: nat)
    requires store.Shaped() && i < NUM_SHARDS
    ensures Candidates(policy, store.items, i) == EligibleKeys(policy, store.shards[i].data)
  {
    hide ShardIndex;
    var data := store.shards[i].data;
    forall k ensures k in Candidates(policy, store.items, i) <==> k in EligibleKeys(policy, data) {
      if k in store.items && ShardIndex(k) == i { assert k in data; }
      if k in data { assert ShardIndex(k) == i; }
    }
  }

  lemma SampledJustifies(store: Store, policy: Policy, stamps: map<Str, nat>, now: nat, victim: Str, seen: seq<set<Str>>)
    requires BestSampled(store, policy, stamps, victim, seen) && Eligible(policy, store.items[victim])
    requires !policy.AllKeysRandom? && !policy.NoEviction?
    ensures Justified(policy, stamps, now, store.items, victim, false, seen)
  {
    hide ShardIndex, EligibleKeys, Candidates, Stamp;
    forall i | 0 <= i < 32
      ensures seen[i] <= Candidates(policy, store.items, i) && |seen[i]| == Min(5, |Candidates(policy, store.items, i)|)
    {
      CandidatesOf(store, policy, i);
      EligibleMeans(policy, store.shards[i].data);
    }
    forall i, k | 0 <= i < 32 && k in seen[i]
      ensures k in store.items
              && Rank(policy, stamps, victim, store.items[victim]) <= Rank(policy, stamps, k, store.items[k])
    {
      ShardItem(store, i, k);
    }
  }

  lemma ShardItem(store: Store, i: nat, k: Str)
    requires store.Shaped() && i < NUM_SHARDS && k in store.shards[i].data
    ensures k in store.items && store.items[k] == store.shards[i].data[k]
  {
    hide ShardIndex;
    assert ShardIndex(k) == i;
  }

  method FindVictim(store: Store, policy: Policy, stamps: map<Str, nat>, now: nat)
    returns (victim: Option<Str>, expired: bool, ghost seen: seq<set<Str>>)
    requires store.Valid() && !policy.NoEviction? && InRange(store.items, stamps)
    ensures victim.Some? ==> victim.value in store.items && MayGo(policy, store.items[victim.value], now)
    ensures victim.Some? && expired ==> Expired(store.items[victim.value], now)
    ensures victim.None? ==> forall k :: k in store.items ==> !MayGo(policy, store.items[k], now)
    ensures victim.Some? && !expired && !policy.AllKeysRandom? ==> BestSampled(store, policy, stamps, victim.value, seen)
    ensures victim.Some? ==> Justified(policy, stamps, now, store.items, victim.value, expired, seen)
  {
    hide Justified, Total, IndexOf, ShardIndex, Rank, Stamp, Eligible, Expired, EligibleKeys, InRange, Barren, Sampled, Leads, BestSampled;
    var s := Search(None, UINT64_MAX, false);
    LeadsNone(store.items, policy, stamps, s);
    seen := [];
    for i := 0 to NUM_SHARDS
      invariant |seen| == i && !s.expired && (policy.AllKeysRandom? ==> s.best.None?)
      invariant s.best.None? ==> s.worst == UINT64_MAX && forall j :: 0 <= j < i ==> Barren(store.shards[j].data, policy, now)
      invariant Leads(store.items, policy, stamps, s)
      invariant !policy.AllKeysRandom? ==> forall j :: 0 <= j < i ==> Sampled(store.shards[j].data, policy, stamps, s.worst, seen[j])
    {
      var start := s;
      ghost var shardSeen;
      s, shardSeen := SampleNext(store, i, policy, stamps, now, start);
      if s.expired || (s.best.Some? && policy.AllKeysRandom?) {
        if !s.expired { LeadsMayGo(store.items, policy, stamps, s, now); }
        FirstJustifies(store.items, policy, stamps, now, s, seen);
        victim, expired := s.best, s.expired;
        return;
      }
      SampledLower(store.shards[..i], policy, stamps, start.worst, s.worst, seen);
      seen := seen + [shardSeen];
    }
    victim, expired := s.best, false;
    LeadsMayGo(store.items, policy, stamps, s, now);
    AllBarren(store, policy, now);
    if s.best.Some? && !policy.AllKeysRandom? {
      AllSampled(store, policy, stamps, s, seen);
      LeadsEligible(store.items, policy, stamps, s);
      SampledJustifies(store, policy, stamps, now, s.best.value, seen);
    }
  }

  lemma LeadsEligible(items: Db, policy: Policy, stamps: map<Str, nat>, s: Search)
    requires Leads(items, policy, stamps, s) && s.best.Some?
    ensures s.best.value in items && Eligible(policy, items[s.best.value])
  {
  }

  /** An expired key, and under allkeys-random any key, ends the search at once. */
  lemma FirstJustifies(items: Db, policy: Policy, stamps: map<Str, nat>, now: nat, s: Search, seen: seq<set<Str>>)
    requires s.best.Some? && s.best.value in items
    requires if s.expired then Expired(items[s.best.value], now) else policy.AllKeysRandom?
    ensures Justified(policy, stamps, now, items, s.best.value, s.expired, seen)
  {
  }

  lemma LeadsNone(items: Db, policy: Policy, stamps: map<Str, nat>, s: Search)
    ensures s.best.None? ==> Leads(items, policy, stamps, s)
  {
  }

  lemma LeadsMayGo(items: Db, policy: Policy, stamps: map<Str, nat>, s: Search, now: nat)
    requires Leads(items, policy, stamps, s)
    ensures s.best.Some? ==> s.best.value in items && MayGo(policy, items[s.best.value], now)
  {
  }

  lemma AllBarren(store: Store, policy: Policy, now: nat)
    requires store.Shaped()
    ensures (forall j :: 0 <= j < NUM_SHARDS ==> Barren(store.shards[j].data, policy, now))
            ==> forall k :: k in store.items ==> !MayGo(policy, store.items[k], now)
  {
    hide ShardIndex, MayGo;
    if forall j :: 0 <= j < NUM_SHARDS ==> Barren(store.shards[j].data, policy, now) {
      forall k | k in store.items ensures !MayGo(policy, store.items[k], now) {
        BarrenAt(store.shards[ShardIndex(k)].data, policy, now, k);
      }
    }
  }

  lemma AllSampled(store: Store, policy: Policy, stamps: map<Str, nat>, s: Search, seen: seq<set<Str>>)
    requires store.Shaped() && |seen| == NUM_SHARDS && Leads(store.items, policy, stamps, s)
    requires s.best.Some? && !policy.AllKeysRandom?
    requires forall j :: 0 <= j < NUM_SHARDS ==> Sampled(store.shards[j].data, policy, stamps, s.worst, seen[j])
    ensures BestSampled(store, policy, stamps, s.best.value, seen)
  {
    hide ShardIndex, Rank, Eligible, EligibleKeys, Store.Shaped;
    OneShardPerIndex(store);
  }

  lemma OneShardPerIndex(store: Store)
    requires store.Shaped()
    ensures |store.shards| == NUM_SHARDS
  {
  }

  ghost predicate Barren(data: Db, policy: Policy, now: nat) {
    forall k :: k in data ==> !MayGo(policy, data[k], now)
  }

  ghost predicate Sampled(data: Db, policy: Policy, stamps: map<Str, nat>, worst: nat, seen: set<Str>) {
    |seen| == Min(SAMPLE_SIZE, |EligibleKeys(policy, data)|)
    && forall k :: k in seen ==> k in data && Eligible(policy, data[k]) && worst <= Rank(policy, stamps, k, data[k])
  }

  lemma InShard(store: Store, i: nat, stamps: map<Str, nat>)
    requires store.Shaped() && i < NUM_SHARDS && InRange(store.items, stamps)
    ensures forall k :: k in store.shards[i].data ==> k in store.items && store.items[k] == store.shards[i].data[k]
    ensures InRange(store.shards[i].data, stamps)
  {
    hide ShardIndex;
    forall k | k in store.shards[i].data ensures k in store.items && store.items[k] == store.shards[i].data[k] {
      assert ShardIndex(k) == i;
    }
  }

  lemma EmptyShard(policy: Policy, stamps: map<Str, nat>, worst: nat, now: nat)
    ensures Sampled(map[], policy, stamps, worst, {}) && Barren(map[], policy, now)
  {
    assert EligibleKeys(policy, map[]) == {};
  }

  lemma BestMeans(data: Db, policy: Policy, stamps: map<Str, nat>, start: Search, s: Search, seen: set<Str>)
    requires !s.expired && BestOf(data, policy, stamps, start, s, seen) && seen <= EligibleKeys(policy, data)
    requires !policy.AllKeysRandom? ==> |seen| == Min(SAMPLE_SIZE, |EligibleKeys(policy, data)|)
    ensures s == start || (s.best.Some? && s.best.value in data && Eligible(policy, data[s.best.value])
                           && (policy.AllKeysRandom? || s.worst == Rank(policy, stamps, s.best.value, data[s.best.value])))
    ensures s.worst <= start.worst
    ensures !policy.AllKeysRandom? ==> Sampled(data, policy, stamps, s.worst, seen)
    ensures s.best.None? ==> start.best.None? && s.worst == UINT64_MAX
    ensures s.best.None? && EligibleKeys(policy, data) == {} ==> forall k :: k in data ==> !Eligible(policy, data[k])
  {
    hide Rank;
    EligibleMeans(policy, data);
  }

  lemma SampledLower(shards: seq<Shard>, policy: Policy, stamps: map<Str, nat>, high: nat, low: nat, seen: seq<set<Str>>)
    requires low <= high && |seen| == |shards|
    ensures (forall j :: 0 <= j < |shards| ==> Sampled(shards[j].data, policy, stamps, high, seen[j]))
            ==> forall j :: 0 <= j < |shards| ==> Sampled(shards[j].data, policy, stamps, low, seen[j])
  {
    hide Rank, EligibleKeys, Eligible;
  }

  // ----- the eviction loop

  /** One eviction: the key, whether it had expired, and the keys it was compared with, shard by shard. */
  datatype Evicted = Evicted(key: Str, expired: bool, seen: seq<set<Str>>)

  ghost function Gone(evicted: seq<Evicted>): set<Str> {
    if evicted == [] then {} else Gone(evicted[..|evicted| - 1]) + {evicted[|evicted| - 1].key}
  }

  /** Each eviction was justified in the store as it then was. */
  ghost predicate AllJustified(policy: Policy, stamps: map<Str, nat>, now: nat, db: Db, evicted: seq<Evicted>) {
    forall i :: 0 <= i < |evicted| ==>
      Justified(policy, stamps, now, db - Gone(evicted[..i]), evicted[i].key, evicted[i].expired, evicted[i].seen)
  }

  lemma OneMoreEvicted(policy: Policy, stamps: map<Str, nat>, now: nat, db: Db, evicted: seq<Evicted>, e: Evicted)
    requires AllJustified(policy, stamps, now, db, evicted)
    requires Justified(policy, stamps, now, db - Gone(evicted), e.key, e.expired, e.seen)
    ensures AllJustified(policy, stamps, now, db, evicted + [e]) && Gone(evicted + [e]) == Gone(evicted) + {e.key}
  {
    hide Justified, Gone;
    var more := evicted + [e];
    forall i | 0 <= i < |more| ensures Justified(policy, stamps, now, db - Gone(more[..i]), more[i].key, more[i].expired, more[i].seen) {
      if i < |evicted| { assert more[..i] == evicted[..i]; } else { assert more[..i] == evicted; }
    }
    GoneOne(evicted, e);
  }

  lemma GoneOne(evicted: seq<Evicted>, e: Evicted)
    ensures Gone(evicted + [e]) == Gone(evicted) + {e.key}
  {
    assert (evicted + [e])[..|evicted|] == evicted;
  }

  lemma NoneGone()
    ensures Gone([]) == {}
  {
  }

  /** One turn of the loop. */
  method EvictNext(store: Store, policy: Policy, stamps: map<Str, nat>, now: nat) returns (found: bool, ghost e: Evicted)
    requires store.Valid() && !policy.NoEviction? && InRange(store.items, stamps)
    modifies store
    ensures store.KeptAll() && store.maxmemory == old(store.maxmemory) && InRange(store.items, stamps)
    ensures !found ==>
              store.items == old(store.items) && store.dirty == old(store.dirty) && store.used == old(store.used)
              && forall k :: k in store.items ==> !MayGo(policy, store.items[k], now)
    ensures found ==>
              Justified(policy, stamps, now, old(store.items), e.key, e.expired, e.seen)
              && e.key in old(store.items) && MayGo(policy, old(store.items)[e.key], now)
              && store.items == old(store.items) - {e.key} && store.dirty == old(store.dirty) + 1
              && Weight(e.key, old(store.items)[e.key].value) >= ENTRY_OVERHEAD
              && (old(store.Exact()) ==> store.used + Weight(e.key, old(store.items)[e.key].value) == old(store.used))
  {
    hide Total, IndexOf, Store.Shaped, NoEmptyIn, Weight, MayGo, InRange, Justified;
    var victim, expired, seen := FindVictim(store, policy, stamps, now);
    e := Evicted([], expired, seen);
    found := victim.Some?;
    if found {
      e := Evicted(victim.value, expired, seen);
      Evict(store, victim.value, stamps);
    }
  }

  /** check_memory_and_evict. removed is the set of keys evicted, evicted lists them in order. */
  method CheckMemoryAndEvict(store: Store, policy: Policy, stamps: map<Str, nat>, neededBytes: nat, now: nat)
    returns (ok: bool, ghost removed: set<Str>, ghost evicted: seq<Evicted>)
    requires store.Valid() && InRange(store.items, stamps)
    modifies store
    ensures store.KeptAll() && store.maxmemory == old(store.maxmemory)
    ensures removed <= old(store.items).Keys && store.items == old(store.items) - removed
    ensures store.dirty == old(store.dirty) + |removed| && |removed| <= 10000
    ensures ok <==> store.maxmemory == 0 || store.used + neededBytes <= store.maxmemory
    ensures store.maxmemory == 0 || old(store.used) + neededBytes <= store.maxmemory || policy.NoEviction? ==> removed == {}
    ensures forall k :: k in removed ==> MayGo(policy, old(store.items)[k], now)
    ensures removed == Gone(evicted) && |removed| == |evicted|
    ensures AllJustified(policy, stamps, now, old(store.items), evicted)
    ensures !ok && !policy.NoEviction? ==>
              |removed| == 10000 || forall k :: k in store.items ==> !MayGo(policy, store.items[k], now)
    ensures !ok && (policy.AllKeysLru? || policy.AllKeysRandom?) && neededBytes == 0 ==> |removed| == 10000
    ensures old(store.Exact()) ==> old(store.used) >= store.used + ENTRY_OVERHEAD * |removed|
    ensures old(store.Exact()) && removed != {} ==>
              exists k :: k in removed && store.used + Weight(k, old(store.items)[k].value) + neededBytes > store.maxmemory
  {
    hide Total, IndexOf, Store.Shaped, NoEmptyIn, Weight, MayGo, InRange, AllJustified, Justified, Gone;
    removed, evicted := {}, [];
    NoneGone();
    NoneJustified(policy, stamps, now, store.items);
    assert store.items == old(store.items) - removed;
    if store.maxmemory == 0 { return true, removed, evicted; }
    if store.used + neededBytes <= store.maxmemory { return true, removed, evicted; }
    if policy.NoEviction? { return false, removed, evicted; }
    var attempts := 0;
    while store.used + neededBytes > store.maxmemory && attempts < MAX_ATTEMPTS
      invariant store.KeptAll() && store.maxmemory == old(store.maxmemory) && InRange(store.items, stamps)
      invariant removed <= old(store.items).Keys && store.items == old(store.items) - removed
      invariant attempts == |removed| <= MAX_ATTEMPTS && store.dirty == old(store.dirty) + |removed|
      invariant forall k :: k in removed ==> MayGo(policy, old(store.items)[k], now)
      invariant removed == Gone(evicted) && |removed| == |evicted| && AllJustified(policy, stamps, now, old(store.items), evicted)
      invariant old(store.Exact()) ==> old(store.used) >= store.used + ENTRY_OVERHEAD * |removed|
      invariant old(store.Exact()) && removed != {} ==>
                  exists k :: k in removed && store.used + Weight(k, old(store.items)[k].value) + neededBytes > store.maxmemory
      decreases MAX_ATTEMPTS - attempts
    {
      attempts := attempts + 1;
      var found, e := EvictNext(store, policy, stamps, now);
      if !found { break; }
      OneMoreEvicted(policy, stamps, now, old(store.items), evicted, e);
      evicted := evicted + [e];
      removed := removed + {e.key};
      assert store.items == old(store.items) - removed;
    }
    ok := store.used + neededBytes <= store.maxmemory;
    NothingLeft(store.items, policy, now);
  }

  lemma NoneJustified(policy: Policy, stamps: map<Str, nat>, now: nat, db: Db)
    ensures AllJustified(policy, stamps, now, db, [])
  {
  }

  /** Under an allkeys policy every stored key may go. */
  lemma NothingLeft(items: Db, policy: Policy, now: nat)
    ensures !Volatile(policy) && (forall k :: k in items ==> !MayGo(policy, items[k], now)) ==> Total(items) == 0
  {
    if !Volatile(policy) && forall k :: k in items ==> !MayGo(policy, items[k], now) {
      assert items == map[];
    }
  }

  method Evict(store: Store, key: Str, stamps: map<Str, nat>)
    requires store.Valid() && key in store.items && InRange(store.items, stamps)
    modifies store
    ensures store.KeptAll() && store.maxmemory == old(store.maxmemory) && store.items == old(store.items) - {key}
    ensures store.dirty == old(store.dirty) + 1 && InRange(store.items, stamps)
    ensures old(store.Exact()) ==> store.used + Weight(key, old(store.items)[key].value) == old(store.used)
    ensures Weight(key, old(store.items)[key].value) >= ENTRY_OVERHEAD
  {
    hide Total, IndexOf, Store.Shaped, NoEmptyIn;
    var cell := store.Find(key);
    TotalErase(store.items, key);
    store.EraseEntry(key, cell.value);
    store.dirty := store.dirty + 1;
  }
}
