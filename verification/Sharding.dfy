/** The assignment of keys to shards (store.hpp). */
module Sharding {
  import opened Bytes
  import Crc

  const NUM_SHARDS: nat := 32

  /** The 64-bit FNV-1a hash of shard_index. */
  function Fnv(key: Str): bv64 {
    if key == [] then 14695981039346656037
    else
      var n := |key| - 1;
      (Fnv(key[..n]) ^ (Crc.Bits8(key[n]) as bv64)) * 1099511628211
  }

  lemma LowFiveBits(h: bv64)
    ensures 0 <= ((h & 31) as bv8) as int < 32
  {
    var low := (h & 31) as bv8;
    assert low < 32;
    BelowThirtyTwo(low);
  }

  lemma BelowThirtyTwo(b: bv8)
    requires b < 32
    ensures 0 <= b as int < 32
  {
  }

  /** shard_index, store.hpp. */
  function ShardIndex(key: Str): (i: nat)
    ensures i < NUM_SHARDS
  {
    var h := Fnv(key);
    LowFiveBits(h);
    ((h & 31) as bv8) as nat
  }

  /** The shards of a set of keys in ascending order, each once: what sorting and unique leave. */
  function Ascending(shards: set<nat>, from: nat): (s: seq<nat>)
    requires from <= NUM_SHARDS
    ensures forall i :: 0 <= i < |s| ==> from <= s[i] < NUM_SHARDS && s[i] in shards
    ensures forall i, j :: 0 <= i < j < |s| ==> s[i] < s[j]
    ensures forall x :: x in shards && from <= x < NUM_SHARDS ==> x in s
    decreases NUM_SHARDS - from
  {
    if from == NUM_SHARDS then []
    else if from in shards then [from] + Ascending(shards, from + 1)
    else Ascending(shards, from + 1)
  }

  function Involved(keys: seq<Str>): (s: seq<nat>)
    ensures forall i, j :: 0 <= i < j < |s| ==> s[i] < s[j]
    ensures forall k :: k in keys ==> ShardIndex(k) in s
    ensures forall x :: x in s ==> x < NUM_SHARDS && exists k :: k in keys && ShardIndex(k) == x
  {
    Ascending(set k | k in keys :: ShardIndex(k), 0)
  }
}
