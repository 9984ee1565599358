/** What some commands mean over a whole run, in terms of what clients see and of the times alone. */
module Meanings {
  import opened Bytes
  import opened Keyspace
  import opened Runs
  import Reorder

  /** An operation that does not change key: on other keys, or one that only looks. */
  predicate LeavesAlone(op: Op, key: Str) {
    match op
    case On(k, action) => k != key || action.Get? || action.Ttl?
    case Mset(pairs) => forall i :: 0 <= i < |pairs| ==> pairs[i].0 != key
    case Del(keys) => key !in keys
    case Flushdb => false
    case Restore(entry) => entry.key != key
    case _ => true
  }

  lemma Alone(db: Db, clock: Clock, op: Op, key: Str)
    requires AllAlive(db, clock.now) && LeavesAlone(op, key)
    ensures Lookup(Apply(db, clock, op).db, key) == Lookup(db, key)
  {
    match op
    case On(k, action) => if k == key { Looking(Lookup(db, key), clock, action); } else { Reorder.Untouched(db, clock, op, key); }
    case Mset(pairs) => Reorder.MsetUntouched(db, pairs, key);
    case _ =>
  }

  lemma Looking(cell: Cell, clock: Clock, action: Action)
    requires (cell.Some? ==> Alive(cell.value.expireAt, clock.now)) && (action.Get? || action.Ttl?)
    ensures Act(cell, clock, action).cell == cell
  {
  }

  lemma LiveCell(db: Db, key: Str, now: nat)
    ensures Lookup(LiveItems(db, now), key)
         == var c := Lookup(db, key); if c.Some? && (c.value.expireAt == 0 || now < c.value.expireAt) then c else None
  {
  }

  /** A key left alone is as it was, or it has expired. */
  lemma {:induction false} StaysUntil(db: Db, steps: seq<Step>, key: Str, at: nat)
    requires InOrder(steps) && forall i :: 0 <= i < |steps| ==> LeavesAlone(steps[i].op, key) && steps[i].clock.now <= at
    ensures Lookup(LiveItems(Simulate(db, steps).db, at), key) == Lookup(LiveItems(db, at), key)
    decreases |steps|
  {
    hide Apply, LiveItems, Lookup, LeavesAlone;
    if steps != [] {
      var n := |steps| - 1;
      var before := Simulate(db, steps[..n]).db;
      var now := steps[n].clock.now;
      StaysUntil(db, steps[..n], key, at);
      var live := LiveItems(before, now);
      LiveAllAlive(before, now);
      Alone(live, steps[n].clock, steps[n].op, key);
      SameLive(Simulate(db, steps).db, live, key, at);
      LiveLater(before, now, at);
    }
  }

  lemma LiveAllAlive(db: Db, now: nat)
    ensures AllAlive(LiveItems(db, now), now)
  {
  }

  lemma SameLive(a: Db, b: Db, key: Str, now: nat)
    requires Lookup(a, key) == Lookup(b, key)
    ensures Lookup(LiveItems(a, now), key) == Lookup(LiveItems(b, now), key)
  {
  }

  function SetNx(key: Str, value: Str, ttl: nat): Op { On(key, Set(value, ttl, false, true, false)) }

  lemma SetNxHere(db: Db, clock: Clock, key: Str, value: Str, ttl: nat)
    requires AllAlive(db, clock.now)
    ensures var o := Apply(db, clock, SetNx(key, value, ttl));
            o.reply == (if key in db then NotApplied else Applied)
            && Lookup(o.db, key)
               == if key in db then Some(db[key]) else Some(Item(StringV(value), if ttl == 0 then 0 else clock.now + ttl))
  {
  }

  lemma GetHere(db: Db, clock: Clock, key: Str)
    requires AllAlive(db, clock.now)
    ensures key in db && db[key].value.StringV? ==> Apply(db, clock, On(key, Get)).reply == Got(db[key].value.text)
  {
  }

  /** A lock taken by SET NX with a duration. In every run that leaves the key alone in between, a second
      SET NX is refused if and only if the duration of the first has not passed, and GET then returns the
      first value, or else the second. With a duration of 0 the first holds for ever. */
  lemma LockHeldIff(db: Db, first: Clock, key: Str, value: Str, ttl: nat, between: seq<Step>, second: Clock, other: Str)
    requires key !in LiveItems(db, first.now) && InOrder(between)
    requires forall i :: 0 <= i < |between| ==> LeavesAlone(between[i].op, key) && between[i].clock.now <= second.now
    requires first.now <= second.now
    ensures var taken := Apply(LiveItems(db, first.now), first, SetNx(key, value, ttl));
            var later := LiveItems(Simulate(taken.db, between).db, second.now);
            var again := Apply(later, second, SetNx(key, other, 0));
            var held := ttl == 0 || second.now < first.now + ttl;
            taken.reply == Applied
            && again.reply == (if held then NotApplied else Applied)
            && Apply(LiveItems(again.db, second.now), second, On(key, Get)).reply == Got(if held then value else other)
  {
    hide Simulate, Apply, LiveItems;
    var live := LiveItems(db, first.now);
    LiveAllAlive(db, first.now);
    SetNxHere(live, first, key, value, ttl);
    var taken := Apply(live, first, SetNx(key, value, ttl));
    StaysUntil(taken.db, between, key, second.now);
    LiveCell(taken.db, key, second.now);
    var later := LiveItems(Simulate(taken.db, between).db, second.now);
    LiveAllAlive(Simulate(taken.db, between).db, second.now);
    SetNxHere(later, second, key, other, 0);
    var again := Apply(later, second, SetNx(key, other, 0));
    LiveCell(again.db, key, second.now);
    LiveAllAlive(again.db, second.now);
    GetHere(LiveItems(again.db, second.now), second, key);
  }

  /** What SET stored can be read until its duration has passed and not from then on, whatever happens to
      other keys meanwhile. */
  lemma ReadUntilIff(db: Db, clock: Clock, key: Str, value: Str, ttl: nat, between: seq<Step>, later: Clock)
    requires InOrder(between) && clock.now <= later.now
    requires forall i :: 0 <= i < |between| ==> LeavesAlone(between[i].op, key) && between[i].clock.now <= later.now
    ensures var stored := Apply(LiveItems(db, clock.now), clock, On(key, Set(value, ttl, false, false, false))).db;
            Apply(LiveItems(Simulate(stored, between).db, later.now), later, On(key, Get)).reply
            == if ttl == 0 || later.now < clock.now + ttl then Got(value) else NotFound
  {
    hide Simulate;
    var stored := Apply(LiveItems(db, clock.now), clock, On(key, Set(value, ttl, false, false, false))).db;
    StaysUntil(stored, between, key, later.now);
    LiveCell(stored, key, later.now);
  }

  // ----- commands on a value of another type

  datatype Kind = AnyKind | Strings | Lists | Hashes | Sets | SortedSets

  /** The kind of value a command works on. */
  function KindFor(a: Action): Kind {
    match a
    case Get => Strings
    case IncrBy(_, _) => Strings
    case Push(names, _) => if names == [] then AnyKind else Lists
    case Pop(_, _) => Lists
    case Hset(pairs) => if pairs == [] then AnyKind else Hashes
    case Hsetnx(_, _) => Hashes
    case Hincrby(_, _) => Hashes
    case Hdel(_) => Hashes
    case Sadd(_) => Sets
    case Srem(_) => Sets
    case Zadd(_) => SortedSets
    case Zrem(_) => SortedSets
    case _ => AnyKind
  }

  predicate OfKind(v: Value, k: Kind) {
    match k
    case AnyKind => true
    case Strings => v.StringV?
    case Lists => v.ListV?
    case Hashes => v.HashV?
    case Sets => v.SetV?
    case SortedSets => v.ZSetV?
  }

  /** A command answers WRONGTYPE exactly when the key holds another kind of value, which it then leaves
      alone. */
  lemma WrongTypeIff(cell: Cell, clock: Clock, a: Action)
    requires cell.Some? ==> Alive(cell.value.expireAt, clock.now)
    ensures var e := Act(cell, clock, a);
            (e.reply == WrongType <==> cell.Some? && !OfKind(cell.value.value, KindFor(a)))
            && (e.reply == WrongType ==> e.cell == cell)
  {
    hide ParseInt64, ParseHashInteger, SignedDigits, FromChars, Overlay, Members, Reversed, Added;
  }
}
