/** Whole runs: any sequence of operations on the sharded store, with time passing and sweeps in
    between, answers as one flat map would. */
module Runs {
  import opened Bytes
  import opened Keyspace
  import opened Memory
  import opened StoreModel
  import Dump

  /** An operation on one key. */
  datatype Action =
    | Set(value: Str, ttl: nat, keepTtl: bool, nx: bool, xx: bool)
    | Setex(ttl: nat, value: Str)
    | Get
    | IncrBy(delta: int, isDecrement: bool)
    | Hset(pairs: seq<(Str, Str)>)
    | Hsetnx(field: Str, value: Str)
    | Hincrby(field: Str, delta: int)
    | Hdel(names: seq<Str>)
    | Sadd(names: seq<Str>)
    | Srem(names: seq<Str>)
    | Zadd(scores: seq<(Str, Score)>)
    | Zrem(names: seq<Str>)
    | Push(names: seq<Str>, left: bool)
    | Pop(count: nat, left: bool)
    | Expire(ttl: nat)
    | ExpireAt(epoch: nat)
    | Ttl(milliseconds: bool)
    | Persist

  datatype Op =
    | On(key: Str, action: Action)
    | Mset(pairs: seq<(Str, Str)>)
    | Mget(keys: seq<Str>)
    | Exists(keys: seq<Str>)
    | Del(keys: seq<Str>)
    | Flushdb
    | Size
    | ExpiresSize
    | Sweep(batchLimit: nat)
    | Restore(entry: DumpEntry)

  datatype Outcome = Outcome(db: Db, reply: Reply)

  datatype Step = Step(clock: Clock, op: Op)

  /** What the callers have checked before they call. */
  predicate Legal(op: Op) {
    op.On? ==>
      (op.action.Setex? ==> op.action.ttl > 0)
      && (op.action.IncrBy? ==> IsInt64(op.action.delta))
      && (op.action.Hincrby? ==> IsInt64(op.action.delta))
  }

  function Act(cell: Cell, clock: Clock, a: Action): Effect
    requires cell.Some? ==> Alive(cell.value.expireAt, clock.now)
  {
    match a
    case Set(value, ttl, keepTtl, nx, xx) => SetAct(cell, clock.now, value, ttl, keepTtl, nx, xx)
    case Setex(ttl, value) => SetexAct(clock.now, ttl, value)
    case Get => GetAct(cell)
    case IncrBy(delta, isDecrement) => IncrAct(cell, if isDecrement then -delta else delta)
    case Hset(pairs) => HsetAct(cell, pairs)
    case Hsetnx(field, value) => HsetnxAct(cell, field, value)
    case Hincrby(field, delta) => HincrbyAct(cell, field, delta)
    case Hdel(names) => HdelAct(cell, names)
    case Sadd(names) => SaddAct(cell, names)
    case Srem(names) => SremAct(cell, names)
    case Zadd(scores) => ZaddAct(cell, scores)
    case Zrem(names) => ZremAct(cell, names)
    case Push(names, left) => PushAct(cell, names, left)
    case Pop(count, left) => PopAct(cell, count, left)
    case Expire(ttl) => ExpireAct(cell, clock, ttl)
    case ExpireAt(epoch) => ExpireAtAct(cell, clock, epoch)
    case Ttl(milliseconds) => TtlAct(cell, clock.now, milliseconds)
    case Persist => PersistAct(cell)
  }

  predicate AllAlive(db: Db, now: nat) { forall k :: k in db ==> Alive(db[k].expireAt, now) }

  /** What an operation does to a map of live items. */
  function Apply(db: Db, clock: Clock, op: Op): Outcome
    requires AllAlive(db, clock.now)
  {
    match op
    case On(key, action) =>
      var e := Act(Lookup(db, key), clock, action);
      Outcome(Update(db, key, e.cell), e.reply)
    case Mset(pairs) => Outcome(MsetDb(db, pairs), Applied)
    case Mget(keys) => Outcome(db, Reply.Values(MgetReply(db, keys)))
    case Exists(keys) => Outcome(db, Count(ExistsCount(db, keys)))
    case Del(keys) => Outcome(DelDb(db, keys), Count(DelCount(db, keys)))
    case Flushdb => Outcome(map[], Applied)
    case Size => Outcome(db, Count(|db|))
    case ExpiresSize => Outcome(db, Count(|set k | k in db && db[k].expireAt != 0|))
    case Sweep(_) => Outcome(db, Applied)
    case Restore(e) => Outcome(RestoreDb(db, clock, e), Applied)
  }

  /** Operations that may leave an empty collection behind: adding nothing to an absent key. */
  predicate AddsNothing(op: Op) {
    op.On? && ((op.action.Sadd? && op.action.names == []) || (op.action.Zadd? && op.action.scores == []))
  }

  /** Operations that create an entry without charging its base cost. */
  predicate Uncharged(db: Db, op: Op) {
    op.On? && (op.action.Hsetnx? || op.action.Sadd?) && op.key !in db
  }

  /** One operation on one key of the real store. */
  method ExecuteOn(store: Store, clock: Clock, key: Str, a: Action) returns (reply: Reply)
    requires store.Valid() && Legal(On(key, a))
    modifies store
    ensures store.Valid()
    ensures var e := Act(Lookup(old(store.Live(clock.now)), key), clock, a);
            reply == e.reply && store.Live(clock.now) == Update(old(store.Live(clock.now)), key, e.cell)
    ensures old(store.NoEmpty()) && !AddsNothing(On(key, a)) ==> store.NoEmpty()
    ensures old(store.Exact()) && !Uncharged(old(store.Live(clock.now)), On(key, a)) ==> store.Exact()
  {
    hide Total, IndexOf, Store.Shaped, NoEmptyIn, LiveItems, SetAct, SetexAct, GetAct, IncrAct, HsetAct, HsetnxAct,
      HincrbyAct, HdelAct, SaddAct, SremAct, ZaddAct, ZremAct, PushAct, PopAct, ExpireAct, ExpireAtAct, TtlAct, PersistAct,
      Lookup, Update;
    var now := clock.now;
    UpdateSame(store.Live(now), key);
    match a {
      case Set(value, ttl, keepTtl, nx, xx) => { reply := store.SetWithOptions(key, value, now, ttl, keepTtl, nx, xx); }
      case Setex(ttl, value) => { reply := store.Setex(key, now, ttl, value); }
      case Get => { reply := store.Get(key, now); GetKeeps(Lookup(old(store.Live(now)), key)); }
      case IncrBy(delta, isDecrement) => { reply := store.ModifyInt(key, now, delta, isDecrement); }
      case Hset(pairs) => { reply := store.Hset(key, pairs, now); }
      case Hsetnx(field, value) => { reply := store.Hsetnx(key, field, value, now); }
      case Hincrby(field, delta) => { reply := store.Hincrby(key, field, delta, now); }
      case Hdel(names) => { reply := store.Hdel(key, names, now); }
      case Sadd(names) => { reply := store.Sadd(key, names, now); }
      case Srem(names) => { reply := store.Srem(key, names, now); }
      case Zadd(scores) => { reply := store.Zadd(key, scores, now); }
      case Zrem(names) => { reply := store.Zrem(key, names, now); }
      case Push(names, left) => { reply := store.Push(key, names, left, now); }
      case Pop(count, left) => { reply := store.Pop(key, count, left, now); }
      case Expire(ttl) => { reply := store.Expire(key, ttl, clock); }
      case ExpireAt(epoch) => { reply := store.ExpireAt(key, epoch, clock); }
      case Ttl(milliseconds) => { reply := store.Ttl(key, now, milliseconds); TtlKeeps(old(store.items), key, now, milliseconds); }
      case Persist => { reply := store.Persist(key, now); }
    }
  }

  lemma GetKeeps(cell: Cell)
    ensures GetAct(cell).cell == cell
  {
  }

  lemma TtlKeeps(items: Db, key: Str, now: nat, milliseconds: bool)
    ensures var cell := Lookup(LiveItems(items, now), key);
            (cell.Some? ==> Alive(cell.value.expireAt, now)) && TtlAct(cell, now, milliseconds).cell == cell
  {
  }

  /** One operation of the real store answers, and changes the live view, as Apply says. */
  method Execute(store: Store, clock: Clock, op: Op) returns (reply: Reply)
    requires store.Valid() && Legal(op)
    modifies store
    ensures store.Valid()
    ensures AllAlive(old(store.Live(clock.now)), clock.now)
    ensures var o := Apply(old(store.Live(clock.now)), clock, op);
            reply == o.reply && store.Live(clock.now) == o.db
    ensures old(store.NoEmpty()) && !AddsNothing(op) ==> store.NoEmpty()
    ensures old(store.Exact()) && !Uncharged(old(store.Live(clock.now)), op) ==> store.Exact()
  {
    hide Total, IndexOf, Store.Shaped, NoEmptyIn, Act, Lookup, Update, MsetDb, MgetReply, ExistsCount, DelDb, DelCount,
      RestoreDb;
    var now := clock.now;
    match op {
      case On(key, a) => { reply := ExecuteOn(store, clock, key, a); }
      case Mset(pairs) => { reply := store.Mset(pairs, now); }
      case Mget(keys) => { reply := store.Mget(keys, now); }
      case Exists(keys) => { reply := store.Exists(keys, now); }
      case Del(keys) => { reply := store.Del(keys, now); }
      case Flushdb => { reply := store.Flushdb(); assert store.Live(now) == map[]; }
      case Size => { var n := store.Size(now); reply := Count(n); }
      case ExpiresSize => { var n := store.ExpiresSize(now); reply := Count(n); }
      case Sweep(batchLimit) => { store.EvictExpired(batchLimit, now); reply := Applied; }
      case Restore(e) => { Dump.RestoreEntry(store, e, clock); reply := Applied; }
    }
  }

  /** Actions that work on the value an entry already has. */
  predicate OnValue(a: Action) {
    !a.Set? && !a.Setex? && !a.Expire? && !a.ExpireAt? && !a.Persist?
  }

  /** INCR, DECR, and everything on hashes, sets, sorted sets and lists, keep the deadline of a key that
      stays, and give none to a key they create. */
  lemma DeadlineKept(cell: Cell, clock: Clock, a: Action)
    requires cell.Some? ==> Alive(cell.value.expireAt, clock.now)
    requires OnValue(a)
    ensures var after := Act(cell, clock, a).cell; after.Some? ==> after.value.expireAt == DeadlineOf(cell)
  {
    hide ParseInt64, ParseHashInteger, SignedDigits, FromChars, Overlay, Members, Reversed, Added;
  }

  // ----- runs

  datatype Trace = Trace(db: Db, replies: seq<Reply>)

  /** The run of one flat map, from which expired items vanish by themselves. */
  function Simulate(db: Db, steps: seq<Step>): (t: Trace)
    ensures |t.replies| == |steps|
  {
    if steps == [] then Trace(db, [])
    else
      var n := |steps| - 1;
      var before := Simulate(db, steps[..n]);
      var o := Apply(LiveItems(before.db, steps[n].clock.now), steps[n].clock, steps[n].op);
      Trace(o.db, before.replies + [o.reply])
  }

  /** Time does not go back. */
  predicate InOrder(steps: seq<Step>) {
    forall i, j :: 0 <= i <= j < |steps| ==> steps[i].clock.now <= steps[j].clock.now
  }

  /** Two maps no later observation can tell apart. */
  ghost predicate SameFrom(a: Db, b: Db, now: nat) {
    forall t: nat :: t >= now ==> LiveItems(a, t) == LiveItems(b, t)
  }

  lemma LiveLater(db: Db, early: nat, late: nat)
    requires early <= late
    ensures LiveItems(LiveItems(db, early), late) == LiveItems(db, late)
  {
  }

  /** Expired items never come back, so agreement now is agreement for ever. */
  lemma AgreeForEver(a: Db, b: Db, now: nat)
    requires LiveItems(a, now) == LiveItems(b, now)
    ensures SameFrom(a, b, now)
  {
    hide LiveItems;
    forall t: nat | t >= now ensures LiveItems(a, t) == LiveItems(b, t) {
      LiveLater(a, now, t);
      LiveLater(b, now, t);
    }
  }

  lemma LiveIdempotent(db: Db, now: nat)
    ensures LiveItems(LiveItems(db, now), now) == LiveItems(db, now)
  {
  }

  /** In the first n steps of the run neither hsetnx nor sadd creates a key. */
  ghost predicate Charged(db: Db, steps: seq<Step>, n: nat)
    requires n <= |steps|
  {
    forall i :: 0 <= i < n ==>
      !Uncharged(LiveItems(Simulate(db, steps[..i]).db, steps[i].clock.now), steps[i].op)
  }

  /** Refinement of whole runs: the sharded store, with its lazy deletion, sweeps, index and counter,
      answers every sequence of operations at non-decreasing times as the flat map does, and stays
      indistinguishable from it at every later time. The counter stays the sum of the estimates as
      long as hsetnx and sadd create no key, and at most that sum in any case. */
  method ExecuteAll(store: Store, steps: seq<Step>) returns (replies: seq<Reply>)
    requires store.Valid() && InOrder(steps) && forall i :: 0 <= i < |steps| ==> Legal(steps[i].op)
    modifies store
    ensures store.Valid()
    ensures replies == Simulate(old(store.items), steps).replies
    ensures SameFrom(store.items, Simulate(old(store.items), steps).db, if steps == [] then 0 else steps[|steps| - 1].clock.now)
    ensures old(store.NoEmpty()) && (forall i :: 0 <= i < |steps| ==> !AddsNothing(steps[i].op)) ==> store.NoEmpty()
    ensures old(store.Exact()) && Charged(old(store.items), steps, |steps|) ==> store.Exact()
  {
    hide Total, IndexOf, Store.Shaped, NoEmptyIn, LiveItems, Apply, Legal, AddsNothing, Uncharged;
    replies := [];
    ghost var db := store.items;
    for i := 0 to |steps|
      invariant store.Valid() && replies == Simulate(db, steps[..i]).replies
      invariant SameFrom(store.items, Simulate(db, steps[..i]).db, if i == 0 then 0 else steps[i - 1].clock.now)
      invariant old(store.NoEmpty()) && (forall j :: 0 <= j < i ==> !AddsNothing(steps[j].op)) ==> store.NoEmpty()
      invariant old(store.Exact()) && Charged(db, steps, i) ==> store.Exact()
    {
      var now := steps[i].clock.now;
      assert steps[..i + 1][..i] == steps[..i] && steps[..i + 1][i] == steps[i];
      assert store.Live(now) == LiveItems(Simulate(db, steps[..i]).db, now);
      ghost var o := Apply(store.Live(now), steps[i].clock, steps[i].op);
      var reply := Execute(store, steps[i].clock, steps[i].op);
      LiveIdempotent(store.items, now);
      AgreeForEver(store.items, o.db, now);
      replies := replies + [reply];
    }
    assert steps[..|steps|] == steps;
  }

  /** Only the live view at the start matters. */
  lemma {:induction false} LiveViewSuffices(a: Db, b: Db, steps: seq<Step>, now: nat)
    requires LiveItems(a, now) == LiveItems(b, now) && InOrder(steps)
    requires forall i :: 0 <= i < |steps| ==> now <= steps[i].clock.now
    ensures Simulate(a, steps).replies == Simulate(b, steps).replies
    ensures SameFrom(Simulate(a, steps).db, Simulate(b, steps).db, if steps == [] then now else steps[|steps| - 1].clock.now)
  {
    hide LiveItems, Apply;
    if steps == [] {
      AgreeForEver(a, b, now);
    } else {
      LiveViewSuffices(a, b, steps[..|steps| - 1], now);
    }
  }

  function Unswept(steps: seq<Step>): seq<Step> {
    if steps == [] then []
    else
      var n := |steps| - 1;
      if steps[n].op.Sweep? then Unswept(steps[..n]) else Unswept(steps[..n]) + [steps[n]]
  }

  function UnsweptReplies(steps: seq<Step>, replies: seq<Reply>): seq<Reply>
    requires |replies| == |steps|
    decreases |steps|
  {
    if steps == [] then []
    else
      var n := |steps| - 1;
      if steps[n].op.Sweep? then UnsweptReplies(steps[..n], replies[..n])
      else UnsweptReplies(steps[..n], replies[..n]) + [replies[n]]
  }

  lemma SweepApplied(db: Db, clock: Clock, op: Op)
    requires AllAlive(db, clock.now) && op.Sweep?
    ensures Apply(db, clock, op) == Outcome(db, Applied)
  {
  }

  /** Active expiry is unobservable: a run answers the same with its sweeps left out. */
  lemma {:induction false} SweepsUnobservable(db: Db, steps: seq<Step>)
    requires InOrder(steps)
    ensures UnsweptReplies(steps, Simulate(db, steps).replies) == Simulate(db, Unswept(steps)).replies
    ensures SameFrom(Simulate(db, steps).db, Simulate(db, Unswept(steps)).db, if steps == [] then 0 else steps[|steps| - 1].clock.now)
  {
    if steps != [] {
      var n := |steps| - 1;
      hide LiveItems, Apply;
      SweepsUnobservable(db, steps[..n]);
      var t := Simulate(db, steps);
      assert t.replies[..n] == Simulate(db, steps[..n]).replies;
      var now := steps[n].clock.now;
      var short := Unswept(steps[..n]);
      assert LiveItems(Simulate(db, steps[..n]).db, now) == LiveItems(Simulate(db, short).db, now);
      if steps[n].op.Sweep? {
        LiveIdempotent(Simulate(db, steps[..n]).db, now);
        SweepApplied(LiveItems(Simulate(db, steps[..n]).db, now), steps[n].clock, steps[n].op);
        AgreeForEver(t.db, Simulate(db, short).db, now);
      } else {
        assert (short + [steps[n]])[..|short|] == short;
      }
    }
  }
}
