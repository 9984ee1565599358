/** Log-replay simulation: replaying what dispatch logged rebuilds the store it logged from. */
module Replay {
  import opened Bytes
  import opened Keyspace
  import opened StoreModel
  import opened Runs
  import opened Commands
  import ValueLoops
  import Waiters

  // ----- the two stores agree

  /** The same value, a deadline on both sides or on neither, and, when tight, the same wall-clock
      deadline. a is kept on a clock that is ahead of the wall clock by -oa, b by -ob. */
  predicate CellsAgree(a: Cell, b: Cell, oa: int, ob: int, tight: bool) {
    (a.None? && b.None?)
    || (a.Some? && b.Some? && a.value.value == b.value.value
        && (a.value.expireAt == 0 <==> b.value.expireAt == 0)
        && (tight && a.value.expireAt != 0 ==> a.value.expireAt + oa == b.value.expireAt + ob))
  }

  /** Key by key, tight except where a relative expiry was logged as such. */
  ghost predicate Agree(a: Db, b: Db, oa: int, ob: int, loose: set<Str>) {
    forall k :: CellsAgree(Lookup(a, k), Lookup(b, k), oa, ob, k !in loose)
  }

  /** The clock of one process: steady and wall time advance together. */
  predicate Steady(clock: Clock, offset: int) { clock.wall - clock.now == offset }

  /** No deadline of the database is before the horizon. */
  ghost predicate Beyond(db: Db, offset: int, horizon: int) {
    forall k :: k in db && db[k].expireAt != 0 ==> db[k].expireAt + offset >= horizon
  }

  // ----- one operation on one key

  /** Actions replay meets: everything but the reads and the relative EXPIRE. */
  predicate Replayable(a: Action) { !a.Get? && !a.Ttl? && !a.Expire? }

  /** How an action leaves the tightness of its key. */
  predicate TightAfter(tight: bool, a: Action) {
    match a
    case Set(_, ttl, keepTtl, _, _) => ttl == 0 && tight
    case Setex(_, _) => false
    case _ => tight
  }

  predicate OnStrings(a: Action) { a.Set? || a.Setex? || a.IncrBy? || a.ExpireAt? || a.Persist? || a.Expire? || a.Get? || a.Ttl? }

  /** Actions on collections: only the value matters, and the deadline stays. */
  lemma CollectionActAgrees(a: Cell, b: Cell, oa: int, ob: int, ca: Clock, cb: Clock, act: Action, tight: bool)
    requires CellsAgree(a, b, oa, ob, tight) && !OnStrings(act)
    requires a.Some? ==> Alive(a.value.expireAt, ca.now)
    requires b.Some? ==> Alive(b.value.expireAt, cb.now)
    ensures CellsAgree(Act(a, ca, act).cell, Act(b, cb, act).cell, oa, ob, TightAfter(tight, act))
    ensures Act(a, ca, act).reply == Act(b, cb, act).reply
  {
    hide ParseInt64, ParseHashInteger, SignedDigits, FromChars, Overlay, Members, Reversed, Added, SetAct, SetexAct, IncrAct,
      PersistAct, ExpireAct, ExpireAtAct, GetAct, TtlAct;
  }

  lemma ActAgrees(a: Cell, b: Cell, oa: int, ob: int, ca: Clock, cb: Clock, act: Action, tight: bool)
    requires CellsAgree(a, b, oa, ob, tight) && Replayable(act) && !act.ExpireAt?
    requires a.Some? ==> Alive(a.value.expireAt, ca.now)
    requires b.Some? ==> Alive(b.value.expireAt, cb.now)
    requires act.Setex? ==> act.ttl > 0
    ensures CellsAgree(Act(a, ca, act).cell, Act(b, cb, act).cell, oa, ob, TightAfter(tight, act))
    ensures Act(a, ca, act).reply == Act(b, cb, act).reply
  {
    hide ParseInt64, SignedDigits, HsetAct, HsetnxAct, HincrbyAct, HdelAct, SaddAct, SremAct, ZaddAct, ZremAct, PushAct, PopAct;
    if !OnStrings(act) { CollectionActAgrees(a, b, oa, ob, ca, cb, act, tight); }
  }

  /** EXPIRE, and the PEXPIREAT it is logged as. */
  lemma ExpireAgrees(a: Cell, b: Cell, oa: int, ob: int, ca: Clock, cb: Clock, ttl: nat, tight: bool)
    requires CellsAgree(a, b, oa, ob, tight) && Steady(ca, oa) && Steady(cb, ob)
    requires ttl > 0 ==> cb.wall < ca.wall + ttl
    ensures var e := ExpireAct(a, ca, ttl);
            e.reply.Expiry?
            && (e.reply.changed == 0 ==> e.cell == a)
            && (e.reply.changed == 1 ==> CellsAgree(e.cell, ExpireAtAct(b, cb, e.reply.deadline).cell, oa, ob, true))
  {
  }

  // ----- one operation on the whole map

  lemma AgreeAt(a: Db, b: Db, oa: int, ob: int, loose: set<Str>, k: Str)
    requires Agree(a, b, oa, ob, loose)
    ensures CellsAgree(Lookup(a, k), Lookup(b, k), oa, ob, k !in loose)
  {
  }

  lemma UpdateAgrees(a: Db, b: Db, oa: int, ob: int, loose: set<Str>, key: Str, x: Cell, y: Cell, after: set<Str>)
    requires Agree(a, b, oa, ob, loose) && CellsAgree(x, y, oa, ob, key !in after) && after - {key} == loose - {key}
    ensures Agree(Update(a, key, x), Update(b, key, y), oa, ob, after)
  {
    hide CellsAgree;
    forall k ensures CellsAgree(Lookup(Update(a, key, x), k), Lookup(Update(b, key, y), k), oa, ob, k !in after) {
      if k == key {
        UpdateHere(a, key, x);
        UpdateHere(b, key, y);
      } else {
        UpdateThere(a, key, x, k);
        UpdateThere(b, key, y, k);
        assert k in after <==> k in after - {key};
        assert k in loose <==> k in loose - {key};
        AgreeAt(a, b, oa, ob, loose, k);
      }
    }
  }

  lemma UpdateHere(db: Db, key: Str, cell: Cell)
    ensures Lookup(Update(db, key, cell), key) == cell
  {
  }

  lemma UpdateThere(db: Db, key: Str, cell: Cell, k: Str)
    requires k != key
    ensures Lookup(Update(db, key, cell), k) == Lookup(db, k)
  {
  }

  lemma SameKeys(a: Db, b: Db, oa: int, ob: int, loose: set<Str>)
    requires Agree(a, b, oa, ob, loose)
    ensures a.Keys == b.Keys
  {
    forall k ensures k in a.Keys <==> k in b.Keys { AgreeAt(a, b, oa, ob, loose, k); }
  }

  lemma {:induction false} MsetAgrees(a: Db, b: Db, oa: int, ob: int, loose: set<Str>, pairs: seq<(Str, Str)>)
    requires Agree(a, b, oa, ob, loose)
    ensures Agree(MsetDb(a, pairs), MsetDb(b, pairs), oa, ob, loose)
  {
    hide Agree;
    if pairs != [] {
      var n := |pairs| - 1;
      MsetAgrees(a, b, oa, ob, loose, pairs[..n]);
      var item := Item(StringV(pairs[n].1), 0);
      UpdateAgrees(MsetDb(a, pairs[..n]), MsetDb(b, pairs[..n]), oa, ob, loose, pairs[n].0, Some(item), Some(item), loose);
    }
  }

  lemma DelAgrees(a: Db, b: Db, oa: int, ob: int, loose: set<Str>, keys: seq<Str>)
    requires Agree(a, b, oa, ob, loose)
    ensures Agree(DelDb(a, keys), DelDb(b, keys), oa, ob, loose)
  {
    hide CellsAgree, Members;
    forall k ensures CellsAgree(Lookup(DelDb(a, keys), k), Lookup(DelDb(b, keys), k), oa, ob, k !in loose) {
      AgreeAt(a, b, oa, ob, loose, k);
      NoneAgree(oa, ob, k !in loose);
    }
  }

  lemma NoneAgree(oa: int, ob: int, tight: bool)
    ensures CellsAgree(None, None, oa, ob, tight)
  {
  }

  /** SET EX, SET PX and SETEX are logged with their duration. */
  predicate Relative(a: Action) { a.Setex? || (a.Set? && a.ttl != 0) }

  /** The keys whose deadline, if any, was last set by a relative option. */
  function LooseAfter(loose: set<Str>, op: Op): set<Str> {
    if !op.On? then loose
    else if Relative(op.action) then loose + {op.key}
    else if op.action.Expire? then loose - {op.key}
    else loose
  }

  /** The operations Handle produces. */
  predicate Handled(op: Op) {
    Legal(op) && !AddsNothing(op)
    && (op.On? ==> !op.action.Get? && !op.action.Ttl? && !op.action.ExpireAt? && (op.action.Push? ==> op.action.names != []))
    && (op.On? || op.Mset? || op.Del? || op.Flushdb?)
  }

  lemma HandleGives(args: Command, scores: ScoreTexts)
    requires Handle(args, scores).Write?
    ensures Handled(Handle(args, scores).op)
  {
    hide VerbOf, Options, FromChars, Stoll, Stoull, ParseHashInteger, Pairs, ScorePairs, Digits;
    ReplayReadsHandled(args, scores);
    if VerbOf(args[0]).ZADD? { SomeScores(args[2..], scores); }
  }

  /** An operation, and what replay makes of the command it was logged as, keep two stores in
      agreement. */
  lemma LoggedAgrees(a: Db, b: Db, oa: int, ob: int, loose: set<Str>, ca: Clock, cb: Clock, args: Command, scores: ScoreTexts)
    requires Handle(args, scores).Write?
    requires Agree(a, b, oa, ob, loose) && AllAlive(a, ca.now) && AllAlive(b, cb.now)
    requires Steady(ca, oa) && Steady(cb, ob)
    requires var op := Handle(args, scores).op;
             op.On? && op.action.Expire? && op.action.ttl > 0 ==> cb.wall < ca.wall + op.action.ttl <= UINT64_MAX
    ensures var op := Handle(args, scores).op; var o := Apply(a, ca, op); var l := Logged(args, op, o.reply);
            l.Some? ==> ReplayOp(l.value, scores).Some?
                        && Agree(o.db, Apply(b, cb, ReplayOp(l.value, scores).value).db, oa, ob, LooseAfter(loose, op))
  {
    hide Handle, ReplayOp, Agree, Act, CellsAgree, Update, Lookup, MsetDb, DelDb, DelCount, LooseAfter, Handled;
    HandleGives(args, scores);
    ReplayReadsHandled(args, scores);
    var op := Handle(args, scores).op;
    LoggedAsIs(args, op, Apply(a, ca, op).reply);
    match op
    case On(key, act) =>
      if act.Expire? {
        LoggedExpire(a, b, oa, ob, loose, ca, cb, args, key, act.ttl, scores);
      } else {
        OnAgrees(a, b, oa, ob, loose, ca, cb, key, act);
      }
    case Mset(pairs) => MsetAgrees(a, b, oa, ob, loose, pairs); LooseSame(loose, op);
    case Del(keys) => DelAgrees(a, b, oa, ob, loose, keys); LooseSame(loose, op);
    case _ => EmptyAgree(oa, ob, loose); LooseSame(loose, op); HandledOnly(op);
  }

  lemma HandledOnly(op: Op)
    requires Handled(op)
    ensures op.On? || op.Mset? || op.Del? || op.Flushdb?
  {
  }

  lemma LooseSame(loose: set<Str>, op: Op)
    requires !op.On?
    ensures LooseAfter(loose, op) == loose
  {
  }

  lemma EmptyAgree(oa: int, ob: int, loose: set<Str>)
    ensures Agree(map[], map[], oa, ob, loose)
  {
  }

  lemma LoggedAsIs(args: Command, op: Op, reply: Reply)
    ensures !(op.On? && op.action.Expire?) && Logged(args, op, reply).Some? ==> Logged(args, op, reply).value == args
  {
  }

  lemma OnAgrees(a: Db, b: Db, oa: int, ob: int, loose: set<Str>, ca: Clock, cb: Clock, key: Str, act: Action)
    requires Agree(a, b, oa, ob, loose) && AllAlive(a, ca.now) && AllAlive(b, cb.now)
    requires Handled(On(key, act)) && !act.Expire?
    ensures Agree(Apply(a, ca, On(key, act)).db, Apply(b, cb, On(key, act)).db, oa, ob, LooseAfter(loose, On(key, act)))
  {
    hide Agree, Act, CellsAgree, Update;
    AgreeAt(a, b, oa, ob, loose, key);
    var x, y := Lookup(a, key), Lookup(b, key);
    ActAgrees(x, y, oa, ob, ca, cb, act, key !in loose);
    var after := LooseAfter(loose, On(key, act));
    WeakerAgree(Act(x, ca, act).cell, Act(y, cb, act).cell, oa, ob, TightAfter(key !in loose, act), key !in after);
    UpdateAgrees(a, b, oa, ob, loose, key, Act(x, ca, act).cell, Act(y, cb, act).cell, after);
  }

  lemma RelativeCell(x: Cell, y: Cell, oa: int, ob: int, ca: Clock, cb: Clock, act: Action, tight: bool)
    requires CellsAgree(x, y, oa, ob, tight) && Relative(act) && (act.Setex? ==> act.ttl > 0)
    requires x.Some? ==> Alive(x.value.expireAt, ca.now)
    requires y.Some? ==> Alive(y.value.expireAt, cb.now)
    requires Steady(ca, oa) && Steady(cb, ob) && Act(x, ca, act).reply.Applied?
    ensures CellsAgree(Act(x, ca, act).cell, Act(y, cb, act).cell, oa, ob, true) <==> ca.wall == cb.wall
  {
  }

  /** The deadline such a command sets is the original one exactly when the command is replayed at the
      wall-clock time of its first execution. */
  lemma RelativeTightIff(a: Db, b: Db, oa: int, ob: int, loose: set<Str>, ca: Clock, cb: Clock, args: Command, key: Str, act: Action,
                         scores: ScoreTexts)
    requires Agree(a, b, oa, ob, loose) && AllAlive(a, ca.now) && AllAlive(b, cb.now) && Steady(ca, oa) && Steady(cb, ob)
    requires Handle(args, scores) == Write(On(key, act)) && Relative(act) && Act(Lookup(a, key), ca, act).reply.Applied?
    ensures ReplayOp(args, scores) == Some(On(key, act))
    ensures Agree(Apply(a, ca, On(key, act)).db, Apply(b, cb, On(key, act)).db, oa, ob, loose - {key}) <==> ca.wall == cb.wall
  {
    hide Handle, ReplayOp, Agree, Act, CellsAgree, Update;
    ReplayReadsHandled(args, scores);
    AgreeAt(a, b, oa, ob, loose, key);
    var x, y := Lookup(a, key), Lookup(b, key);
    RelativeCell(x, y, oa, ob, ca, cb, act, key !in loose);
    var x', y' := Act(x, ca, act).cell, Act(y, cb, act).cell;
    UpdateHere(a, key, x');
    UpdateHere(b, key, y');
    if ca.wall == cb.wall { UpdateAgrees(a, b, oa, ob, loose, key, x', y', loose - {key}); }
    var s, t := Update(a, key, x'), Update(b, key, y');
    if Agree(s, t, oa, ob, loose - {key}) { AgreeAt(s, t, oa, ob, loose - {key}, key); }
  }

  lemma WeakerAgree(x: Cell, y: Cell, oa: int, ob: int, strong: bool, weak: bool)
    requires CellsAgree(x, y, oa, ob, strong) && (weak ==> strong)
    ensures CellsAgree(x, y, oa, ob, weak)
  {
  }

  lemma LoggedExpire(a: Db, b: Db, oa: int, ob: int, loose: set<Str>, ca: Clock, cb: Clock, args: Command, key: Str, ttl: nat,
                     scores: ScoreTexts)
    requires Agree(a, b, oa, ob, loose) && AllAlive(a, ca.now) && AllAlive(b, cb.now) && Steady(ca, oa) && Steady(cb, ob)
    requires ttl > 0 ==> cb.wall < ca.wall + ttl <= UINT64_MAX
    ensures var op := On(key, Expire(ttl)); var o := Apply(a, ca, op); var l := Logged(args, op, o.reply);
            l.Some? ==> ReplayOp(l.value, scores).Some?
                        && Agree(o.db, Apply(b, cb, ReplayOp(l.value, scores).value).db, oa, ob, LooseAfter(loose, op))
  {
    hide Agree, CellsAgree, Update, ReplayOp, ExpireAct, ExpireAtAct, Lookup, Text, Digits;
    AgreeAt(a, b, oa, ob, loose, key);
    var x, y := Lookup(a, key), Lookup(b, key);
    ExpireAgrees(x, y, oa, ob, ca, cb, ttl, key !in loose);
    var e := ExpireAct(x, ca, ttl);
    if e.reply.changed == 1 {
      DeadlineFits(x, ca, ttl);
      PexpireatReplays(key, e.reply.deadline, scores);
      UpdateAgrees(a, b, oa, ob, loose, key, e.cell, ExpireAtAct(y, cb, e.reply.deadline).cell, loose - {key});
    }
  }

  lemma DeadlineFits(x: Cell, ca: Clock, ttl: nat)
    requires ttl > 0 ==> ca.wall + ttl <= UINT64_MAX
    ensures ExpireAct(x, ca, ttl).reply.Expiry? && ExpireAct(x, ca, ttl).reply.deadline <= UINT64_MAX
  {
  }

  lemma PexpireatReplays(key: Str, deadline: nat, scores: ScoreTexts)
    requires deadline <= UINT64_MAX
    ensures ReplayOp([Text("PEXPIREAT"), key, Digits(deadline)], scores) == Some(On(key, ExpireAt(deadline)))
  {
    hide Digits, Stoull, Text, VerbOf;
    StoullDigits(deadline);
    PexpireatVerb();
  }

  lemma PexpireatVerb()
    ensures VerbOf(Text("PEXPIREAT")) == PEXPIREAT
  {
    var name := Text("PEXPIREAT");
    assert UpperAll(name) == name;
    assert |name| != |Text("SET")|;
  }

  // ----- what is not logged changes nothing

  lemma UnloggedStrings(a: Cell, clock: Clock, act: Action, args: Command, key: Str)
    requires OnStrings(act) && Handled(On(key, act)) && (a.Some? ==> Alive(a.value.expireAt, clock.now))
    requires Logged(args, On(key, act), Act(a, clock, act).reply).None?
    ensures Act(a, clock, act).cell == a
  {
    hide ParseInt64, SignedDigits, FromChars, HsetAct, HsetnxAct, HincrbyAct, HdelAct, SaddAct, SremAct, ZaddAct, ZremAct,
      PushAct, PopAct;
  }

  predicate Counts(reply: Reply) { reply.Count? && reply.count > 0 }

  lemma HdelUnchanged(a: Cell, names: seq<Str>)
    requires a.Some? ==> !EmptyValue(a.value.value)
    ensures !Counts(HdelAct(a, names).reply) ==> HdelAct(a, names).cell == a
  {
    hide Members;
    if a.Some? && a.value.value.HashV? { NothingRemoved(a.value.value.fields, Members(names)); }
  }

  lemma ZremUnchanged(a: Cell, names: seq<Str>)
    requires a.Some? ==> !EmptyValue(a.value.value)
    ensures !Counts(ZremAct(a, names).reply) ==> ZremAct(a, names).cell == a
  {
    hide Members;
    if a.Some? && a.value.value.ZSetV? { NothingRemoved(a.value.value.scores, Members(names)); }
  }

  lemma SremUnchanged(a: Cell, names: seq<Str>)
    requires a.Some? ==> !EmptyValue(a.value.value)
    ensures !Counts(SremAct(a, names).reply) ==> SremAct(a, names).cell == a
  {
    hide Members;
    if a.Some? && a.value.value.SetV? { NothingLost(a.value.value.members, Members(names)); }
  }

  lemma SaddUnchanged(a: Cell, names: seq<Str>)
    requires names != []
    ensures !Counts(SaddAct(a, names).reply) ==> SaddAct(a, names).cell == a
  {
    hide Members;
    ValueLoops.SomeMember(names);
    if a.None? || a.value.value.SetV? { NothingGained(SetOf(a), Members(names)); }
  }

  lemma UnloggedCollections(a: Cell, clock: Clock, act: Action, args: Command, key: Str)
    requires !OnStrings(act) && (a.Some? ==> Alive(a.value.expireAt, clock.now) && !EmptyValue(a.value.value))
    requires Handled(On(key, act))
    requires Logged(args, On(key, act), Act(a, clock, act).reply).None?
    ensures Act(a, clock, act).cell == a
  {
    hide ParseHashInteger, SignedDigits, FromChars, Overlay, Reversed, Added, Members, SetAct, SetexAct, IncrAct,
      PersistAct, ExpireAct, ExpireAtAct, GetAct, TtlAct, HdelAct, ZremAct, SremAct, SaddAct, EmptyValue;
    match act
    case Hdel(names) => HdelUnchanged(a, names);
    case Zrem(names) => ZremUnchanged(a, names);
    case Srem(names) => SremUnchanged(a, names);
    case Sadd(names) => SaddUnchanged(a, names);
    case _ =>
  }

  lemma NothingRemoved<V>(m: map<Str, V>, s: set<Str>)
    ensures |m.Keys * s| == 0 ==> m - s == m
  {
    if |m.Keys * s| == 0 {
      forall x | x in m ensures x !in s { assert x !in m.Keys * s; }
    }
  }

  lemma NothingLost(m: set<Str>, s: set<Str>)
    ensures |m * s| == 0 ==> m - s == m
  {
    if |m * s| == 0 {
      forall x | x in m ensures x !in s { assert x !in m * s; }
    }
  }

  lemma NothingGained(m: set<Str>, s: set<Str>)
    ensures |s - m| == 0 ==> m + s == m
  {
    if |s - m| == 0 {
      forall x | x in s ensures x in m { assert x !in s - m; }
    }
  }

  /** A write that is not logged has changed nothing. */
  lemma UnloggedSame(db: Db, clock: Clock, args: Command, op: Op)
    requires AllAlive(db, clock.now) && NoEmptyIn(db) && Handled(op)
    requires Logged(args, op, Apply(db, clock, op).reply).None?
    ensures Apply(db, clock, op).db == db
  {
    hide Act, Update, Lookup, DelDb, DelCount, NoEmptyIn, EmptyValue;
    match op
    case On(key, act) =>
      NoEmptyAt(db, key, clock.now);
      if OnStrings(act) { UnloggedStrings(Lookup(db, key), clock, act, args, key); }
      else { UnloggedCollections(Lookup(db, key), clock, act, args, key); }
      UpdateSame(db, key);
    case Del(keys) => NothingDeleted(db, keys);
    case _ => HandledOnly(op);
  }

  lemma NoEmptyAt(db: Db, key: Str, now: nat)
    requires NoEmptyIn(db) && AllAlive(db, now)
    ensures var a := Lookup(db, key); a.Some? ==> Alive(a.value.expireAt, now) && !EmptyValue(a.value.value)
  {
  }

  lemma NothingDeleted(db: Db, keys: seq<Str>)
    ensures DelCount(db, keys) == 0 ==> DelDb(db, keys) == db
  {
    NothingRemoved(db, Members(keys));
  }

  // ----- no empty collections, no early deadlines

  lemma StringsNoEmpty(a: Cell, clock: Clock, act: Action)
    requires OnStrings(act) && (a.Some? ==> Alive(a.value.expireAt, clock.now) && !EmptyValue(a.value.value))
    ensures var c := Act(a, clock, act).cell; c.Some? ==> !EmptyValue(c.value.value)
  {
    hide ParseInt64, SignedDigits, HsetAct, HsetnxAct, HincrbyAct, HdelAct, SaddAct, SremAct, ZaddAct, ZremAct, PushAct, PopAct;
  }

  predicate OnHashes(a: Action) { a.Hset? || a.Hsetnx? || a.Hincrby? || a.Hdel? }

  lemma HashesNoEmpty(a: Cell, clock: Clock, act: Action)
    requires OnHashes(act) && (a.Some? ==> Alive(a.value.expireAt, clock.now) && !EmptyValue(a.value.value))
    ensures var c := Act(a, clock, act).cell; c.Some? ==> !EmptyValue(c.value.value)
  {
    hide Added, Members, Overlay, HincrbyAct, SetAct, SetexAct, IncrAct, PersistAct, ExpireAct, ExpireAtAct, GetAct, TtlAct,
      SaddAct, SremAct, ZaddAct, ZremAct, PushAct, PopAct;
    match act
    case Hset(pairs) => if pairs != [] && (a.None? || a.value.value.HashV?) { FieldStays(a, pairs); }
    case Hsetnx(field, value) => if a.None? || a.value.value.HashV? { FieldPut(a, field, value); }
    case Hincrby(field, delta) => SumPut(a, field, delta);
    case _ =>
  }

  lemma SetsNoEmpty(a: Cell, clock: Clock, act: Action)
    requires (act.Sadd? && act.names != []) || act.Srem?
    requires a.Some? ==> Alive(a.value.expireAt, clock.now) && !EmptyValue(a.value.value)
    ensures var c := Act(a, clock, act).cell; c.Some? ==> !EmptyValue(c.value.value)
  {
    hide SaddAct, SremAct, EmptyValue;
    if act.Sadd? { SaddNoEmpty(a, act.names); } else { SremNoEmpty(a, act.names); }
  }

  lemma SaddNoEmpty(a: Cell, names: seq<Str>)
    requires names != [] && (a.Some? ==> !EmptyValue(a.value.value))
    ensures var c := SaddAct(a, names).cell; c.Some? ==> !EmptyValue(c.value.value)
  {
    hide Members;
    ValueLoops.SomeMember(names);
  }

  lemma SremNoEmpty(a: Cell, names: seq<Str>)
    requires a.Some? ==> !EmptyValue(a.value.value)
    ensures var c := SremAct(a, names).cell; c.Some? ==> !EmptyValue(c.value.value)
  {
    hide Members;
  }

  lemma CollectionsNoEmpty(a: Cell, clock: Clock, act: Action)
    requires act.Zadd? || act.Zrem? || act.Push? || act.Pop?
    requires (act.Zadd? ==> act.scores != []) && (act.Push? ==> act.names != [])
    requires a.Some? ==> Alive(a.value.expireAt, clock.now) && !EmptyValue(a.value.value)
    ensures var c := Act(a, clock, act).cell; c.Some? ==> !EmptyValue(c.value.value)
  {
    hide Reversed, Added, Members, Overlay;
    if act.Zadd? && (a.None? || a.value.value.ZSetV?) { ScoreStays(a, act.scores); }
  }

  lemma ActNoEmpty(a: Cell, clock: Clock, act: Action, key: Str)
    requires Handled(On(key, act)) && (a.Some? ==> Alive(a.value.expireAt, clock.now) && !EmptyValue(a.value.value))
    ensures var c := Act(a, clock, act).cell; c.Some? ==> !EmptyValue(c.value.value)
  {
    hide Act, EmptyValue;
    if OnStrings(act) { StringsNoEmpty(a, clock, act); }
    else if OnHashes(act) { HashesNoEmpty(a, clock, act); }
    else if act.Sadd? || act.Srem? { SetsNoEmpty(a, clock, act); }
    else { CollectionsNoEmpty(a, clock, act); }
  }

  lemma FieldStays(a: Cell, pairs: seq<(Str, Str)>)
    requires pairs != [] && (a.Some? ==> a.value.value.HashV?)
    ensures Overlay(HashOf(a), pairs) != map[]
  {
    assert pairs[0].0 in Overlay(HashOf(a), pairs);
  }

  lemma ScoreStays(a: Cell, pairs: seq<(Str, Score)>)
    requires pairs != [] && (a.Some? ==> a.value.value.ZSetV?)
    ensures Overlay(ZSetOf(a), pairs) != map[]
  {
    assert pairs[0].0 in Overlay(ZSetOf(a), pairs);
  }

  lemma FieldPut(a: Cell, field: Str, value: Str)
    requires a.Some? ==> a.value.value.HashV?
    ensures HashOf(a)[field := value] != map[]
  {
    assert field in HashOf(a)[field := value];
  }

  lemma SumPut(a: Cell, field: Str, delta: int)
    requires a.Some? ==> !EmptyValue(a.value.value)
    ensures var c := HincrbyAct(a, field, delta).cell; c.Some? ==> !EmptyValue(c.value.value)
  {
    hide ParseHashInteger, SignedDigits;
    if a.None? || a.value.value.HashV? {
      var c := HincrbyAct(a, field, delta).cell;
      if c.Some? && c != a { assert field in c.value.value.fields; }
    }
  }

  lemma ApplyNoEmpty(db: Db, clock: Clock, op: Op)
    requires Handled(op) && AllAlive(db, clock.now) && NoEmptyIn(db)
    ensures NoEmptyIn(Apply(db, clock, op).db)
  {
    match op
    case On(key, act) =>
      hide Act, EmptyValue;
      NoEmptyAt(db, key, clock.now);
      ActNoEmpty(Lookup(db, key), clock, act, key);
    case Mset(pairs) => MsetNoEmpty(db, pairs);
    case _ =>
  }

  lemma {:induction false} MsetNoEmpty(db: Db, pairs: seq<(Str, Str)>)
    requires NoEmptyIn(db)
    ensures NoEmptyIn(MsetDb(db, pairs))
  {
    if pairs != [] { MsetNoEmpty(db, pairs[..|pairs| - 1]); }
  }

  /** The deadline an action sets, if it sets one, as a duration from its clock. */
  function NewTtl(a: Action): nat {
    match a
    case Set(_, ttl, _, _, _) => ttl
    case Setex(ttl, _) => ttl
    case Expire(ttl) => ttl
    case _ => 0
  }

  predicate SetsLate(op: Op, clock: Clock, horizon: int) {
    op.On? && NewTtl(op.action) > 0 ==> clock.wall + NewTtl(op.action) >= horizon
  }

  lemma ActBeyond(a: Cell, clock: Clock, act: Action, offset: int, horizon: int)
    requires !act.ExpireAt? && Steady(clock, offset) && (a.Some? ==> Alive(a.value.expireAt, clock.now))
    requires a.Some? && a.value.expireAt != 0 ==> a.value.expireAt + offset >= horizon
    requires NewTtl(act) > 0 ==> clock.wall + NewTtl(act) >= horizon
    requires act.Setex? ==> act.ttl > 0
    ensures var c := Act(a, clock, act).cell; c.Some? && c.value.expireAt != 0 ==> c.value.expireAt + offset >= horizon
  {
    hide ParseInt64, ParseHashInteger, SignedDigits, FromChars, Reversed, Added, Members, Overlay;
  }

  lemma ApplyBeyond(db: Db, clock: Clock, op: Op, offset: int, horizon: int)
    requires Handled(op) && AllAlive(db, clock.now) && Beyond(db, offset, horizon) && Steady(clock, offset)
    requires SetsLate(op, clock, horizon)
    ensures Beyond(Apply(db, clock, op).db, offset, horizon)
  {
    match op
    case On(key, act) =>
      hide Act;
      ActBeyond(Lookup(db, key), clock, act, offset, horizon);
    case Mset(pairs) => MsetBeyond(db, pairs, offset, horizon);
    case _ =>
  }

  lemma {:induction false} MsetBeyond(db: Db, pairs: seq<(Str, Str)>, offset: int, horizon: int)
    requires Beyond(db, offset, horizon)
    ensures Beyond(MsetDb(db, pairs), offset, horizon)
  {
    if pairs != [] { MsetBeyond(db, pairs[..|pairs| - 1], offset, horizon); }
  }

  /** Before the horizon nothing has expired. */
  lemma BeyondAlive(db: Db, clock: Clock, offset: int, horizon: int)
    requires Beyond(db, offset, horizon) && Steady(clock, offset) && clock.wall < horizon
    ensures LiveItems(db, clock.now) == db && AllAlive(db, clock.now)
  {
  }

  // ----- runs

  /** A command of some client, the time it is executed at, and the clients that wait on lists then. */
  datatype Request = Request(clock: Clock, args: Command, waiting: seq<Waiters.Waiter>)

  /** The live store, what has been logged, and the keys with a relative deadline. */
  datatype Live = Live(db: Db, log: seq<Command>, loose: set<Str>)

  /** A successful push lets a waiting client pop at once, which is not logged either. */
  function Performed(o: Outcome, op: Op, waiting: seq<Waiters.Waiter>): Db {
    if op.On? && op.action.Push? && op.action.names != [] && o.reply.Count? then
      Waiters.Notifying(waiting, [], op.key, o.db).db
    else o.db
  }

  function LiveStep(l: Live, r: Request, scores: ScoreTexts): Live {
    var db := LiveItems(l.db, r.clock.now);
    match Handle(r.args, scores)
    case Reject => l.(db := db)
    case BlockingPop(keys, _) => l.(db := Waiters.TryPop(db, keys).db)
    case ZeroPop(key) =>
      if key in db && !db[key].value.ListV? then l.(db := db) else Live(db, l.log + [r.args], l.loose)
    case Write(op) =>
      var o := Apply(db, r.clock, op);
      var logged := Logged(r.args, op, o.reply);
      var after := Performed(o, op, r.waiting);
      if logged.None? then l.(db := after) else Live(after, l.log + [logged.value], LooseAfter(l.loose, op))
  }

  function LiveRun(start: Live, requests: seq<Request>, scores: ScoreTexts): Live {
    if requests == [] then start
    else LiveStep(LiveRun(start, requests[..|requests| - 1], scores), requests[|requests| - 1], scores)
  }

  /** A store as it stands, with nothing logged yet and all deadlines absolute. */
  function Fresh(db: Db): Live { Live(db, [], {}) }

  function ReplayStep(db: Db, clock: Clock, args: Command, scores: ScoreTexts): Db {
    var live := LiveItems(db, clock.now);
    var op := ReplayOp(args, scores);
    if op.None? then live else Apply(live, clock, op.value).db
  }

  /** Replaying a log, command i at clocks[i]. */
  function ReplayRun(db: Db, log: seq<Command>, clocks: seq<Clock>, scores: ScoreTexts): Db
    requires |log| == |clocks|
    decreases |log|
  {
    if log == [] then db
    else
      var n := |log| - 1;
      ReplayStep(ReplayRun(db, log[..n], clocks[..n], scores), clocks[n], log[n], scores)
  }

  /** With a list under key, the first of the keys that is present holds a list. */
  predicate FindsListOr(db: Db, key: Str, keys: seq<Str>)
    decreases |keys|
  {
    keys != []
    && if keys[0] == key then true
       else if keys[0] in db then db[keys[0]].value.ListV?
       else FindsListOr(db, key, keys[1..])
  }

  /** A push on key would serve one of the waiting clients. */
  predicate WouldServe(db: Db, key: Str, waiting: seq<Waiters.Waiter>) {
    (key in db ==> db[key].value.ListV?)
    && exists i :: 0 <= i < |waiting| && key in waiting[i].keys && FindsListOr(db, key, waiting[i].keys)
  }

  /** The hypotheses on one request: its deadline is late enough to pass neither during the run nor
      during the replay, it fits 64 bits, a pop of zero elements or a blocking pop finds no list, and a
      push serves no waiting client. */
  predicate Fair(db: Db, r: Request, scores: ScoreTexts, offset: int, horizon: int) {
    Steady(r.clock, offset) && r.clock.wall < horizon
    && match Handle(r.args, scores)
       case Reject => true
       case ZeroPop(key) => key in db ==> !db[key].value.ListV?
       case BlockingPop(keys, _) => !Waiters.FindsList(db, keys)
       case Write(op) =>
         SetsLate(op, r.clock, horizon)
         && (op.On? && op.action.Expire? ==> r.clock.wall + op.action.ttl <= UINT64_MAX)
         && (op.On? && op.action.Push? ==> !WouldServe(db, op.key, r.waiting))
  }

  ghost predicate FairRun(start: Live, requests: seq<Request>, scores: ScoreTexts, offset: int, horizon: int) {
    forall i :: 0 <= i < |requests| ==> Fair(LiveRun(start, requests[..i], scores).db, requests[i], scores, offset, horizon)
  }

  /** The replay starts after the run, and ends before any deadline. */
  predicate ReplayClocks(clocks: seq<Clock>, requests: seq<Request>, offset: int, horizon: int) {
    (forall j :: 0 <= j < |clocks| ==> Steady(clocks[j], offset) && clocks[j].wall < horizon)
    && (forall i, j :: 0 <= i < |requests| && 0 <= j < |clocks| ==> requests[i].clock.wall <= clocks[j].wall)
  }

  ghost predicate Mirrors(l: Live, replayed: Db, oa: int, ob: int, horizon: int) {
    Agree(l.db, replayed, oa, ob, l.loose) && NoEmptyIn(l.db) && Beyond(l.db, oa, horizon) && Beyond(replayed, ob, horizon)
  }

  lemma NoEmptyPush(cell: Cell, names: seq<Str>, left: bool)
    requires names != []
    ensures var e := PushAct(cell, names, left);
            (e.reply.Count? <==> cell.Some? ==> cell.value.value.ListV?)
            && (e.reply.Count? ==> e.cell.Some? && e.cell.value.value.ListV?)
  {
    hide Reversed;
  }

  lemma {:induction false} PushedFinds(db: Db, key: Str, cell: Cell, keys: seq<Str>)
    requires cell.Some? && cell.value.value.ListV?
    ensures Waiters.FindsList(Update(db, key, cell), keys) <==> FindsListOr(db, key, keys)
    decreases |keys|
  {
    if keys != [] { PushedFinds(db, key, cell, keys[1..]); }
  }

  /** A push serves a waiting client exactly when WouldServe says so. */
  lemma PushServes(db: Db, key: Str, cell: Cell, waiting: seq<Waiters.Waiter>)
    requires key in db ==> db[key].value.ListV?
    requires cell.Some? && cell.value.value.ListV? && NoEmptyIn(Update(db, key, cell))
    ensures Waiters.Served(waiting, key, Update(db, key, cell), 0) < |waiting| <==> WouldServe(db, key, waiting)
  {
    hide Update, NoEmptyIn, Waiters.TryPop, Waiters.FindsList, FindsListOr;
    var after := Update(db, key, cell);
    forall i | 0 <= i < |waiting|
      ensures Waiters.TryPop(after, waiting[i].keys).attempt.Success? <==> FindsListOr(db, key, waiting[i].keys)
    {
      Waiters.TryPopFindsList(after, waiting[i].keys);
      PushedFinds(db, key, cell, waiting[i].keys);
    }
  }

  /** A fair push leaves the store as the push alone does. */
  lemma NobodyServed(db: Db, clock: Clock, op: Op, waiting: seq<Waiters.Waiter>)
    requires AllAlive(db, clock.now) && NoEmptyIn(db) && Handled(op)
    requires op.On? && op.action.Push? ==> !WouldServe(db, op.key, waiting)
    ensures var o := Apply(db, clock, op); Performed(o, op, waiting) == o.db
  {
    hide NoEmptyIn, Update, WouldServe, PushAct;
    if op.On? && op.action.Push? {
      NoEmptyPush(Lookup(db, op.key), op.action.names, op.action.left);
      ApplyNoEmpty(db, clock, op);
      var e := PushAct(Lookup(db, op.key), op.action.names, op.action.left);
      if e.reply.Count? { PushServes(db, op.key, e.cell, waiting); }
    }
  }

  lemma ZeroPopReplays(args: Command, scores: ScoreTexts)
    requires Handle(args, scores).ZeroPop?
    ensures var key := Handle(args, scores).key;
            ReplayOp(args, scores) == Some(On(key, Pop(1, true))) || ReplayOp(args, scores) == Some(On(key, Pop(1, false)))
  {
    hide VerbOf, Options, FromChars, Stoll, Stoull, ParseHashInteger, Pairs, ScorePairs, Digits;
    StollStrict(args[2]);
  }

  /** A logged pop of zero elements does no harm when the key is absent. */
  lemma ZeroPopHarmless(a: Db, replayed: Db, args: Command, key: Str, clock: Clock, scores: ScoreTexts, oa: int, ob: int, loose: set<Str>)
    requires Handle(args, scores) == ZeroPop(key) && key !in a && Agree(a, replayed, oa, ob, loose)
    requires LiveItems(replayed, clock.now) == replayed
    ensures ReplayStep(replayed, clock, args, scores) == replayed
  {
    hide Handle, ReplayOp, LiveItems, Agree;
    ZeroPopReplays(args, scores);
    AgreeAt(a, replayed, oa, ob, loose, key);
    UpdateSame(replayed, key);
  }

  lemma ExpireLate(op: Op, ca: Clock, cb: Clock, horizon: int)
    requires SetsLate(op, ca, horizon) && cb.wall < horizon && ca.wall <= cb.wall
    ensures op.On? && op.action.Expire? && op.action.ttl > 0 ==> cb.wall < ca.wall + op.action.ttl
    ensures SetsLate(op, cb, horizon)
  {
  }

  /** Replayed deadlines are no earlier than the horizon either. */
  lemma ReplayBeyond(a: Db, replayed: Db, ca: Clock, args: Command, op: Op, clock: Clock, scores: ScoreTexts, ob: int, horizon: int)
    requires Handle(args, scores) == Write(op) && Handled(op) && AllAlive(a, ca.now)
    requires AllAlive(replayed, clock.now) && LiveItems(replayed, clock.now) == replayed && Beyond(replayed, ob, horizon)
    requires Steady(clock, ob) && SetsLate(op, ca, horizon) && SetsLate(op, clock, horizon) && clock.wall < horizon
    requires op.On? && op.action.Expire? ==> ca.wall + op.action.ttl <= UINT64_MAX
    requires Logged(args, op, Apply(a, ca, op).reply).Some?
    ensures Beyond(ReplayStep(replayed, clock, Logged(args, op, Apply(a, ca, op).reply).value, scores), ob, horizon)
  {
    hide Handle, ReplayOp, Act, Beyond, LiveItems, Lookup, Update, MsetDb, DelDb, DelCount, Digits, Text;
    ReplayReadsHandled(args, scores);
    LoggedAsIs(args, op, Apply(a, ca, op).reply);
    if op.On? && op.action.Expire? {
      var e := ExpireAct(Lookup(a, op.key), ca, op.action.ttl);
      AliveAt(a, op.key, ca.now);
      ActIsExpire(Lookup(a, op.key), ca, op.action.ttl);
      DeadlineFits(Lookup(a, op.key), ca, op.action.ttl);
      PexpireatReplays(op.key, e.reply.deadline, scores);
      ExpireAtBeyond(replayed, op.key, e.reply.deadline, clock, ob, horizon);
    } else {
      ApplyBeyond(replayed, clock, op, ob, horizon);
    }
  }

  lemma AliveAt(db: Db, key: Str, now: nat)
    requires AllAlive(db, now)
    ensures Lookup(db, key).Some? ==> Alive(Lookup(db, key).value.expireAt, now)
  {
  }

  lemma ActIsExpire(a: Cell, clock: Clock, ttl: nat)
    requires a.Some? ==> Alive(a.value.expireAt, clock.now)
    ensures Act(a, clock, Expire(ttl)) == ExpireAct(a, clock, ttl)
  {
  }

  lemma ExpireAtBeyond(db: Db, key: Str, epoch: nat, clock: Clock, offset: int, horizon: int)
    requires Beyond(db, offset, horizon) && Steady(clock, offset) && AllAlive(db, clock.now)
    requires epoch >= horizon || epoch <= clock.wall
    ensures Beyond(Apply(db, clock, On(key, ExpireAt(epoch))).db, offset, horizon)
  {
    hide SetAct, SetexAct, IncrAct, HsetAct, HsetnxAct, HincrbyAct, HdelAct, SaddAct, SremAct, ZaddAct, ZremAct, PushAct, PopAct;
  }

  lemma NothingTaken(db: Db, keys: seq<Str>)
    requires NoEmptyIn(db) && !Waiters.FindsList(db, keys)
    ensures Waiters.TryPop(db, keys).db == db
  {
    Waiters.TryPopFindsList(db, keys);
    Waiters.TryPopSkipsAbsent(db, keys);
  }

  /** A fair request leaves no empty collection and no early deadline. */
  lemma RequestKeeps(l: Live, r: Request, scores: ScoreTexts, oa: int, horizon: int)
    requires NoEmptyIn(l.db) && Beyond(l.db, oa, horizon) && Fair(l.db, r, scores, oa, horizon)
    ensures var next := LiveStep(l, r, scores); NoEmptyIn(next.db) && Beyond(next.db, oa, horizon)
  {
    hide Handle, Apply, Beyond, NoEmptyIn, LiveItems, Logged, SetsLate, Handled, Performed, WouldServe, Waiters.FindsList,
      Waiters.TryPop;
    BeyondAlive(l.db, r.clock, oa, horizon);
    match Handle(r.args, scores)
    case Reject =>
    case BlockingPop(keys, _) => NothingTaken(l.db, keys);
    case ZeroPop(key) =>
    case Write(op) =>
      HandleGives(r.args, scores);
      NobodyServed(l.db, r.clock, op, r.waiting);
      ApplyNoEmpty(l.db, r.clock, op);
      ApplyBeyond(l.db, r.clock, op, oa, horizon);
  }

  lemma {:induction false} RunKeeps(start: Live, requests: seq<Request>, scores: ScoreTexts, oa: int, horizon: int)
    requires NoEmptyIn(start.db) && Beyond(start.db, oa, horizon) && FairRun(start, requests, scores, oa, horizon)
    ensures var end := LiveRun(start, requests, scores); NoEmptyIn(end.db) && Beyond(end.db, oa, horizon)
  {
    hide Fair, FairRun, LiveStep, LiveRun, NoEmptyIn, Beyond;
    RunUnfolds(start, requests, scores);
    if requests != [] {
      var n := |requests| - 1;
      FairPrefix(start, requests, scores, oa, horizon);
      RunKeeps(start, requests[..n], scores, oa, horizon);
      RequestKeeps(LiveRun(start, requests[..n], scores), requests[n], scores, oa, horizon);
    }
  }

  /** The state a run reaches is a start for the rest of it. */
  lemma {:induction false} RunJoined(start: Live, earlier: seq<Request>, later: seq<Request>, scores: ScoreTexts)
    ensures var middle := LiveRun(start, earlier, scores);
            var end, rest := LiveRun(start, earlier + later, scores), LiveRun(Fresh(middle.db), later, scores);
            end.db == rest.db && end.log == middle.log + rest.log
    decreases |later|
  {
    hide LiveStep, LiveRun;
    var all, middle := earlier + later, LiveRun(start, earlier, scores);
    RunUnfolds(start, all, scores);
    RunUnfolds(Fresh(middle.db), later, scores);
    if later == [] {
      assert all == earlier && middle.log + [] == middle.log;
    } else {
      var n := |later| - 1;
      assert all[..|all| - 1] == earlier + later[..n] && all[|all| - 1] == later[n];
      RunJoined(start, earlier, later[..n], scores);
      StepFrom(LiveRun(start, earlier + later[..n], scores), LiveRun(Fresh(middle.db), later[..n], scores), middle.log,
               later[n], scores);
    }
  }

  /** A step does not look at the log. */
  lemma StepFrom(l: Live, m: Live, before: seq<Command>, r: Request, scores: ScoreTexts)
    requires l.db == m.db && l.log == before + m.log
    ensures var x, y := LiveStep(l, r, scores), LiveStep(m, r, scores); x.db == y.db && x.log == before + y.log
  {
    hide Handle, Apply, Logged, Performed, Waiters.TryPop, LiveItems;
  }

  /** One request, and the replay of what it logged. */
  lemma RequestMirrored(l: Live, r: Request, replayed: Db, clock: Clock, scores: ScoreTexts, oa: int, ob: int, horizon: int)
    requires Mirrors(l, replayed, oa, ob, horizon) && Fair(l.db, r, scores, oa, horizon)
    requires Steady(clock, ob) && clock.wall < horizon && r.clock.wall <= clock.wall
    ensures var next := LiveStep(l, r, scores);
            |l.log| <= |next.log| <= |l.log| + 1 && next.log[..|l.log|] == l.log
            && (|next.log| == |l.log| ==> Mirrors(next, replayed, oa, ob, horizon))
            && (|next.log| > |l.log| ==> Mirrors(next, ReplayStep(replayed, clock, next.log[|l.log|], scores), oa, ob, horizon))
  {
    hide Handle, ReplayOp, Agree, Apply, Beyond, NoEmptyIn, LiveItems, Logged, LooseAfter, SetsLate, Handled, Performed,
      WouldServe, Waiters.FindsList, Waiters.TryPop;
    BeyondAlive(l.db, r.clock, oa, horizon);
    BeyondAlive(replayed, clock, ob, horizon);
    match Handle(r.args, scores)
    case Reject =>
    case BlockingPop(keys, _) => NothingTaken(l.db, keys);
    case ZeroPop(key) =>
      if key !in l.db { ZeroPopHarmless(l.db, replayed, r.args, key, clock, scores, oa, ob, l.loose); }
    case Write(op) =>
      HandleGives(r.args, scores);
      NobodyServed(l.db, r.clock, op, r.waiting);
      ApplyNoEmpty(l.db, r.clock, op);
      ApplyBeyond(l.db, r.clock, op, oa, horizon);
      var o := Apply(l.db, r.clock, op);
      var logged := Logged(r.args, op, o.reply);
      if logged.None? {
        UnloggedSame(l.db, r.clock, r.args, op);
      } else {
        ExpireLate(op, r.clock, clock, horizon);
        LoggedAgrees(l.db, replayed, oa, ob, l.loose, r.clock, clock, r.args, scores);
        ReplayBeyond(l.db, replayed, r.clock, r.args, op, clock, scores, ob, horizon);
      }
  }

  /** A request that logs nothing needs no replay. */
  lemma UnloggedMirrored(l: Live, r: Request, replayed: Db, scores: ScoreTexts, oa: int, ob: int, horizon: int)
    requires Mirrors(l, replayed, oa, ob, horizon) && Fair(l.db, r, scores, oa, horizon)
    requires |LiveStep(l, r, scores).log| == |l.log|
    ensures Mirrors(LiveStep(l, r, scores), replayed, oa, ob, horizon)
  {
    hide Handle, ReplayOp, Agree, Apply, Beyond, NoEmptyIn, LiveItems, Logged, LooseAfter, SetsLate, Handled, Performed,
      WouldServe, Waiters.FindsList, Waiters.TryPop;
    BeyondAlive(l.db, r.clock, oa, horizon);
    match Handle(r.args, scores)
    case Reject =>
    case BlockingPop(keys, _) => NothingTaken(l.db, keys);
    case ZeroPop(key) =>
    case Write(op) =>
      HandleGives(r.args, scores);
      NobodyServed(l.db, r.clock, op, r.waiting);
      UnloggedSame(l.db, r.clock, r.args, op);
  }

  /** Log-replay simulation. Let a store and a replayed copy of it agree, as two empty ones do. Then
      whatever fair requests the store executes from there, replaying what was logged of them on the
      copy, at any later times before the horizon, makes the copy have the same keys and values again;
      the wall-clock deadlines are the same too, but for those last set by SET EX, SET PX or SETEX,
      which start again when they are replayed. */
  lemma {:induction false} LogReplays(start: Live, copy: Db, requests: seq<Request>, clocks: seq<Clock>, scores: ScoreTexts,
                                      oa: int, ob: int, horizon: int)
    requires Mirrors(start, copy, oa, ob, horizon) && start.log == []
    requires FairRun(start, requests, scores, oa, horizon)
    requires |clocks| == |LiveRun(start, requests, scores).log| && ReplayClocks(clocks, requests, ob, horizon)
    ensures var end := LiveRun(start, requests, scores);
            Mirrors(end, ReplayRun(copy, end.log, clocks, scores), oa, ob, horizon)
    decreases |requests|
  {
    hide Fair, FairRun, LiveStep, ReplayStep, Mirrors, Handle, ReplayClocks, LiveRun, ReplayRun;
    RunUnfolds(start, requests, scores);
    if requests == [] {
      ReplayUnfolds(copy, [], clocks, scores);
    } else {
      var n := |requests| - 1;
      var before, after := LiveRun(start, requests[..n], scores), LiveRun(start, requests, scores);
      var m := |before.log|;
      LogGrows(before, requests[n], scores);
      FairPrefix(start, requests, scores, oa, horizon);
      ClocksPrefix(clocks, requests, m, ob, horizon);
      LogReplays(start, copy, requests[..n], clocks[..m], scores, oa, ob, horizon);
      var replayed := ReplayRun(copy, before.log, clocks[..m], scores);
      if |after.log| == m {
        assert clocks[..m] == clocks && after.log == before.log;
        UnloggedMirrored(before, requests[n], replayed, scores, oa, ob, horizon);
      } else {
        assert after.log[..m] == before.log;
        RequestMirrored(before, requests[n], replayed, clocks[m], scores, oa, ob, horizon);
        ReplayUnfolds(copy, after.log, clocks, scores);
      }
    }
  }

  lemma RunUnfolds(start: Live, requests: seq<Request>, scores: ScoreTexts)
    ensures requests == [] ==> LiveRun(start, requests, scores) == start
    ensures requests != [] ==>
              LiveRun(start, requests, scores)
              == LiveStep(LiveRun(start, requests[..|requests| - 1], scores), requests[|requests| - 1], scores)
  {
    hide LiveStep;
  }

  lemma ReplayUnfolds(db: Db, log: seq<Command>, clocks: seq<Clock>, scores: ScoreTexts)
    requires |log| == |clocks|
    ensures log == [] ==> ReplayRun(db, log, clocks, scores) == db
    ensures log != [] ==>
              var n := |log| - 1;
              ReplayRun(db, log, clocks, scores)
              == ReplayStep(ReplayRun(db, log[..n], clocks[..n], scores), clocks[n], log[n], scores)
  {
    hide ReplayStep;
  }

  lemma NothingMirrored(oa: int, ob: int, horizon: int)
    ensures Mirrors(Fresh(map[]), map[], oa, ob, horizon)
  {
  }

  /** What agreement means: the same keys with the same values, and the same wall-clock deadlines
      except on loose keys. */
  lemma AgreementMeans(a: Db, b: Db, oa: int, ob: int, loose: set<Str>)
    ensures Agree(a, b, oa, ob, loose) <==>
              a.Keys == b.Keys
              && forall k :: k in a ==>
                   a[k].value == b[k].value
                   && (a[k].expireAt == 0 <==> b[k].expireAt == 0)
                   && (k !in loose && a[k].expireAt != 0 ==> a[k].expireAt + oa == b[k].expireAt + ob)
  {
    if Agree(a, b, oa, ob, loose) {
      SameKeys(a, b, oa, ob, loose);
      forall k | k in a
        ensures a[k].value == b[k].value && (a[k].expireAt == 0 <==> b[k].expireAt == 0)
        ensures k !in loose && a[k].expireAt != 0 ==> a[k].expireAt + oa == b[k].expireAt + ob
      {
        AgreeAt(a, b, oa, ob, loose, k);
      }
    }
  }

  lemma ClocksPrefix(clocks: seq<Clock>, requests: seq<Request>, m: nat, offset: int, horizon: int)
    requires requests != [] && m <= |clocks| && ReplayClocks(clocks, requests, offset, horizon)
    ensures ReplayClocks(clocks[..m], requests[..|requests| - 1], offset, horizon)
    ensures m < |clocks| ==> Steady(clocks[m], offset) && clocks[m].wall < horizon
                             && requests[|requests| - 1].clock.wall <= clocks[m].wall
  {
  }

  lemma LogGrows(l: Live, r: Request, scores: ScoreTexts)
    ensures var next := LiveStep(l, r, scores); |l.log| <= |next.log| <= |l.log| + 1 && next.log[..|l.log|] == l.log
  {
    hide Handle, Apply, Logged;
  }

  lemma FairPrefix(start: Live, requests: seq<Request>, scores: ScoreTexts, offset: int, horizon: int)
    requires requests != [] && FairRun(start, requests, scores, offset, horizon)
    ensures FairRun(start, requests[..|requests| - 1], scores, offset, horizon)
    ensures Fair(LiveRun(start, requests[..|requests| - 1], scores).db, requests[|requests| - 1], scores, offset, horizon)
  {
    hide Fair, LiveRun;
    var n := |requests| - 1;
    forall i | 0 <= i < n
      ensures Fair(LiveRun(start, requests[..n][..i], scores).db, requests[..n][i], scores, offset, horizon)
    {
      assert requests[..n][..i] == requests[..i];
    }
  }

  // ----- the hypothesis on pops of zero elements is exact

  lemma PopOneChanges(cell: Cell, left: bool)
    requires cell.Some? && cell.value.value.ListV? && cell.value.value.elements != []
    ensures PopAct(cell, 1, left).cell.None? || PopAct(cell, 1, left).cell.value.value != cell.value.value
  {
    hide Reversed;
    var l := cell.value.value.elements;
    var e := PopAct(cell, 1, left);
    if e.cell.Some? { assert |e.cell.value.value.elements| == |l| - 1; }
  }

  /** A pop of zero elements is replayed as a pop of one, so the stores still agree afterwards exactly
      when there was no list to pop from. */
  lemma ZeroPopKeepsIff(l: Live, r: Request, key: Str, replayed: Db, clock: Clock, scores: ScoreTexts, oa: int, ob: int, horizon: int)
    requires Mirrors(l, replayed, oa, ob, horizon) && Handle(r.args, scores) == ZeroPop(key)
    requires Steady(r.clock, oa) && Steady(clock, ob) && r.clock.wall <= clock.wall < horizon
    requires key in l.db ==> l.db[key].value.ListV?
    ensures var next := LiveStep(l, r, scores);
            |next.log| == |l.log| + 1
            && (Agree(next.db, ReplayStep(replayed, clock, next.log[|l.log|], scores), oa, ob, next.loose) <==> key !in l.db)
  {
    hide Handle, ReplayOp, Agree, Beyond, LiveItems, PopAct, NoEmptyIn, CellsAgree;
    BeyondAlive(l.db, r.clock, oa, horizon);
    BeyondAlive(replayed, clock, ob, horizon);
    var next := LiveStep(l, r, scores);
    if key !in l.db {
      ZeroPopHarmless(l.db, replayed, r.args, key, clock, scores, oa, ob, l.loose);
    } else {
      ZeroPopReplays(r.args, scores);
      AgreeAt(l.db, replayed, oa, ob, l.loose, key);
      var left := ReplayOp(r.args, scores).value.action.left;
      PopDisagrees(l.db, replayed, oa, ob, l.loose, key, clock, left);
    }
  }

  lemma PopDisagrees(a: Db, b: Db, oa: int, ob: int, loose: set<Str>, key: Str, clock: Clock, left: bool)
    requires key in a && a[key].value.ListV? && NoEmptyIn(a) && AllAlive(b, clock.now)
    requires CellsAgree(Lookup(a, key), Lookup(b, key), oa, ob, key !in loose)
    ensures !Agree(a, Apply(b, clock, On(key, Pop(1, left))).db, oa, ob, loose)
  {
    hide PopAct, Agree;
    PopOneChanges(Lookup(b, key), left);
    var after := Apply(b, clock, On(key, Pop(1, left))).db;
    assert !CellsAgree(Lookup(a, key), Lookup(after, key), oa, ob, key !in loose);
    if Agree(a, after, oa, ob, loose) { AgreeAt(a, after, oa, ob, loose, key); }
  }

  // ----- so are those on blocking pops

  /** A blocking pop that finds a list takes an element the log does not account for. */
  lemma {:induction false} TakenDisagrees(a: Db, b: Db, keys: seq<Str>, oa: int, ob: int, loose: set<Str>, after: set<Str>)
    requires Agree(a, b, oa, ob, loose) && NoEmptyIn(a) && Waiters.FindsList(a, keys)
    ensures !Agree(Waiters.TryPop(a, keys).db, b, oa, ob, after)
    decreases |keys|
  {
    hide Agree, PopAct, Update;
    Waiters.TryPopUnfold(a, keys);
    var k := keys[0];
    if k in a {
      var cell := Lookup(a, k);
      PopsOne(cell);
      PopOneChanges(cell, false);
      var t := Update(a, k, PopAct(cell, 1, false).cell);
      UpdateHere(a, k, PopAct(cell, 1, false).cell);
      AgreeAt(a, b, oa, ob, loose, k);
      if Agree(t, b, oa, ob, after) { AgreeAt(t, b, oa, ob, after, k); }
    } else {
      MissingPop();
      TakenDisagrees(a, b, keys[1..], oa, ob, loose, after);
    }
  }

  lemma PopsOne(cell: Cell)
    requires cell.Some? && cell.value.value.ListV? && cell.value.value.elements != []
    ensures var r := PopAct(cell, 1, false).reply; r.Popped? && r.popped != []
  {
    hide Reversed;
  }

  lemma MissingPop()
    ensures PopAct(None, 1, false).reply == NotFound
  {
  }

  /** BRPOP is not logged, so the stores still agree afterwards exactly when it found nothing to pop:
      the first of its keys that is present does not hold a list, or none is present. */
  lemma BrpopKeepsIff(l: Live, r: Request, keys: seq<Str>, timeout: nat, replayed: Db, scores: ScoreTexts, oa: int, ob: int, horizon: int)
    requires Mirrors(l, replayed, oa, ob, horizon) && Handle(r.args, scores) == BlockingPop(keys, timeout)
    requires Steady(r.clock, oa) && r.clock.wall < horizon
    ensures var next := LiveStep(l, r, scores);
            next.log == l.log && (Agree(next.db, replayed, oa, ob, next.loose) <==> !Waiters.FindsList(l.db, keys))
  {
    hide Handle, Agree, Beyond, LiveItems, NoEmptyIn, Waiters.FindsList, Waiters.TryPop;
    BeyondAlive(l.db, r.clock, oa, horizon);
    if Waiters.FindsList(l.db, keys) {
      TakenDisagrees(l.db, replayed, keys, oa, ob, l.loose, l.loose);
    } else {
      NothingTaken(l.db, keys);
    }
  }

  /** A push is logged and the pop of the client it serves is not, so the stores still agree afterwards
      exactly when it served none. */
  lemma PushKeepsIff(l: Live, r: Request, key: Str, names: seq<Str>, left: bool, replayed: Db, clock: Clock, scores: ScoreTexts,
                     oa: int, ob: int, horizon: int)
    requires Mirrors(l, replayed, oa, ob, horizon) && Handle(r.args, scores) == Write(On(key, Push(names, left)))
    requires Steady(r.clock, oa) && Steady(clock, ob) && r.clock.wall < horizon && clock.wall < horizon
    requires key in l.db ==> l.db[key].value.ListV?
    ensures var next := LiveStep(l, r, scores);
            |next.log| == |l.log| + 1
            && (Agree(next.db, ReplayStep(replayed, clock, next.log[|l.log|], scores), oa, ob, next.loose)
                <==> !WouldServe(l.db, key, r.waiting))
  {
    hide Handle, ReplayOp, Agree, Beyond, LiveItems, NoEmptyIn, WouldServe, PushAct, Update, Waiters.TryPop, Waiters.FindsList;
    var op := On(key, Push(names, left));
    BeyondAlive(l.db, r.clock, oa, horizon);
    BeyondAlive(replayed, clock, ob, horizon);
    HandleGives(r.args, scores);
    ApplyNoEmpty(l.db, r.clock, op);
    var e := PushAct(Lookup(l.db, key), names, left);
    NoEmptyPush(Lookup(l.db, key), names, left);
    LoggedAgrees(l.db, replayed, oa, ob, l.loose, r.clock, clock, r.args, scores);
    PushServes(l.db, key, e.cell, r.waiting);
    var after := Update(l.db, key, e.cell);
    var i := Waiters.Served(r.waiting, key, after, 0);
    if i < |r.waiting| {
      var t := ReplayStep(replayed, clock, r.args, scores);
      Waiters.TryPopFindsList(after, r.waiting[i].keys);
      TakenDisagrees(after, t, r.waiting[i].keys, oa, ob, l.loose, l.loose);
    }
  }

  // ----- inputs that miss the conditions

  function ListItem(elements: seq<Str>): Item { Item(ListV(elements), 0) }

  lemma LpopHandled(key: Str, scores: ScoreTexts)
    ensures Handle([Text("LPOP"), key, Text("0")], scores) == ZeroPop(key)
    ensures ReplayOp([Text("LPOP"), key, Text("0")], scores) == Some(On(key, Pop(1, true)))
  {
    hide VerbOf, Stoll;
    LpopVerb();
    ZeroRead();
    StollStrict(Text("0"));
  }

  lemma LpopVerb()
    ensures VerbOf(Text("LPOP")) == LPOP
  {
    var name := Text("LPOP");
    assert UpperAll(name) == name;
    assert name[0] == 76 && |name| == 4;
  }

  lemma BrpopVerb()
    ensures VerbOf(Text("BRPOP")) == BRPOP
  {
    var name := Text("BRPOP");
    assert UpperAll(name) == name;
    assert name[0] == 66 && |name| == 5;
  }

  lemma ZeroRead()
    ensures FromChars(Text("0")) == Some(0)
  {
    assert Text("0") == [48];
    assert DigitsValue([48]) == 0 by { assert [48][..0] == []; }
  }

  lemma BrpopHandled(key: Str, scores: ScoreTexts)
    ensures Handle([Text("BRPOP"), key, Text("0")], scores) == BlockingPop([key], 0)
  {
    hide VerbOf, FromChars;
    BrpopVerb();
    ZeroRead();
    assert [Text("BRPOP"), key, Text("0")][1..2] == [key];
  }

  /** LPOP k 0 on a list of one element: the live store keeps it, the log loses it. */
  lemma ZeroPopLoses(key: Str, element: Str, clock: Clock, scores: ScoreTexts)
    ensures var db: Db := map[key := ListItem([element])]; var args := [Text("LPOP"), key, Text("0")];
            LiveStep(Fresh(db), Request(clock, args, []), scores) == Live(db, [args], {})
            && ReplayStep(db, clock, args, scores) == map[]
  {
    hide Handle, ReplayOp;
    LpopHandled(key, scores);
    var db: Db := map[key := ListItem([element])];
    assert LiveItems(db, clock.now) == db;
    OneElementGone(key, element, true);
  }

  lemma OneElementGone(key: Str, element: Str, left: bool)
    ensures PopAct(Some(ListItem([element])), 1, left) == Effect(None, Popped([element]))
    ensures Update(map[key := ListItem([element])], key, None) == map[]
  {
    var l := [element];
    assert l[1..] == [] && l[..1] == l && l[..0] == [] && l[0..] == l && Reversed(l) == l;
  }

  /** BRPOP k 0 on the same list: the live store gives it away, the log keeps it. */
  lemma BrpopKeeps(key: Str, element: Str, clock: Clock, scores: ScoreTexts)
    ensures var db: Db := map[key := ListItem([element])]; var args := [Text("BRPOP"), key, Text("0")];
            LiveStep(Fresh(db), Request(clock, args, []), scores) == Fresh(map[])
  {
    hide Handle, PopAct;
    BrpopHandled(key, scores);
    var db: Db := map[key := ListItem([element])];
    assert LiveItems(db, clock.now) == db;
    OneElementGone(key, element, false);
    Waiters.TryPopUnfold(db, [key]);
  }

  /** RPUSH k x with a client waiting on k: the live store has handed the element on, the log keeps it. */
  lemma PushKeeps(client: nat, key: Str, element: Str, clock: Clock, scores: ScoreTexts)
    ensures var args := [Text("RPUSH"), key, element]; var w := Waiters.Waiter(client, [key], None, 0);
            LiveStep(Fresh(map[]), Request(clock, args, [w]), scores) == Live(map[], [args], {})
            && ReplayStep(map[], clock, args, scores) == map[key := ListItem([element])]
  {
    hide Handle, ReplayOp, PushAct, Waiters.Notifying;
    RpushHandled(key, element, scores);
    var none: Db := map[];
    assert LiveItems(none, clock.now) == none;
    FirstPush(key, element);
    WaiterTakes(Waiters.Waiter(client, [key], None, 0), key, element);
  }

  lemma FirstPush(key: Str, element: Str)
    ensures var e := PushAct(None, [element], false);
            e == Effect(Some(ListItem([element])), Count(1)) && Update(map[], key, e.cell) == map[key := ListItem([element])]
  {
    assert [] + [element] == [element];
  }

  lemma WaiterTakes(w: Waiters.Waiter, key: Str, element: Str)
    requires w.keys == [key]
    ensures Waiters.Notifying([w], [], key, map[key := ListItem([element])]).db == map[]
  {
    hide PopAct;
    var db: Db := map[key := ListItem([element])];
    OneElementGone(key, element, false);
    Waiters.TryPopUnfold(db, [key]);
    assert Waiters.Served([w], key, db, 0) == 0;
  }

  lemma RpushHandled(key: Str, element: Str, scores: ScoreTexts)
    ensures var op := On(key, Push([element], false));
            Handle([Text("RPUSH"), key, element], scores) == Write(op) && ReplayOp([Text("RPUSH"), key, element], scores) == Some(op)
  {
    hide VerbOf, ReplayOp;
    Verbs();
    assert [Text("RPUSH"), key, element][2..] == [element];
    ReplayReadsHandled([Text("RPUSH"), key, element], scores);
  }

  lemma SetexVerb()
    ensures VerbOf(Text("SETEX")) == SETEX
  {
    var name := Text("SETEX");
    assert UpperAll(name) == name;
    assert name[0] == 83 && |name| == 5;
  }

  lemma SetexHandled(key: Str, value: Str, scores: ScoreTexts)
    ensures var op := On(key, Setex(1000, value)); var args := [Text("SETEX"), key, Text("1"), value];
            Handle(args, scores) == Write(op) && ReplayOp(args, scores) == Some(op)
  {
    hide VerbOf, ReplayOp;
    SetexVerb();
    assert Text("1") == [49];
    assert DigitsValue([49]) == 1 by { assert [49][..0] == []; }
    ReplayReadsHandled([Text("SETEX"), key, Text("1"), value], scores);
  }

  /** SETEX k 1 v replayed one millisecond late: the deadline is one millisecond late. */
  lemma RelativeLate(key: Str, value: Str, clock: Clock, scores: ScoreTexts)
    ensures var args := [Text("SETEX"), key, Text("1"), value]; var late := Clock(clock.now + 1, clock.wall + 1);
            LiveStep(Fresh(map[]), Request(clock, args, []), scores)
            == Live(map[key := Item(StringV(value), clock.now + 1000)], [args], {key})
            && ReplayStep(map[], late, args, scores) == map[key := Item(StringV(value), clock.now + 1001)]
  {
    hide Handle, ReplayOp;
    SetexHandled(key, value, scores);
    var none: Db := map[];
    assert LiveItems(none, clock.now) == none && LiveItems(none, clock.now + 1) == none;
    assert {} + {key} == {key};
  }

  // ----- the methods of the source

  /** What becomes of the waiting clients: a push may serve one, a BRPOP that finds nothing adds one. */
  function WaitingStep(n: Waiters.Notified, client: nat, r: Request, scores: ScoreTexts, ticket: nat): Waiters.Notified
    requires AllAlive(n.db, r.clock.now)
  {
    match Handle(r.args, scores)
    case BlockingPop(keys, timeout) =>
      var t := Waiters.TryPop(n.db, keys);
      if t.attempt.Nothing? then
        Waiters.Notified(Waiters.Registered(n.waiters, client, keys, timeout, r.clock.now, ticket), n.delivered, t.db)
      else n.(db := t.db)
    case Write(op) =>
      var o := Apply(n.db, r.clock, op);
      if op.On? && op.action.Push? && op.action.names != [] && o.reply.Count? then
        Waiters.Notifying(n.waiters, n.delivered, op.key, o.db)
      else n.(db := o.db)
    case _ => n
  }

  /** dispatch, with maxmemory off: the handler runs on the store and the queue of waiting clients, and
      the command is handed to the log as it was or in its absolute form. */
  method Dispatch(q: Waiters.BlockedPops, client: nat, r: Request, scores: ScoreTexts) returns (logged: Option<Command>)
    requires q.Valid() && q.store.maxmemory == 0 && q.waiters == r.waiting
    modifies q, q.store
    ensures q.Valid()
    ensures var next := LiveStep(Fresh(old(q.store.items)), r, scores);
            q.store.Live(r.clock.now) == LiveItems(next.db, r.clock.now)
            && next.log == if logged.Some? then [logged.value] else []
    ensures var was := Waiters.Notified(old(q.waiters), old(q.delivered), old(q.store.Live(r.clock.now)));
            AllAlive(was.db, r.clock.now)
            && Waiters.Notified(q.waiters, q.delivered, q.store.Live(r.clock.now))
               == WaitingStep(was, client, r, scores, old(q.registered))
  {
    hide Handle, LiveItems, Store.Shaped, IndexOf, NoEmptyIn, Apply, Handled, Logged, Performed, Waiters.Orderly,
      Waiters.TryPop, Waiters.Notifying, Update, PushAct, Lookup;
    var now := r.clock.now;
    logged := None;
    LiveIdempotent(old(q.store.items), now);
    LiveAlive(q.store.items, now);
    match Handle(r.args, scores) {
      case Reject => {}
      case BlockingPop(keys, timeout) => { var _ := q.Brpop(client, keys, timeout, now); LiveIdempotent(q.store.items, now); }
      case ZeroPop(key) => {
        var wrong := HoldsOtherThanList(q.store, key, now);
        if !wrong { logged := Some(r.args); }
      }
      case Write(op) => {
        HandleGives(r.args, scores);
        HandledLegal(op);
        var reply := Perform(q, r.clock, op);
        PerformedLists(Apply(old(q.store.Live(now)), r.clock, op), op, r.waiting, old(q.delivered));
        LiveIdempotent(q.store.items, now);
        logged := Logged(r.args, op, reply);
      }
    }
  }

  lemma HandledLegal(op: Op)
    requires Handled(op)
    ensures Legal(op)
  {
  }

  /** The store method of an operation; a push goes through the queue of waiting clients. */
  method Perform(q: Waiters.BlockedPops, clock: Clock, op: Op) returns (reply: Reply)
    requires q.Valid() && Handled(op)
    modifies q, q.store
    ensures q.Valid() && AllAlive(old(q.store.Live(clock.now)), clock.now)
    ensures var o := Apply(old(q.store.Live(clock.now)), clock, op);
            reply == o.reply
            && Waiters.Notified(q.waiters, q.delivered, q.store.Live(clock.now))
               == if op.On? && op.action.Push? && op.action.names != [] && reply.Count?
                  then Waiters.Notifying(old(q.waiters), old(q.delivered), op.key, o.db)
                  else Waiters.Notified(old(q.waiters), old(q.delivered), o.db)
  {
    hide LiveItems, Store.Shaped, IndexOf, NoEmptyIn, Waiters.Orderly, Waiters.Notifying, Update, PushAct, Lookup;
    HandledLegal(op);
    LiveAlive(q.store.items, clock.now);
    if op.On? && op.action.Push? {
      UpdateSame(q.store.Live(clock.now), op.key);
      RefusedPush(Lookup(q.store.Live(clock.now), op.key), op.action.names, op.action.left);
      reply := q.Push(op.key, op.action.names, op.action.left, clock.now);
    } else {
      hide Apply;
      reply := Execute(q.store, clock, op);
    }
  }

  lemma PerformedLists(o: Outcome, op: Op, waiting: seq<Waiters.Waiter>, delivered: seq<Waiters.Delivery>)
    ensures Performed(o, op, waiting)
         == if op.On? && op.action.Push? && op.action.names != [] && o.reply.Count? then
              Waiters.Notifying(waiting, delivered, op.key, o.db).db
            else o.db
  {
  }

  lemma RefusedPush(cell: Cell, names: seq<Str>, left: bool)
    ensures var e := PushAct(cell, names, left); !e.reply.Count? || names == [] ==> e.cell == cell
  {
    hide Reversed;
  }

  lemma LiveAlive(items: Db, now: nat)
    ensures AllAlive(LiveItems(items, now), now)
  {
  }

  /** llen, as the handlers of LPOP and RPOP use it. */
  method HoldsOtherThanList(store: Store, key: Str, now: nat) returns (wrong: bool)
    requires store.Valid()
    modifies store`shards, store`items, store`ttlKeys, store`used
    ensures store.Valid() && store.Live(now) == old(store.Live(now)) && (old(store.NoEmpty()) ==> store.NoEmpty())
    ensures wrong <==> key in old(store.Live(now)) && !old(store.Live(now))[key].value.ListV?
  {
    hide Store.Shaped, IndexOf, NoEmptyIn;
    var cell := store.FindAlive(key, now);
    wrong := cell.Some? && !cell.value.value.ListV?;
  }

  /** replay_command. */
  method ReplayCommand(store: Store, clock: Clock, args: Command, scores: ScoreTexts)
    requires store.Valid()
    modifies store
    ensures store.Valid()
    ensures store.Live(clock.now) == LiveItems(ReplayStep(old(store.items), clock, args, scores), clock.now)
  {
    hide ReplayOp, LiveItems, Store.Shaped, IndexOf, NoEmptyIn, Apply;
    LiveIdempotent(old(store.items), clock.now);
    var op := ReplayOp(args, scores);
    if op.Some? {
      var _ := Execute(store, clock, op.value);
      LiveIdempotent(store.items, clock.now);
    }
  }
}
