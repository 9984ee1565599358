/** Which orders of a log are as good as the order of execution: replayed commands on different keys
    commute, and a log in which only such commands have changed places replays the same. */
module Reorder {
  import opened Bytes
  import opened Keyspace
  import opened Runs
  import opened Commands
  import opened Replay
  import opened Rewrite

  /** The keys an operation reads and writes. */
  datatype Touch = Everything | Only(keys: set<Str>)

  function KeysOf(op: Op): Touch {
    match op
    case On(key, _) => Only({key})
    case Mset(pairs) => Only(set i | 0 <= i < |pairs| :: pairs[i].0)
    case Del(keys) => Only(Members(keys))
    case _ => Everything
  }

  /** The keys of a logged command; what replay does not understand touches nothing. */
  function TouchOf(args: Command, scores: ScoreTexts): Touch {
    var op := ReplayOp(args, scores);
    if op.None? then Only({}) else KeysOf(op.value)
  }

  predicate Independent(x: Command, y: Command, scores: ScoreTexts) {
    var s, t := TouchOf(x, scores), TouchOf(y, scores);
    s.Only? && t.Only? && s.keys !! t.keys
  }

  // ----- operations are local

  lemma {:induction false} MsetUntouched(db: Db, pairs: seq<(Str, Str)>, k: Str)
    requires forall i :: 0 <= i < |pairs| ==> pairs[i].0 != k
    ensures Lookup(MsetDb(db, pairs), k) == Lookup(db, k)
  {
    if pairs != [] { MsetUntouched(db, pairs[..|pairs| - 1], k); }
  }

  lemma {:induction false} MsetLocal(a: Db, b: Db, pairs: seq<(Str, Str)>, k: Str)
    requires exists i :: 0 <= i < |pairs| && pairs[i].0 == k
    ensures Lookup(MsetDb(a, pairs), k) == Lookup(MsetDb(b, pairs), k)
  {
    var n := |pairs| - 1;
    if pairs[n].0 != k {
      var i :| 0 <= i < |pairs| && pairs[i].0 == k;
      assert pairs[..n][i].0 == k;
      MsetLocal(a, b, pairs[..n], k);
    }
  }

  lemma Untouched(db: Db, clock: Clock, op: Op, k: Str)
    requires AllAlive(db, clock.now) && KeysOf(op).Only? && k !in KeysOf(op).keys
    ensures Lookup(Apply(db, clock, op).db, k) == Lookup(db, k)
  {
    hide Act, MsetDb;
    if op.Mset? {
      assert forall i :: 0 <= i < |op.pairs| ==> op.pairs[i].0 in KeysOf(op).keys;
      MsetUntouched(db, op.pairs, k);
    }
  }

  /** What becomes of a key depends on the keys the operation touches. */
  lemma Local(a: Db, b: Db, clock: Clock, op: Op, k: Str)
    requires AllAlive(a, clock.now) && AllAlive(b, clock.now) && KeysOf(op).Only? && k in KeysOf(op).keys
    requires forall j :: j in KeysOf(op).keys ==> Lookup(a, j) == Lookup(b, j)
    ensures Lookup(Apply(a, clock, op).db, k) == Lookup(Apply(b, clock, op).db, k)
  {
    hide Act, MsetDb;
    match op
    case On(key, _) => assert key in KeysOf(op).keys;
    case Mset(pairs) => MsetLocal(a, b, pairs, k);
    case _ =>
  }

  lemma ActAlive(cell: Cell, clock: Clock, act: Action)
    requires (cell.Some? ==> Alive(cell.value.expireAt, clock.now)) && (act.Setex? ==> act.ttl > 0)
    ensures var c := Act(cell, clock, act).cell; c.Some? ==> Alive(c.value.expireAt, clock.now)
  {
    hide ParseInt64, ParseHashInteger, SignedDigits, FromChars, Overlay, Members, Reversed, Added;
  }

  lemma {:induction false} MsetAlive(db: Db, pairs: seq<(Str, Str)>, now: nat)
    requires AllAlive(db, now)
    ensures AllAlive(MsetDb(db, pairs), now)
  {
    if pairs != [] { MsetAlive(db, pairs[..|pairs| - 1], now); }
  }

  /** Nothing is left that has expired. */
  lemma ApplyAlive(db: Db, clock: Clock, op: Op)
    requires AllAlive(db, clock.now) && Legal(op) && KeysOf(op).Only?
    ensures AllAlive(Apply(db, clock, op).db, clock.now)
  {
    hide Act, MsetDb;
    match op
    case On(key, act) => ActAlive(Lookup(db, key), clock, act);
    case Mset(pairs) => MsetAlive(db, pairs, clock.now);
    case _ =>
  }

  lemma StepAlive(db: Db, clock: Clock, args: Command, scores: ScoreTexts)
    requires TouchOf(args, scores).Only?
    ensures var after := ReplayStep(db, clock, args, scores);
            AllAlive(after, clock.now) && LiveItems(after, clock.now) == after
  {
    hide ReplayOp, Apply, KeysOf;
    var op := ReplayOp(args, scores);
    if op.Some? { ApplyAlive(LiveItems(db, clock.now), clock, op.value); }
  }

  lemma StepUntouched(db: Db, clock: Clock, args: Command, scores: ScoreTexts, k: Str)
    requires TouchOf(args, scores).Only? && k !in TouchOf(args, scores).keys
    ensures Lookup(ReplayStep(db, clock, args, scores), k) == Lookup(LiveItems(db, clock.now), k)
  {
    hide ReplayOp, Apply, KeysOf, LiveItems;
    var op := ReplayOp(args, scores);
    if op.Some? { Untouched(LiveItems(db, clock.now), clock, op.value, k); }
  }

  lemma StepLocal(a: Db, b: Db, clock: Clock, args: Command, scores: ScoreTexts, k: Str)
    requires TouchOf(args, scores).Only? && k in TouchOf(args, scores).keys
    requires forall j :: j in TouchOf(args, scores).keys ==>
               Lookup(LiveItems(a, clock.now), j) == Lookup(LiveItems(b, clock.now), j)
    ensures Lookup(ReplayStep(a, clock, args, scores), k) == Lookup(ReplayStep(b, clock, args, scores), k)
  {
    hide ReplayOp, Apply, KeysOf, LiveItems, Lookup;
    var op := ReplayOp(args, scores);
    if op.Some? { Local(LiveItems(a, clock.now), LiveItems(b, clock.now), clock, op.value, k); }
  }

  // ----- independent commands commute

  /** A key of y is after x and y what it is after y alone. */
  lemma SecondDecides(db: Db, clock: Clock, x: Command, y: Command, scores: ScoreTexts, k: Str)
    requires Independent(x, y, scores) && k in TouchOf(y, scores).keys
    ensures Lookup(ReplayStep(ReplayStep(db, clock, x, scores), clock, y, scores), k)
         == Lookup(ReplayStep(db, clock, y, scores), k)
         == Lookup(ReplayStep(ReplayStep(db, clock, y, scores), clock, x, scores), k)
  {
    hide TouchOf, ReplayStep, LiveItems, Lookup;
    var a, b := ReplayStep(db, clock, x, scores), ReplayStep(db, clock, y, scores);
    StepAlive(db, clock, x, scores);
    StepAlive(db, clock, y, scores);
    forall j | j in TouchOf(y, scores).keys ensures Lookup(LiveItems(a, clock.now), j) == Lookup(LiveItems(db, clock.now), j) {
      StepUntouched(db, clock, x, scores, j);
    }
    StepLocal(a, db, clock, y, scores, k);
    StepUntouched(b, clock, x, scores, k);
  }

  lemma Commute(db: Db, clock: Clock, x: Command, y: Command, scores: ScoreTexts)
    requires Independent(x, y, scores)
    ensures ReplayStep(ReplayStep(db, clock, x, scores), clock, y, scores)
         == ReplayStep(ReplayStep(db, clock, y, scores), clock, x, scores)
  {
    hide TouchOf, ReplayStep, LiveItems, Lookup;
    var a, b := ReplayStep(db, clock, x, scores), ReplayStep(db, clock, y, scores);
    StepAlive(db, clock, x, scores);
    StepAlive(db, clock, y, scores);
    forall k ensures Lookup(ReplayStep(a, clock, y, scores), k) == Lookup(ReplayStep(b, clock, x, scores), k) {
      if k in TouchOf(y, scores).keys {
        SecondDecides(db, clock, x, y, scores, k);
      } else if k in TouchOf(x, scores).keys {
        SecondDecides(db, clock, y, x, scores, k);
      } else {
        StepUntouched(a, clock, y, scores, k);
        StepUntouched(b, clock, x, scores, k);
        StepUntouched(db, clock, x, scores, k);
        StepUntouched(db, clock, y, scores, k);
      }
    }
    SameEverywhere(ReplayStep(a, clock, y, scores), ReplayStep(b, clock, x, scores));
  }

  lemma SameEverywhere(a: Db, b: Db)
    requires forall k :: Lookup(a, k) == Lookup(b, k)
    ensures a == b
  {
    forall k ensures (k in a <==> k in b) && (k in a ==> a[k] == b[k]) { assert Lookup(a, k) == Lookup(b, k); }
  }

  // ----- other orders of a log

  /** b holds the commands of a, and any two that share a key are in the same order. */
  ghost predicate Reordered(a: seq<Command>, b: seq<Command>, scores: ScoreTexts)
    decreases |a|
  {
    if a == [] then b == []
    else
      exists j: nat ::
        j < |b| && b[j] == a[0] && (forall i :: 0 <= i < j ==> Independent(b[i], a[0], scores))
        && Reordered(a[1..], b[..j] + b[j + 1..], scores)
  }

  lemma {:induction false} SameOrder(a: seq<Command>, scores: ScoreTexts)
    ensures Reordered(a, a, scores)
    decreases |a|
  {
    if a != [] {
      SameOrder(a[1..], scores);
      assert a[..0] + a[0 + 1..] == a[1..];
    }
  }

  /** The place of the first command. */
  lemma FirstPlace(a: seq<Command>, b: seq<Command>, scores: ScoreTexts) returns (j: nat)
    requires a != [] && Reordered(a, b, scores)
    ensures j < |b| && b[j] == a[0] && b == b[..j] + [a[0]] + b[j + 1..] && a == [a[0]] + a[1..]
    ensures forall i :: 0 <= i < j ==> Independent(b[i], a[0], scores)
    ensures Reordered(a[1..], b[..j] + b[j + 1..], scores)
  {
    hide Independent;
    j :| j < |b| && b[j] == a[0] && (forall i :: 0 <= i < j ==> Independent(b[i], a[0], scores))
         && Reordered(a[1..], b[..j] + b[j + 1..], scores);
  }

  lemma NothingReordered(b: seq<Command>, scores: ScoreTexts)
    ensures Reordered([], b, scores) ==> b == []
  {
  }

  lemma Inserted(p: seq<Command>, x: Command, q: seq<Command>)
    ensures multiset(p + [x] + q) == multiset{x} + multiset(p + q)
  {
  }

  lemma {:induction false} ReorderedSame(a: seq<Command>, b: seq<Command>, scores: ScoreTexts)
    requires Reordered(a, b, scores)
    ensures multiset(a) == multiset(b)
    decreases |a|
  {
    hide Independent, Reordered;
    if a == [] {
      NothingReordered(b, scores);
    } else {
      var j := FirstPlace(a, b, scores);
      ReorderedSame(a[1..], b[..j] + b[j + 1..], scores);
      Inserted(b[..j], a[0], b[j + 1..]);
      Inserted([], a[0], a[1..]);
      assert [] + [a[0]] + a[1..] == a && [] + a[1..] == a[1..];
    }
  }

  /** A command may be moved in front of commands it is independent of. */
  lemma {:induction false} MovedToFront(db: Db, p: seq<Command>, x: Command, clock: Clock, scores: ScoreTexts)
    requires forall i :: 0 <= i < |p| ==> Independent(p[i], x, scores)
    ensures ReplayAll(db, p + [x], clock, scores) == ReplayAll(db, [x] + p, clock, scores)
    decreases |p|
  {
    hide Independent, ReplayStep;
    if p == [] {
      assert p + [x] == [x] + p;
    } else {
      var n := |p| - 1;
      var q, y := p[..n], p[n];
      MovedToFront(db, q, x, clock, scores);
      assert (p + [x])[..n + 1] == p && ([x] + p)[..n + 1] == [x] + q;
      assert (q + [x])[..n] == q;
      Commute(ReplayAll(db, q, clock, scores), clock, y, x, scores);
    }
  }

  /** Such a log replays the same. */
  lemma {:induction false} ReorderedReplays(db: Db, a: seq<Command>, b: seq<Command>, clock: Clock, scores: ScoreTexts)
    requires Reordered(a, b, scores)
    ensures ReplayAll(db, b, clock, scores) == ReplayAll(db, a, clock, scores)
    decreases |a|
  {
    hide Independent, ReplayAll, Reordered;
    if a == [] {
      NothingReordered(b, scores);
    } else {
      var x := a[0];
      var j := FirstPlace(a, b, scores);
      var p, q := b[..j], b[j + 1..];
      MovedToFront(db, p, x, clock, scores);
      var after := ReplayAll(db, [x], clock, scores);
      assert [x] + p + q == [x] + (p + q);
      ReplayAllConcat(db, p + [x], q, clock, scores);
      ReplayAllConcat(db, [x] + p, q, clock, scores);
      ReplayAllConcat(db, [x], p + q, clock, scores);
      ReplayAllConcat(db, [x], a[1..], clock, scores);
      ReorderedReplays(after, a[1..], p + q, clock, scores);
    }
  }
}
