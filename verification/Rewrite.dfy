/** The background rewrite (aof.hpp) as a compiler from a store to a command program, and the loader
    that runs such programs. */
module Rewrite {
  import opened Bytes
  import opened Keyspace
  import opened StoreModel
  import opened Runs
  import opened Commands
  import opened Replay
  import Dump
  import Laws
  import Resp
  import Stream

  /** What snprintf prints for a score. */
  type ScorePrinter = map<Score, Str>

  /** Printing a score and reading the text gives the score back. */
  ghost predicate PrintsBack(printer: ScorePrinter, scores: ScoreTexts, s: Score) {
    s in printer && printer[s] in scores && scores[printer[s]] == s
  }

  // ----- the compiler

  function FieldWords(pairs: seq<(Str, Str)>): (w: seq<Str>)
    ensures |w| == 2 * |pairs|
  {
    if pairs == [] then [] else FieldWords(pairs[..|pairs| - 1]) + [pairs[|pairs| - 1].0, pairs[|pairs| - 1].1]
  }

  function PrintScore(printer: ScorePrinter, s: Score): Str { if s in printer then printer[s] else [] }

  function ScoreWords(pairs: seq<(Str, Score)>, printer: ScorePrinter): (w: seq<Str>)
    ensures |w| == 2 * |pairs|
  {
    if pairs == [] then []
    else ScoreWords(pairs[..|pairs| - 1], printer) + [PrintScore(printer, pairs[|pairs| - 1].1), pairs[|pairs| - 1].0]
  }

  /** The command that creates an entry. */
  function Create(e: DumpEntry, printer: ScorePrinter): Command {
    match e.value
    case StringDump(t) => [Text("SET"), e.key, t]
    case ListDump(l) => [Text("RPUSH"), e.key] + l
    case HashDump(p) => [Text("HSET"), e.key] + FieldWords(p)
    case SetDump(m) => [Text("SADD"), e.key] + m
    case ZSetDump(p) => [Text("ZADD"), e.key] + ScoreWords(p, printer)
  }

  /** The commands written for one entry at wall-clock time wall. */
  function EntryProgram(e: DumpEntry, wall: nat, printer: ScorePrinter): seq<Command> {
    if EmptyDump(e.value) || (e.deadline != 0 && e.deadline <= wall) then []
    else if e.deadline == 0 then [Create(e, printer)]
    else [Create(e, printer), [Text("PEXPIREAT"), e.key, Digits(e.deadline)]]
  }

  function Program(entries: seq<DumpEntry>, wall: nat, printer: ScorePrinter): seq<Command> {
    if entries == [] then []
    else Program(entries[..|entries| - 1], wall, printer) + EntryProgram(entries[|entries| - 1], wall, printer)
  }

  /** The entry loop of perform_rewrite, whose output replaces the log. */
  method WriteProgram(entries: seq<DumpEntry>, wall: nat, printer: ScorePrinter) returns (out: Str)
    ensures out == Stream.PrintAll(Program(entries, wall, printer))
  {
    hide Stream.PrintAll, EntryProgram;
    PrintNothing();
    out := [];
    for i := 0 to |entries|
      invariant out == Stream.PrintAll(Program(entries[..i], wall, printer))
    {
      assert entries[..i + 1][..i] == entries[..i];
      var serialized := WriteEntry(entries[i], wall, printer);
      Stream.PrintAllConcat(Program(entries[..i], wall, printer), EntryProgram(entries[i], wall, printer));
      out := out + serialized;
    }
    assert entries[..|entries|] == entries;
  }

  lemma PrintNothing()
    ensures Stream.PrintAll([]) == []
  {
  }

  method WriteEntry(e: DumpEntry, wall: nat, printer: ScorePrinter) returns (serialized: Str)
    ensures serialized == Stream.PrintAll(EntryProgram(e, wall, printer))
  {
    hide Create, Digits, Text, Resp.Print;
    serialized := [];
    PrintNothing();
    if EmptyDump(e.value) || (e.deadline != 0 && e.deadline <= wall) { return; }
    serialized := Resp.Array(Create(e, printer));
    Stream.PrintAllOne(Create(e, printer));
    if e.deadline > wall {
      var expiry := [Text("PEXPIREAT"), e.key, Digits(e.deadline)];
      var more := Resp.Array(expiry);
      Stream.PrintAllOne(expiry);
      Stream.PrintAllConcat([Create(e, printer)], [expiry]);
      assert [Create(e, printer)] + [expiry] == [Create(e, printer), expiry];
      serialized := serialized + more;
    }
  }

  // ----- the interpreter

  /** Replaying a whole log at one time. */
  function ReplayAll(db: Db, log: seq<Command>, clock: Clock, scores: ScoreTexts): Db {
    if log == [] then db else ReplayStep(ReplayAll(db, log[..|log| - 1], clock, scores), clock, log[|log| - 1], scores)
  }

  lemma {:induction false} ReplayAllConcat(db: Db, a: seq<Command>, b: seq<Command>, clock: Clock, scores: ScoreTexts)
    ensures ReplayAll(db, a + b, clock, scores) == ReplayAll(ReplayAll(db, a, clock, scores), b, clock, scores)
    decreases |b|
  {
    hide ReplayStep;
    if b == [] {
      assert a + b == a;
    } else {
      var n := |b| - 1;
      ReplayAllConcat(db, a, b[..n], clock, scores);
      assert (a + b)[..|a + b| - 1] == a + b[..n];
    }
  }

  /** A log replayed at one time is one replayed with the same clock for every command. */
  lemma {:induction false} ReplayAllIsRun(db: Db, log: seq<Command>, clock: Clock, scores: ScoreTexts)
    ensures ReplayAll(db, log, clock, scores) == ReplayRun(db, log, seq(|log|, _ => clock), scores)
  {
    hide ReplayStep;
    if log != [] {
      var n := |log| - 1;
      ReplayAllIsRun(db, log[..n], clock, scores);
      assert seq(|log|, _ => clock)[..n] == seq(n, _ => clock);
    }
  }

  /** The inner loop of load: replays the commands in the buffer; a refused rest is dropped. */
  method ReplayBuffer(store: Store, parseBuffer: Str, clock: Clock, scores: ScoreTexts) returns (rest: Str)
    requires store.Valid()
    modifies store
    ensures store.Valid()
    ensures rest == if Stream.Drain(parseBuffer).refused then [] else Stream.Drain(parseBuffer).rest
    ensures store.Live(clock.now)
         == LiveItems(ReplayAll(old(store.items), Stream.Drain(parseBuffer).commands, clock, scores), clock.now)
  {
    hide ReplayStep, Store.Shaped, IndexOf, NoEmptyIn, LiveItems, Stream.Drain, Resp.ParseCommand;
    rest := parseBuffer;
    ghost var d, seen := Stream.Drain(parseBuffer), [];
    while true
      invariant store.Valid() && d.commands == seen + Stream.Drain(rest).commands
      invariant d.rest == Stream.Drain(rest).rest && d.refused == Stream.Drain(rest).refused
      invariant store.Live(clock.now) == LiveItems(ReplayAll(old(store.items), seen, clock, scores), clock.now)
      decreases |rest|
    {
      var parsed := Resp.Parser(rest);
      DrainUnfolds(rest);
      if !parsed.Success? {
        assert d.commands == seen;
        if parsed.Error? { rest := []; }
        break;
      }
      ReplayOnLive(store.items, ReplayAll(old(store.items), seen, clock, scores), clock, parsed.args, scores);
      rest := rest[parsed.consumed..];
      ReplayCommand(store, clock, parsed.args, scores);
      assert (seen + [parsed.args])[..|seen|] == seen;
      seen := seen + [parsed.args];
    }
  }

  /** AofManager::load: pieces are what the successive reads of the file return. */
  method Load(store: Store, pieces: seq<Str>, clock: Clock, scores: ScoreTexts)
    requires store.Valid()
    modifies store
    ensures store.Valid()
    ensures store.Live(clock.now)
         == LiveItems(ReplayAll(old(store.items), Stream.Loaded([], pieces), clock, scores), clock.now)
  {
    hide ReplayStep, ReplayAll, Store.Shaped, IndexOf, NoEmptyIn, LiveItems, Stream.Drain, Stream.Loaded;
    var parseBuffer: Str := [];
    ghost var done: seq<Command> := [];
    ghost var db := store.items;
    ReplayNothing(db, clock, scores);
    assert [] + Stream.Loaded([], pieces) == Stream.Loaded([], pieces) && pieces[0..] == pieces;
    for i := 0 to |pieces|
      invariant store.Valid() && Stream.Loaded([], pieces) == done + Stream.Loaded(parseBuffer, pieces[i..])
      invariant store.Live(clock.now) == LiveItems(ReplayAll(db, done, clock, scores), clock.now)
    {
      ghost var now := Stream.Drain(parseBuffer + pieces[i]).commands;
      LoadedUnfolds(done, parseBuffer, pieces, i);
      ReplayAllConcat(db, done, now, clock, scores);
      ReplayAllOnLive(store.items, ReplayAll(db, done, clock, scores), now, clock, scores);
      parseBuffer := ReplayBuffer(store, parseBuffer + pieces[i], clock, scores);
      done := done + now;
    }
    LoadedEnds(parseBuffer);
    assert pieces[|pieces|..] == [] && done + [] == done;
  }

  lemma LoadedUnfolds(done: seq<Command>, buffer: Str, pieces: seq<Str>, i: nat)
    requires i < |pieces|
    ensures var d := Stream.Drain(buffer + pieces[i]);
            done + Stream.Loaded(buffer, pieces[i..])
            == done + d.commands + Stream.Loaded(if d.refused then [] else d.rest, pieces[i + 1..])
  {
    hide Stream.Drain;
    assert pieces[i..][0] == pieces[i] && pieces[i..][1..] == pieces[i + 1..];
  }

  lemma LoadedEnds(buffer: Str)
    ensures Stream.Loaded(buffer, []) == []
  {
  }

  lemma ReplayNothing(db: Db, clock: Clock, scores: ScoreTexts)
    ensures ReplayAll(db, [], clock, scores) == db
  {
  }

  lemma {:induction false} ReplayAllOnLive(a: Db, b: Db, log: seq<Command>, clock: Clock, scores: ScoreTexts)
    requires LiveItems(a, clock.now) == LiveItems(b, clock.now)
    ensures LiveItems(ReplayAll(a, log, clock, scores), clock.now) == LiveItems(ReplayAll(b, log, clock, scores), clock.now)
  {
    hide ReplayStep, LiveItems;
    if log != [] {
      var n := |log| - 1;
      ReplayAllOnLive(a, b, log[..n], clock, scores);
      ReplayOnLive(ReplayAll(a, log[..n], clock, scores), ReplayAll(b, log[..n], clock, scores), clock, log[n], scores);
    }
  }

  lemma DrainUnfolds(b: Str)
    ensures var p := Resp.ParseCommand(b);
            (p.Success? ==>
               p.consumed <= |b| && 0 < p.consumed
               && Stream.Drain(b).commands == [p.args] + Stream.Drain(b[p.consumed..]).commands
               && Stream.Drain(b).rest == Stream.Drain(b[p.consumed..]).rest
               && Stream.Drain(b).refused == Stream.Drain(b[p.consumed..]).refused)
            && (!p.Success? ==> Stream.Drain(b).commands == [] && Stream.Drain(b).rest == b && Stream.Drain(b).refused == p.Error?)
  {
    hide Resp.ParseCommand;
  }

  /** Replay looks at live items only. */
  lemma ReplayOnLive(a: Db, b: Db, clock: Clock, args: Command, scores: ScoreTexts)
    requires LiveItems(a, clock.now) == LiveItems(b, clock.now)
    ensures ReplayStep(a, clock, args, scores) == ReplayStep(b, clock, args, scores)
  {
    hide LiveItems, ReplayOp, Apply;
  }

  // ----- the compiled program, command by command

  lemma {:induction false} FieldWordsAt(pairs: seq<(Str, Str)>, i: nat)
    requires i < |pairs|
    ensures FieldWords(pairs)[2 * i] == pairs[i].0 && FieldWords(pairs)[2 * i + 1] == pairs[i].1
  {
    var n := |pairs| - 1;
    if i < n { FieldWordsAt(pairs[..n], i); }
  }

  lemma {:induction false} ScoreWordsAt(pairs: seq<(Str, Score)>, printer: ScorePrinter, i: nat)
    requires i < |pairs|
    ensures ScoreWords(pairs, printer)[2 * i] == PrintScore(printer, pairs[i].1)
    ensures ScoreWords(pairs, printer)[2 * i + 1] == pairs[i].0
  {
    var n := |pairs| - 1;
    if i < n { ScoreWordsAt(pairs[..n], printer, i); }
  }

  lemma FieldWordsBack(pairs: seq<(Str, Str)>)
    ensures Pairs(FieldWords(pairs)) == pairs
  {
    forall i | 0 <= i < |pairs| ensures Pairs(FieldWords(pairs))[i] == pairs[i] { FieldWordsAt(pairs, i); }
  }

  lemma ScoreWordsBack(pairs: seq<(Str, Score)>, printer: ScorePrinter, scores: ScoreTexts)
    requires forall i :: 0 <= i < |pairs| ==> PrintsBack(printer, scores, pairs[i].1)
    ensures ScorePairs(ScoreWords(pairs, printer), scores) == Some(pairs)
  {
    var words := ScoreWords(pairs, printer);
    forall i | 0 <= i < |pairs|
      ensures words[2 * i] in scores && scores[words[2 * i]] == pairs[i].1 && words[2 * i + 1] == pairs[i].0
    {
      ScoreWordsAt(pairs, printer, i);
    }
    assert ScorePairs(words, scores).Some?;
    assert ScorePairs(words, scores).value == pairs;
  }

  lemma {:induction false} FirstIsLast(pairs: seq<(Str, Str)>)
    requires DistinctKeys(pairs)
    ensures FirstWins(pairs) == Overlay(map[], pairs)
    ensures forall f :: f in FirstWins(pairs) ==> exists i :: 0 <= i < |pairs| && pairs[i].0 == f
  {
    if pairs != [] {
      var n := |pairs| - 1;
      var rest := pairs[..n];
      FirstIsLast(rest);
      assert forall i :: 0 <= i < n ==> rest[i] == pairs[i];
      assert pairs[n].0 !in FirstWins(rest);
    }
  }

  /** The scores of an entry print and read back. */
  ghost predicate Printable(d: DumpValue, printer: ScorePrinter, scores: ScoreTexts) {
    d.ZSetDump? ==> forall i :: 0 <= i < |d.scores| ==> PrintsBack(printer, scores, d.scores[i].1)
  }

  /** The creating command stands for the operation that creates the listed value. */
  lemma CreateReplays(e: DumpEntry, v: Value, printer: ScorePrinter, scores: ScoreTexts, clock: Clock)
    requires Lists(e.value, v) && !EmptyDump(e.value) && Printable(e.value, printer, scores)
    ensures var op := ReplayOp(Create(e, printer), scores);
            op.Some? && op.value.On? && op.value.key == e.key
            && Act(None, clock, op.value.action).cell == Some(Item(v, 0))
  {
    hide VerbOf, Text, Digits, FromChars, Stoll, Stoull, ParseHashInteger, Pairs, ScorePairs, FieldWords, ScoreWords, Overlay,
      FirstWins, Members, PrintsBack;
    Verbs();
    var c := Create(e, printer);
    match e.value
    case StringDump(t) =>
    case ListDump(l) => assert c[2..] == l; assert [] + l == l;
    case HashDump(p) =>
      assert c[2..] == FieldWords(p);
      FieldWordsBack(p);
      FirstIsLast(p);
    case SetDump(m) => assert c[2..] == m; assert {} + Members(m) == Members(m);
    case ZSetDump(p) =>
      assert c[2..] == ScoreWords(p, printer);
      ScoreWordsBack(p, printer, scores);
  }

  lemma AllAliveLive(db: Db, now: nat)
    requires AllAlive(db, now)
    ensures LiveItems(db, now) == db
  {
  }

  lemma CreateStep(db: Db, e: DumpEntry, v: Value, printer: ScorePrinter, scores: ScoreTexts, clock: Clock)
    requires AllAlive(db, clock.now) && e.key !in db
    requires Lists(e.value, v) && !EmptyDump(e.value) && Printable(e.value, printer, scores)
    ensures ReplayStep(db, clock, Create(e, printer), scores) == db[e.key := Item(v, 0)]
  {
    hide LiveItems, Create, ReplayOp, Act, Lists, EmptyDump, Printable;
    AllAliveLive(db, clock.now);
    CreateReplays(e, v, printer, scores, clock);
  }

  lemma ExpireStep(db: Db, key: Str, deadline: nat, scores: ScoreTexts, clock: Clock)
    requires AllAlive(db, clock.now) && key in db && deadline <= UINT64_MAX
    ensures ReplayStep(db, clock, [Text("PEXPIREAT"), key, Digits(deadline)], scores)
         == if deadline <= clock.wall then db - {key}
            else db[key := db[key].(expireAt := clock.now + (deadline - clock.wall))]
  {
    hide LiveItems, ReplayOp, Text, Digits;
    AllAliveLive(db, clock.now);
    PexpireatReplays(key, deadline, scores);
  }

  lemma TwoSteps(db: Db, a: Command, b: Command, clock: Clock, scores: ScoreTexts)
    ensures ReplayAll(db, [a], clock, scores) == ReplayStep(db, clock, a, scores)
    ensures ReplayAll(db, [a, b], clock, scores) == ReplayStep(ReplayStep(db, clock, a, scores), clock, b, scores)
  {
    hide ReplayStep;
    assert [a][..0] == [] && [a, b][..1] == [a];
    ReplayNothing(db, clock, scores);
  }

  /** The program of one entry does what restoring the entry would. */
  lemma EntryReplays(db: Db, e: DumpEntry, v: Value, wall: nat, printer: ScorePrinter, scores: ScoreTexts, later: Clock)
    requires AllAlive(db, later.now) && e.key !in db && wall <= later.wall && e.deadline <= UINT64_MAX
    requires Lists(e.value, v) && !EmptyDump(e.value) && Printable(e.value, printer, scores)
    ensures ReplayAll(db, EntryProgram(e, wall, printer), later, scores) == RestoreDb(db, later, e)
    ensures AllAlive(RestoreDb(db, later, e), later.now)
  {
    hide ReplayAll, ReplayStep, Create, Text, Digits, Lists, EmptyDump, Printable, ValueOf;
    Dump.ListsValue(e.value, v);
    var expiry := [Text("PEXPIREAT"), e.key, Digits(e.deadline)];
    TwoSteps(db, Create(e, printer), expiry, later, scores);
    ReplayNothing(db, later, scores);
    CreateStep(db, e, v, printer, scores, later);
    var created := db[e.key := Item(v, 0)];
    ExpireStep(created, e.key, e.deadline, scores, later);
    assert created - {e.key} == db && db - {e.key} == db;
    assert created[e.key := Item(v, later.now)][e.key := Item(v, 0)] == created;
  }

  /** The whole program does what restoring the dump would. */
  lemma {:induction false} ProgramReplays(entries: seq<DumpEntry>, db: Db, at: Clock, wall: nat, printer: ScorePrinter,
                                          scores: ScoreTexts, later: Clock)
    requires forall i, j :: 0 <= i < j < |entries| ==> entries[i].key != entries[j].key
    requires forall i :: 0 <= i < |entries| ==> Dump.Listed(entries[i], db, at) && !EmptyDump(entries[i].value)
    requires forall i :: 0 <= i < |entries| ==> Printable(entries[i].value, printer, scores) && entries[i].deadline <= UINT64_MAX
    requires wall <= later.wall
    ensures ReplayAll(map[], Program(entries, wall, printer), later, scores) == RestoreAll(map[], later, entries)
    ensures AllAlive(RestoreAll(map[], later, entries), later.now)
  {
    hide ReplayAll, Lists, EmptyDump, Printable, RestoreDb, EntryProgram;
    ReplayNothing(map[], later, scores);
    if entries != [] {
      var n := |entries| - 1;
      var rest, last := entries[..n], entries[n];
      ProgramReplays(rest, db, at, wall, printer, scores, later);
      ReplayAllConcat(map[], Program(rest, wall, printer), EntryProgram(last, wall, printer), later, scores);
      Dump.RestoreAllElsewhere(rest, later, last.key);
      EntryReplays(RestoreAll(map[], later, rest), last, db[last.key].value, wall, printer, scores, later);
    }
  }

  // ----- main results

  /** The scores of a keyspace print and read back. */
  ghost predicate AllPrintable(db: Db, printer: ScorePrinter, scores: ScoreTexts) {
    forall k :: k in db && db[k].value.ZSetV? ==>
      forall m :: m in db[k].value.scores ==> PrintsBack(printer, scores, db[k].value.scores[m])
  }

  lemma ListedPrintable(e: DumpEntry, db: Db, at: Clock, printer: ScorePrinter, scores: ScoreTexts)
    requires Dump.Listed(e, db, at) && AllPrintable(db, printer, scores)
    ensures Printable(e.value, printer, scores)
  {
    hide PrintsBack, Overlay;
    if e.value.ZSetDump? {
      var p := e.value.scores;
      forall i | 0 <= i < |p| ensures PrintsBack(printer, scores, p[i].1) {
        Laws.OverlayHolds(map[], p, p[i].0, i);
      }
    }
  }

  /** The rewrite is a correct compiler: replaying its program from an empty store, at any time after
      the rewrite, gives what the store has become by then: the same values of all five kinds, the
      same wall-clock deadlines, and none of the keys that have expired in between. */
  lemma RewriteCarries(db: Db, at: Clock, entries: seq<DumpEntry>, wall: nat, printer: ScorePrinter, scores: ScoreTexts, later: Clock)
    requires Dumps(entries, db, at) && wall <= later.wall && AllPrintable(db, printer, scores)
    requires forall k :: k in db ==>
               Alive(db[k].expireAt, at.now) && !EmptyValue(db[k].value) && WallDeadline(db[k].expireAt, at) <= UINT64_MAX
    ensures var replayed := ReplayAll(map[], Program(entries, wall, printer), later, scores);
            Carries(db, at, replayed, later) && LiveItems(replayed, later.now) == replayed
  {
    hide ReplayAll, Program, RestoreAll, Lists, EmptyValue, EmptyDump, Printable, Carries, AllPrintable, LiveItems;
    forall i | 0 <= i < |entries|
      ensures Dump.Listed(entries[i], db, at) && !EmptyDump(entries[i].value)
              && Printable(entries[i].value, printer, scores) && entries[i].deadline <= UINT64_MAX
    {
      Dump.ListsNonEmpty(entries[i].value, db[entries[i].key].value);
      ListedPrintable(entries[i], db, at, printer, scores);
    }
    ProgramReplays(entries, db, at, wall, printer, scores, later);
    AllAliveLive(RestoreAll(map[], later, entries), later.now);
    Dump.RestoreCarries(db, at, entries, later);
  }

  /** Before any deadline, a store carried over agrees with the original. */
  lemma CarriedAgrees(a: Db, ca: Clock, b: Db, cb: Clock, oa: int, ob: int, horizon: int)
    requires Carries(a, ca, b, cb) && Steady(ca, oa) && Steady(cb, ob)
    requires Beyond(a, oa, horizon) && cb.wall < horizon && NoEmptyIn(a)
    ensures Mirrors(Fresh(a), b, oa, ob, horizon)
  {
    forall k
      ensures CellsAgree(Lookup(a, k), Lookup(b, k), oa, ob, true)
      ensures k in b && b[k].expireAt != 0 ==> b[k].expireAt + ob >= horizon
    {
      if k in a { DeadlineShift(a[k].expireAt, ca, oa); }
      if k in b { DeadlineShift(b[k].expireAt, cb, ob); }
    }
  }

  lemma DeadlineShift(expireAt: nat, clock: Clock, offset: int)
    requires Steady(clock, offset)
    ensures WallDeadline(expireAt, clock) == if expireAt == 0 then 0 else expireAt + offset
  {
  }
}
