/** End to end: what a restart finds in the log file, after a shutdown, a crash at any byte, or a
    rewrite. */
module Durability {
  import opened Bytes
  import opened Keyspace
  import opened StoreModel
  import opened Runs
  import opened Commands
  import opened Replay
  import opened Rewrite
  import AofLog
  import Dump
  import Reorder
  import Resp
  import Snapshot
  import Stream

  /** Every command of the log fits the parser's integers. */
  ghost predicate AllSized(log: seq<Command>) { forall i :: 0 <= i < |log| ==> Resp.Sized(log[i]) }

  /** One clock reading for a whole restart, after the run and before any deadline. */
  predicate RestartClock(clock: Clock, requests: seq<Request>, offset: int, horizon: int) {
    Steady(clock, offset) && clock.wall < horizon
    && forall i :: 0 <= i < |requests| ==> requests[i].clock.wall <= clock.wall
  }

  lemma {:induction false} ReplayMirrors(start: Live, copy: Db, requests: seq<Request>, clock: Clock,
                                         scores: ScoreTexts, oa: int, ob: int, horizon: int)
    requires Mirrors(start, copy, oa, ob, horizon) && start.log == [] && FairRun(start, requests, scores, oa, horizon)
    requires RestartClock(clock, requests, ob, horizon)
    ensures var end := LiveRun(start, requests, scores);
            Mirrors(end, ReplayAll(copy, end.log, clock, scores), oa, ob, horizon)
  {
    hide Mirrors, FairRun, LiveRun, ReplayAll, ReplayRun;
    var log := LiveRun(start, requests, scores).log;
    ReplayAllIsRun(copy, log, clock, scores);
    LogReplays(start, copy, requests, seq(|log|, _ => clock), scores, oa, ob, horizon);
  }

  // ----- a crash at any byte

  /** A prefix of a printed log is some whole commands and a truncated one. */
  lemma {:induction false} CutLog(log: seq<Command>, cut: nat) returns (m: nat, last: Command, n: nat)
    requires cut <= |Stream.PrintAll(log)| && AllSized(log)
    ensures m <= |log| && Resp.Sized(last) && n < |Resp.Print(last)|
    ensures Stream.PrintAll(log)[..cut] == Stream.PrintAll(log[..m]) + Resp.Print(last)[..n]
    ensures cut == |Stream.PrintAll(log)| ==> m == |log|
    decreases |log|
  {
    hide Resp.Print;
    if log == [] {
      m, last, n := 0, [], 0;
      Stream.PrintStartsWithAsterisk(last);
    } else {
      var first := Resp.Print(log[0]);
      Stream.PrintStartsWithAsterisk(log[0]);
      var all := Stream.PrintAll(log);
      assert all == first + Stream.PrintAll(log[1..]);
      if cut < |first| {
        m, last, n := 0, log[0], cut;
        assert all[..cut] == first[..cut] == [] + first[..cut];
      } else {
        m, last, n := CutLog(log[1..], cut - |first|);
        assert all[..cut] == first + Stream.PrintAll(log[1..])[..cut - |first|];
        assert log[..m + 1][0] == log[0] && log[..m + 1][1..] == log[1..][..m];
        m := m + 1;
      }
    }
  }

  /** The log grows by at most one command a request, so every shorter log was the log at some time. */
  lemma {:induction false} LogAt(start: Live, requests: seq<Request>, scores: ScoreTexts, m: nat) returns (i: nat)
    requires start.log == [] && m <= |LiveRun(start, requests, scores).log|
    ensures i <= |requests|
    ensures LiveRun(start, requests[..i], scores).log == LiveRun(start, requests, scores).log[..m]
    ensures m == |LiveRun(start, requests, scores).log| ==> i == |requests|
    decreases |requests|
  {
    hide LiveStep, LiveRun;
    RunUnfolds(start, requests, scores);
    var log := LiveRun(start, requests, scores).log;
    if m == |log| {
      i := |requests|;
      assert requests[..i] == requests && log[..m] == log;
    } else {
      var n := |requests| - 1;
      LogGrows(LiveRun(start, requests[..n], scores), requests[n], scores);
      var before := LiveRun(start, requests[..n], scores).log;
      assert log[..|before|] == before;
      i := LogAt(start, requests[..n], scores, m);
      assert requests[..n][..i] == requests[..i];
      assert log[..m] == log[..|before|][..m];
    }
  }

  lemma {:induction false} FairTo(start: Live, requests: seq<Request>, scores: ScoreTexts, offset: int, horizon: int, i: nat)
    requires i <= |requests| && FairRun(start, requests, scores, offset, horizon)
    ensures FairRun(start, requests[..i], scores, offset, horizon)
  {
    hide Fair, LiveRun;
    forall j | 0 <= j < i
      ensures Fair(LiveRun(start, requests[..i][..j], scores).db, requests[..i][j], scores, offset, horizon)
    {
      assert requests[..i][..j] == requests[..j];
    }
  }

  /** Let a program restore a store, and let `tail` be the beginning of what requests on that store log.
      However much of the tail follows the program in the file, cut at any byte and read back in any
      pieces, the restarted store mirrors the live store as it was after some of the requests: those
      whose commands are in the file, and all of them if nothing is missing. */
  lemma {:induction false} PrefixRestores(start: Db, program: seq<Command>, requests: seq<Request>,
                                          tail: seq<Command>, cut: nat, pieces: seq<Str>,
                       clock: Clock, scores: ScoreTexts, oa: int, ob: int, horizon: int) returns (i: nat)
    requires Mirrors(Fresh(start), ReplayAll(map[], program, clock, scores), oa, ob, horizon)
    requires FairRun(Fresh(start), requests, scores, oa, horizon) && RestartClock(clock, requests, ob, horizon)
    requires tail <= LiveRun(Fresh(start), requests, scores).log && AllSized(program) && AllSized(tail)
    requires cut <= |Stream.PrintAll(tail)|
    requires Stream.Concat(pieces) == Stream.PrintAll(program) + Stream.PrintAll(tail)[..cut]
    ensures i <= |requests|
    ensures Mirrors(LiveRun(Fresh(start), requests[..i], scores),
                    ReplayAll(map[], Stream.Loaded([], pieces), clock, scores), oa, ob, horizon)
    ensures LiveRun(Fresh(start), requests[..i], scores).log <= tail
    ensures cut == |Stream.PrintAll(tail)| ==> LiveRun(Fresh(start), requests[..i], scores).log == tail
    ensures cut == |Stream.PrintAll(tail)| && tail == LiveRun(Fresh(start), requests, scores).log ==> i == |requests|
  {
    hide Mirrors, FairRun, LiveRun, ReplayAll, Resp.Print, Stream.Loaded, Stream.PrintAll, Stream.Concat;
    var m, last, n := CutLog(tail, cut);
    Stream.PrintAllConcat(program, tail[..m]);
    assert Stream.Concat(pieces) == Stream.PrintAll(program + tail[..m]) + Resp.Print(last)[..n];
    Stream.LoadedAnyCut(program + tail[..m], last, n, pieces);
    ReplayAllConcat(map[], program, tail[..m], clock, scores);
    i := LogAt(Fresh(start), requests, scores, m);
    assert LiveRun(Fresh(start), requests, scores).log[..m] == tail[..m];
    FairTo(Fresh(start), requests, scores, oa, horizon, i);
    ReplayMirrors(Fresh(start), ReplayAll(map[], program, clock, scores), requests[..i], clock, scores, oa, ob, horizon);
  }

  // ----- the three ways to stop

  lemma CommandsPrefix(a: seq<AofLog.Logged>, b: seq<AofLog.Logged>)
    requires a <= b
    ensures AofLog.Commands(a) <= AofLog.Commands(b)
  {
  }

  /** Without a rewrite the file is a prefix of the appends. */
  lemma FileIsPrefix(steps: seq<AofLog.Step>)
    requires AofLog.Runs(AofLog.START, steps) && AofLog.StaysOpen(steps) && AofLog.SafeRun(AofLog.START, steps)
    requires forall j :: 0 <= j < |steps| ==> !steps[j].Switch?
    ensures var w := AofLog.After(AofLog.START, steps);
            w.file <= w.appended && AofLog.Ordered(w) && w.open && w.replaced == []
  {
    hide AofLog.Runs, AofLog.SafeRun, AofLog.After, AofLog.Do;
    AofLog.StartOrdered();
    AofLog.SafeRunOrders(AofLog.START, steps);
    AofLog.FileKept(AofLog.START, steps);
  }

  /** Crash consistency: in whatever way appends, background writes and safe flushes were interleaved,
      however much of the file is left, cut at any byte and read back in any pieces, the restarted store
      mirrors the live store as it was after some of the requests, and nothing that had reached the file
      is missing if the file is whole. */
  lemma {:induction false} RestartAfterCrash(requests: seq<Request>, steps: seq<AofLog.Step>, cut: nat,
                                             pieces: seq<Str>, clock: Clock, scores: ScoreTexts,
                          oa: int, ob: int, horizon: int) returns (i: nat)
    requires FairRun(Fresh(map[]), requests, scores, oa, horizon) && RestartClock(clock, requests, ob, horizon)
    requires AofLog.Runs(AofLog.START, steps) && AofLog.StaysOpen(steps) && AofLog.SafeRun(AofLog.START, steps)
    requires forall j :: 0 <= j < |steps| ==> !steps[j].Switch?
    requires AofLog.Commands(AofLog.After(AofLog.START, steps).appended) == LiveRun(Fresh(map[]), requests, scores).log
    requires AllSized(LiveRun(Fresh(map[]), requests, scores).log)
    requires var text := AofLog.LogText(AofLog.After(AofLog.START, steps).file);
             cut <= |text| && Stream.Concat(pieces) == text[..cut]
    ensures i <= |requests|
    ensures Mirrors(LiveRun(Fresh(map[]), requests[..i], scores),
                    ReplayAll(map[], Stream.Loaded([], pieces), clock, scores), oa, ob, horizon)
    ensures var file := AofLog.After(AofLog.START, steps).file;
            cut == |AofLog.LogText(file)| ==> LiveRun(Fresh(map[]), requests[..i], scores).log == AofLog.Commands(file)
  {
    hide Mirrors, FairRun, LiveRun, ReplayAll, AofLog.Runs, AofLog.SafeRun, AofLog.After, Stream.Loaded, Stream.PrintAll, Stream.Concat;
    FileIsPrefix(steps);
    var w := AofLog.After(AofLog.START, steps);
    CommandsPrefix(w.file, w.appended);
    NothingMirrored(oa, ob, horizon);
    NothingReplayed(clock, scores);
    i := PrefixRestores(map[], [], requests, AofLog.Commands(w.file), cut, pieces, clock, scores, oa, ob, horizon);
  }

  lemma NothingReplayed(clock: Clock, scores: ScoreTexts)
    ensures ReplayAll(map[], [], clock, scores) == map[] && Stream.PrintAll([]) == []
  {
  }

  /** A program and, behind it, all that requests logged, in an order in which only commands on different
      keys have changed places, restore the store after all of them. */
  lemma {:induction false} WholeRestores(start: Db, program: seq<Command>, requests: seq<Request>, tail: seq<Command>,
                                         pieces: seq<Str>, clock: Clock, scores: ScoreTexts, oa: int, ob: int, horizon: int)
    requires Mirrors(Fresh(start), ReplayAll(map[], program, clock, scores), oa, ob, horizon)
    requires FairRun(Fresh(start), requests, scores, oa, horizon) && RestartClock(clock, requests, ob, horizon)
    requires Reorder.Reordered(LiveRun(Fresh(start), requests, scores).log, tail, scores)
    requires AllSized(program) && AllSized(tail)
    requires Stream.Concat(pieces) == Stream.PrintAll(program) + Stream.PrintAll(tail)
    ensures Mirrors(LiveRun(Fresh(start), requests, scores),
                    ReplayAll(map[], Stream.Loaded([], pieces), clock, scores), oa, ob, horizon)
  {
    hide Mirrors, FairRun, LiveRun, ReplayAll, Resp.Print, Stream.Loaded, Stream.PrintAll, Stream.Concat, Reorder.Reordered;
    Stream.PrintAllConcat(program, tail);
    LoadedWhole(program + tail, pieces);
    ReplayAllConcat(map[], program, tail, clock, scores);
    var copy := ReplayAll(map[], program, clock, scores);
    Reorder.ReorderedReplays(copy, LiveRun(Fresh(start), requests, scores).log, tail, clock, scores);
    ReplayMirrors(Fresh(start), copy, requests, clock, scores, oa, ob, horizon);
  }

  /** After an orderly shutdown, in whatever way appends, background writes and safe flushes were
      interleaved, and though commands on different keys may have been appended in another order than
      they were executed in, the file read back in any pieces restores the final store. */
  lemma {:induction false} RestartAfterShutdown(requests: seq<Request>, steps: seq<AofLog.Step>, pieces: seq<Str>,
                                                clock: Clock, scores: ScoreTexts, oa: int, ob: int, horizon: int)
    requires FairRun(Fresh(map[]), requests, scores, oa, horizon) && RestartClock(clock, requests, ob, horizon)
    requires AofLog.Runs(AofLog.START, steps) && AofLog.StaysOpen(steps) && AofLog.SafeRun(AofLog.START, steps)
    requires forall j :: 0 <= j < |steps| ==> !steps[j].Switch?
    requires !AofLog.After(AofLog.START, steps).between
    requires var appended := AofLog.Commands(AofLog.After(AofLog.START, steps).appended);
             Reorder.Reordered(LiveRun(Fresh(map[]), requests, scores).log, appended, scores) && AllSized(appended)
    requires Stream.Concat(pieces) == AofLog.LogText(AofLog.Do(AofLog.After(AofLog.START, steps), AofLog.Flush).file)
    ensures Mirrors(LiveRun(Fresh(map[]), requests, scores),
                    ReplayAll(map[], Stream.Loaded([], pieces), clock, scores), oa, ob, horizon)
  {
    hide Mirrors, FairRun, LiveRun, ReplayAll, AofLog.Do, AofLog.After, AofLog.Runs, AofLog.SafeRun, Stream.Loaded, Stream.PrintAll,
      Stream.Concat, Reorder.Reordered;
    FileIsPrefix(steps);
    var w := AofLog.After(AofLog.START, steps);
    AofLog.ShutdownCompletes(w);
    FlushedFile(w);
    NothingMirrored(oa, ob, horizon);
    NothingReplayed(clock, scores);
    WholeRestores(map[], [], requests, AofLog.Commands(w.appended), pieces, clock, scores, oa, ob, horizon);
  }

  lemma FlushedFile(w: AofLog.Writer)
    requires w.replaced == []
    ensures AofLog.Do(w, AofLog.Flush).file == AofLog.Written(AofLog.Do(w, AofLog.Flush))
  {
  }

  function SetCommand(key: Str, value: Str): Command { [Text("SET"), key, value] }

  lemma SetHandled(key: Str, value: Str, scores: ScoreTexts)
    ensures var op := On(key, Set(value, 0, false, false, false));
            Handle(SetCommand(key, value), scores) == Write(op) && ReplayOp(SetCommand(key, value), scores) == Some(op)
  {
    hide VerbOf, ReplayOp, Text;
    Verbs();
    ReplayReadsHandled(SetCommand(key, value), scores);
  }

  /** The order of the appends has to be that of the executions: two SETs of one key that are logged the
      other way round restore the other value. */
  lemma AppendOrderMatters(key: Str, a: Str, b: Str, clock: Clock, scores: ScoreTexts)
    ensures var live := LiveRun(Fresh(map[]), [Request(clock, SetCommand(key, a), []), Request(clock, SetCommand(key, b), [])], scores);
            live.log == [SetCommand(key, a), SetCommand(key, b)]
            && live.db == map[key := Item(StringV(b), 0)]
            && ReplayAll(map[], [SetCommand(key, b), SetCommand(key, a)], clock, scores) == map[key := Item(StringV(a), 0)]
  {
    hide Handle, ReplayOp, SetCommand, LiveStep, ReplayStep, LiveRun, ReplayAll;
    var x, y := Request(clock, SetCommand(key, a), []), Request(clock, SetCommand(key, b), []);
    var none: Db := map[];
    RunTwo(Fresh(none), x, y, scores);
    SetStep(Fresh(none), x, key, a, scores);
    SetStep(LiveStep(Fresh(none), x, scores), y, key, b, scores);
    assert [] + [x.args] + [y.args] == [x.args, y.args];
    ReplayTwo(none, y.args, x.args, clock, scores);
    SetReplayed(none, key, b, clock, scores);
    SetReplayed(map[key := Item(StringV(b), 0)], key, a, clock, scores);
  }

  lemma RunTwo(start: Live, x: Request, y: Request, scores: ScoreTexts)
    ensures LiveRun(start, [x, y], scores) == LiveStep(LiveStep(start, x, scores), y, scores)
  {
    hide LiveStep;
    assert [x, y][..1] == [x] && [x][..0] == [];
    assert LiveRun(start, [x], scores) == LiveStep(LiveRun(start, [], scores), x, scores);
  }

  lemma ReplayTwo(db: Db, x: Command, y: Command, clock: Clock, scores: ScoreTexts)
    ensures ReplayAll(db, [x, y], clock, scores) == ReplayStep(ReplayStep(db, clock, x, scores), clock, y, scores)
  {
    hide ReplayStep;
    assert [x, y][..1] == [x] && [x][..0] == [];
    assert ReplayAll(db, [x], clock, scores) == ReplayStep(ReplayAll(db, [], clock, scores), clock, x, scores);
  }

  lemma SetStep(l: Live, r: Request, key: Str, value: Str, scores: ScoreTexts)
    requires r.args == SetCommand(key, value) && l.db.Keys <= {key}
    ensures LiveStep(l, r, scores) == Live(map[key := Item(StringV(value), 0)], l.log + [r.args], l.loose)
  {
    hide Handle, SetCommand;
    SetHandled(key, value, scores);
  }

  lemma SetReplayed(db: Db, key: Str, value: Str, clock: Clock, scores: ScoreTexts)
    requires db.Keys <= {key}
    ensures ReplayStep(db, clock, SetCommand(key, value), scores) == map[key := Item(StringV(value), 0)]
  {
    hide ReplayOp, SetCommand;
    SetHandled(key, value, scores);
  }

  lemma LoadedWhole(log: seq<Command>, pieces: seq<Str>)
    requires AllSized(log) && Stream.Concat(pieces) == Stream.PrintAll(log)
    ensures Stream.Loaded([], pieces) == log
  {
    hide Resp.Print, Stream.Loaded, Stream.Concat;
    var none: Command := [];
    Stream.PrintStartsWithAsterisk(none);
    assert Resp.Print(none)[..0] == [] && Stream.PrintAll(log) + [] == Stream.PrintAll(log);
    Stream.LoadedAnyCut(log, none, 0, pieces);
  }

  lemma FairRest(start: Live, earlier: seq<Request>, later: seq<Request>, scores: ScoreTexts, offset: int, horizon: int)
    requires FairRun(start, earlier + later, scores, offset, horizon)
    ensures FairRun(start, earlier, scores, offset, horizon)
    ensures FairRun(Fresh(LiveRun(start, earlier, scores).db), later, scores, offset, horizon)
  {
    hide Fair, LiveRun;
    var all, middle := earlier + later, LiveRun(start, earlier, scores);
    FairTo(start, all, scores, offset, horizon, |earlier|);
    assert all[..|earlier|] == earlier;
    forall j | 0 <= j < |later|
      ensures Fair(LiveRun(Fresh(middle.db), later[..j], scores).db, later[j], scores, offset, horizon)
    {
      assert all[..|earlier| + j] == earlier + later[..j] && all[|earlier| + j] == later[j];
      RunJoined(start, earlier, later[..j], scores);
    }
  }

  /** The appends after the dump. */
  function SinceDump(before: seq<AofLog.Step>, during: seq<AofLog.Step>, after: seq<AofLog.Step>): seq<Command> {
    var v, e := AofLog.AtDump(before), AofLog.After(AofLog.START, AofLog.Rewriting(before, during, after));
    if |v.appended| <= |e.appended| then AofLog.Commands(e.appended[|v.appended|..]) else []
  }

  /** The commands behind the compacted part are the first of those appended after the dump. */
  lemma TailAfterDump(w: AofLog.Writer)
    requires AofLog.Exact(w)
    ensures AofLog.Commands(w.file) <= AofLog.Commands(w.appended[w.compacted..])
    ensures w.flushing == [] && w.active == [] ==> AofLog.Commands(w.file) == AofLog.Commands(w.appended[w.compacted..])
  {
    var tail := w.file + w.flushing + w.active;
    assert AofLog.Commands(w.file) == AofLog.Commands(tail)[..|w.file|];
    assert w.flushing == [] && w.active == [] ==> tail == w.file;
  }

  /** A run with a background rewrite, at any time after the switch of files. If as many commands reached
      the old file between dump and switch as were buffered at the dump, which is to say that the new
      file is exact, then the new file, cut anywhere behind its compacted part and read back in any
      pieces, restores the store as it was at some time since the dump; and the final store, if the file
      is whole and the buffers are empty, as they are after the stopping flush. What was appended before
      the dump, and in which order, does not matter. */
  lemma {:induction false} RestartAfterRewrite(start: Db, earlier: seq<Request>, later: seq<Request>,
                            before: seq<AofLog.Step>, during: seq<AofLog.Step>, after: seq<AofLog.Step>,
                            at: Clock, entries: seq<DumpEntry>, wall: nat, printer: ScorePrinter, cut: nat, pieces: seq<Str>,
                            clock: Clock, scores: ScoreTexts, oa: int, ob: int, horizon: int) returns (i: nat)
    requires NoEmptyIn(start) && Beyond(start, oa, horizon) && FairRun(Fresh(start), earlier + later, scores, oa, horizon)
    requires RestartClock(clock, later, ob, horizon)
    requires AofLog.OneRewrite(before, during, after)
    requires var v, w := AofLog.AtDump(before), AofLog.AtSwitch(before, during);
             |w.file| - |v.file| == |v.flushing| + |v.active|
    requires var since := SinceDump(before, during, after);
             since == LiveRun(Fresh(LiveRun(Fresh(start), earlier, scores).db), later, scores).log && AllSized(since)
    requires var text := AofLog.LogText(AofLog.After(AofLog.START, AofLog.Rewriting(before, during, after)).file);
             cut <= |text| && Stream.Concat(pieces) == Stream.PrintAll(Program(entries, wall, printer)) + text[..cut]
    requires var db := LiveRun(Fresh(start), earlier, scores).db;
             Dumps(entries, db, at) && AllPrintable(db, printer, scores)
             && forall k :: k in db ==> WallDeadline(db[k].expireAt, at) <= UINT64_MAX
    requires Steady(at, oa) && at.wall < horizon && wall <= clock.wall && AllSized(Program(entries, wall, printer))
    ensures i <= |later|
    ensures Mirrors(LiveRun(Fresh(LiveRun(Fresh(start), earlier, scores).db), later[..i], scores),
                    ReplayAll(map[], Stream.Loaded([], pieces), clock, scores), oa, ob, horizon)
    ensures var e := AofLog.After(AofLog.START, AofLog.Rewriting(before, during, after));
            cut == |AofLog.LogText(e.file)| && e.flushing == [] && e.active == [] ==> i == |later|
  {
    hide Mirrors, FairRun, LiveRun, ReplayAll, Program, Dumps, AllPrintable, Carries, Beyond, LiveItems, NoEmptyIn, Stream.Loaded,
      Stream.PrintAll, Stream.Concat, AofLog.OneRewrite, AofLog.AtDump, AofLog.AtSwitch, AofLog.After, AofLog.Rewriting, AofLog.Exact,
      AofLog.Commands, SinceDump;
    var middle := LiveRun(Fresh(start), earlier, scores);
    FairRest(Fresh(start), earlier, later, scores, oa, horizon);
    RunKeeps(Fresh(start), earlier, scores, oa, horizon);
    var e := AofLog.After(AofLog.START, AofLog.Rewriting(before, during, after));
    ExactTail(before, during, after);
    TailSized(SinceDump(before, during, after), AofLog.Commands(e.file));
    DumpRestores(middle.db, at, entries, wall, printer, clock, scores, oa, ob, horizon);
    i := PrefixRestores(middle.db, Program(entries, wall, printer), later, AofLog.Commands(e.file), cut, pieces, clock, scores,
                        oa, ob, horizon);
  }

  /** The same for a run that ends in an orderly shutdown, though commands on different keys may have been
      appended in another order than they were executed in. */
  lemma {:induction false} ShutdownAfterRewrite(start: Db, earlier: seq<Request>, later: seq<Request>,
                            before: seq<AofLog.Step>, during: seq<AofLog.Step>, after: seq<AofLog.Step>,
                            at: Clock, entries: seq<DumpEntry>, wall: nat, printer: ScorePrinter, pieces: seq<Str>,
                            clock: Clock, scores: ScoreTexts, oa: int, ob: int, horizon: int)
    requires NoEmptyIn(start) && Beyond(start, oa, horizon) && FairRun(Fresh(start), earlier + later, scores, oa, horizon)
    requires RestartClock(clock, later, ob, horizon)
    requires AofLog.OneRewrite(before, during, after)
    requires var v, w := AofLog.AtDump(before), AofLog.AtSwitch(before, during);
             |w.file| - |v.file| == |v.flushing| + |v.active|
    requires var since := SinceDump(before, during, after);
             Reorder.Reordered(LiveRun(Fresh(LiveRun(Fresh(start), earlier, scores).db), later, scores).log, since, scores)
             && AllSized(since)
    requires var e := AofLog.After(AofLog.START, AofLog.Rewriting(before, during, after));
             e.flushing == [] && e.active == []
             && Stream.Concat(pieces) == Stream.PrintAll(Program(entries, wall, printer)) + AofLog.LogText(e.file)
    requires var db := LiveRun(Fresh(start), earlier, scores).db;
             Dumps(entries, db, at) && AllPrintable(db, printer, scores)
             && forall k :: k in db ==> WallDeadline(db[k].expireAt, at) <= UINT64_MAX
    requires Steady(at, oa) && at.wall < horizon && wall <= clock.wall && AllSized(Program(entries, wall, printer))
    ensures Mirrors(LiveRun(Fresh(LiveRun(Fresh(start), earlier, scores).db), later, scores),
                    ReplayAll(map[], Stream.Loaded([], pieces), clock, scores), oa, ob, horizon)
  {
    hide Mirrors, FairRun, LiveRun, ReplayAll, Program, Dumps, AllPrintable, Carries, Beyond, LiveItems, NoEmptyIn, Stream.Loaded,
      Stream.PrintAll, Stream.Concat, AofLog.OneRewrite, AofLog.AtDump, AofLog.AtSwitch, AofLog.After, AofLog.Rewriting, AofLog.Exact,
      AofLog.Commands, SinceDump, Reorder.Reordered;
    var middle := LiveRun(Fresh(start), earlier, scores);
    FairRest(Fresh(start), earlier, later, scores, oa, horizon);
    RunKeeps(Fresh(start), earlier, scores, oa, horizon);
    ExactTail(before, during, after);
    DumpRestores(middle.db, at, entries, wall, printer, clock, scores, oa, ob, horizon);
    WholeRestores(middle.db, Program(entries, wall, printer), later, SinceDump(before, during, after), pieces, clock, scores,
                  oa, ob, horizon);
  }

  /** Behind the compacted part of an exact file stands the beginning of what was appended after the dump,
      and all of it when the buffers are empty. */
  lemma ExactTail(before: seq<AofLog.Step>, during: seq<AofLog.Step>, after: seq<AofLog.Step>)
    requires AofLog.OneRewrite(before, during, after)
    requires var v, w := AofLog.AtDump(before), AofLog.AtSwitch(before, during);
             |w.file| - |v.file| == |v.flushing| + |v.active|
    ensures var e := AofLog.After(AofLog.START, AofLog.Rewriting(before, during, after));
            AofLog.Commands(e.file) <= SinceDump(before, during, after)
            && (e.flushing == [] && e.active == [] ==> AofLog.Commands(e.file) == SinceDump(before, during, after))
  {
    hide AofLog.OneRewrite, AofLog.AtDump, AofLog.AtSwitch, AofLog.After, AofLog.Rewriting, AofLog.Commands;
    AofLog.RewriteExactIff(before, during, after);
    TailAfterDump(AofLog.After(AofLog.START, AofLog.Rewriting(before, during, after)));
  }

  lemma TailSized(all: seq<Command>, tail: seq<Command>)
    requires AllSized(all) && tail <= all
    ensures AllSized(tail)
  {
    hide Resp.Sized;
    forall i | 0 <= i < |tail| ensures Resp.Sized(tail[i]) { assert all[i] == tail[i]; }
  }

  /** What the compacted part alone restores agrees with the store that was dumped. */
  lemma {:induction false} DumpRestores(db: Db, at: Clock, entries: seq<DumpEntry>, wall: nat, printer: ScorePrinter,
                                        clock: Clock, scores: ScoreTexts,
                     oa: int, ob: int, horizon: int)
    requires NoEmptyIn(db) && Beyond(db, oa, horizon) && Dumps(entries, db, at) && AllPrintable(db, printer, scores)
    requires forall k :: k in db ==> WallDeadline(db[k].expireAt, at) <= UINT64_MAX
    requires Steady(at, oa) && at.wall < horizon && Steady(clock, ob) && clock.wall < horizon && wall <= clock.wall
    ensures Mirrors(Fresh(db), ReplayAll(map[], Program(entries, wall, printer), clock, scores), oa, ob, horizon)
  {
    hide ReplayAll, Program, Dumps, AllPrintable, Carries, Beyond, LiveItems, Mirrors;
    BeyondAlive(db, at, oa, horizon);
    RewriteCarries(db, at, entries, wall, printer, scores, clock);
    CarriedAgrees(db, at, ReplayAll(map[], Program(entries, wall, printer), clock, scores), clock, oa, ob, horizon);
  }

  /** The reads of load. */
  method ReadChunks(file: Str) returns (pieces: seq<Str>)
    ensures pieces == Stream.Chunks(file) && Stream.Concat(pieces) == file
  {
    hide Stream.Concat, Stream.Chunks;
    pieces := [];
    var offset := 0;
    assert file[0..] == file && [] + Stream.Chunks(file) == Stream.Chunks(file);
    while offset < |file|
      invariant offset <= |file| && pieces + Stream.Chunks(file[offset..]) == Stream.Chunks(file)
      decreases |file| - offset
    {
      var next := if offset + Stream.CHUNK_SIZE <= |file| then offset + Stream.CHUNK_SIZE else |file|;
      assert file[offset..][next - offset..] == file[next..] && file[offset..][..next - offset] == file[offset..next];
      Stream.ChunksUnfold(file[offset..]);
      pieces := pieces + [file[offset..next]];
      offset := next;
    }
    Stream.ChunksUnfold([]);
    assert file[offset..] == [] && pieces + [] == pieces;
  }

  // ----- on real stores

  lemma {:induction false} DigitsShort(n: nat, k: nat, bound: nat)
    requires k >= 1 && n < bound && bound == PowerOfTen(k)
    ensures |Digits(n)| <= k
    decreases k
  {
    if n >= 10 {
      assert k > 1;
      DigitsShort(n / 10, k - 1, PowerOfTen(k - 1));
    }
  }

  function PowerOfTen(k: nat): nat { if k == 0 then 1 else 10 * PowerOfTen(k - 1) }

  lemma DeadlineShort(n: nat)
    requires n <= UINT64_MAX
    ensures |Digits(n)| <= 20
  {
    hide Digits;
    assert PowerOfTen(5) == 100000;
    assert PowerOfTen(10) == 10000000000;
    assert PowerOfTen(15) == 1000000000000000;
    assert PowerOfTen(20) == 100000000000000000000;
    DigitsShort(n, 20, PowerOfTen(20));
  }

  predicate ShortWords(words: seq<Str>) { forall i :: 0 <= i < |words| ==> |words[i]| <= INT64_MAX }

  lemma {:induction false} FieldWordsShort(p: seq<(Str, Str)>)
    requires forall i :: 0 <= i < |p| ==> |p[i].0| < Snapshot.WORD && |p[i].1| < Snapshot.WORD
    ensures ShortWords(FieldWords(p))
  {
    if p != [] { FieldWordsShort(p[..|p| - 1]); }
  }

  /** The printer's texts are of ordinary length. */
  ghost predicate ShortTexts(printer: ScorePrinter) { forall s :: s in printer ==> |printer[s]| <= INT64_MAX }

  lemma {:induction false} ScoreWordsShort(p: seq<(Str, Score)>, printer: ScorePrinter)
    requires forall i :: 0 <= i < |p| ==> |p[i].0| < Snapshot.WORD
    requires ShortTexts(printer)
    ensures ShortWords(ScoreWords(p, printer))
  {
    if p != [] { ScoreWordsShort(p[..|p| - 1], printer); }
  }

  lemma ShortJoined(a: seq<Str>, b: seq<Str>)
    requires ShortWords(a) && ShortWords(b) && |a| <= 2 && |b| <= 2 * Snapshot.WORD
    ensures Resp.Sized(a + b)
  {
  }

  lemma CreateSized(e: DumpEntry, printer: ScorePrinter)
    requires |e.key| < Snapshot.WORD && Snapshot.SmallValue(e.value) && ShortTexts(printer)
    ensures Resp.Sized(Create(e, printer))
  {
    hide FieldWords, ScoreWords;
    match e.value
    case StringDump(t) =>
    case ListDump(l) => Snapshot.PartsRoundTrip(e.value); PartsShort(e.value); ShortJoined([Text("RPUSH"), e.key], l);
    case HashDump(p) =>
      PartsShort(e.value);
      FieldWordsShort(p);
      ShortJoined([Text("HSET"), e.key], FieldWords(p));
    case SetDump(m) => PartsShort(e.value); ShortJoined([Text("SADD"), e.key], m);
    case ZSetDump(p) =>
      PartsShort(e.value);
      ScoreWordsShort(p, printer);
      ShortJoined([Text("ZADD"), e.key], ScoreWords(p, printer));
  }

  lemma PartsShort(d: DumpValue)
    requires Snapshot.SmallValue(d) && !d.StringDump?
    ensures |Snapshot.Parts(d)| < Snapshot.WORD
    ensures d.ListDump? ==> ShortWords(d.elements)
    ensures d.SetDump? ==> ShortWords(d.members)
    ensures d.HashDump? ==> forall i :: 0 <= i < |d.fields| ==> |d.fields[i].0| < Snapshot.WORD && |d.fields[i].1| < Snapshot.WORD
    ensures d.ZSetDump? ==> forall i :: 0 <= i < |d.scores| ==> |d.scores[i].0| < Snapshot.WORD
  {
    var parts := Snapshot.Parts(d);
    assert forall i :: 0 <= i < |parts| ==> Snapshot.SmallPart(parts[i]);
    match d
    case ListDump(l) => forall i | 0 <= i < |l| ensures |l[i]| <= INT64_MAX { assert parts[i].text == l[i]; }
    case SetDump(m) => forall i | 0 <= i < |m| ensures |m[i]| <= INT64_MAX { assert parts[i].text == m[i]; }
    case HashDump(p) =>
      forall i | 0 <= i < |p| ensures |p[i].0| < Snapshot.WORD && |p[i].1| < Snapshot.WORD {
        assert parts[i] == Snapshot.Two(p[i].0, p[i].1);
      }
    case ZSetDump(p) =>
      forall i | 0 <= i < |p| ensures |p[i].0| < Snapshot.WORD { assert parts[i].member == p[i].0; }
  }

  lemma {:induction false} ProgramSized(entries: seq<DumpEntry>, wall: nat, printer: ScorePrinter)
    requires forall i :: 0 <= i < |entries| ==>
               |entries[i].key| < Snapshot.WORD && Snapshot.SmallValue(entries[i].value) && entries[i].deadline <= UINT64_MAX
    requires ShortTexts(printer)
    ensures AllSized(Program(entries, wall, printer))
  {
    hide Create, Digits, Resp.Sized, Snapshot.SmallValue, ShortTexts;
    if entries != [] {
      var n := |entries| - 1;
      ProgramSized(entries[..n], wall, printer);
      CreateSized(entries[n], printer);
      ExpirySized(entries[n]);
    }
  }

  lemma ExpirySized(e: DumpEntry)
    requires |e.key| < Snapshot.WORD && e.deadline <= UINT64_MAX
    ensures Resp.Sized([Text("PEXPIREAT"), e.key, Digits(e.deadline)])
  {
    hide Digits;
    DeadlineShort(e.deadline);
  }

  /** The rewrite on real stores: dump one, write the program, load it into another. */
  method RewriteAndLoad(original: Store, at: Clock, wall: nat, printer: ScorePrinter, target: Store, later: Clock, scores: ScoreTexts)
    requires original.Valid() && original.NoEmpty() && target.Valid() && original != target && target.items == map[]
    requires wall <= later.wall && AllPrintable(original.Live(at.now), printer, scores) && ShortTexts(printer)
    requires forall k :: k in original.items ==>
               Snapshot.SmallItem(k, original.items[k].value) && WallDeadline(original.items[k].expireAt, at) <= UINT64_MAX
    modifies target
    ensures target.Valid() && original.items == old(original.items)
    ensures Carries(original.Live(at.now), at, target.Live(later.now), later)
  {
    hide Store.Shaped, IndexOf, Lists, EmptyValue, Carries, ReplayAll, Program, AllPrintable, Stream.Loaded, Stream.PrintAll,
      Stream.Concat, Snapshot.SmallItem, Snapshot.SmallValue, ShortTexts, AllSized;
    ghost var live := original.Live(at.now);
    var entries := Dump.GetAllEntries(original, at);
    forall i | 0 <= i < |entries|
      ensures |entries[i].key| < Snapshot.WORD && Snapshot.SmallValue(entries[i].value) && entries[i].deadline <= UINT64_MAX
    {
      Snapshot.ListedSmall(entries[i].key, entries[i].value, live[entries[i].key].value);
      Snapshot.KeySmall(entries[i].key, live[entries[i].key].value);
    }
    ProgramSized(entries, wall, printer);
    var file := WriteProgram(entries, wall, printer);
    var pieces := ReadChunks(file);
    LoadedWhole(Program(entries, wall, printer), pieces);
    RewriteCarries(live, at, entries, wall, printer, scores, later);
    Rewrite.Load(target, pieces, later, scores);
  }
}
