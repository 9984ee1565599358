/** Framing: how a byte stream cut into arbitrary reads becomes a sequence of commands. */
module Stream {
  import opened Bytes
  import opened Resp

  /** All commands a buffer holds, what is left of it, and whether the parser refused the rest. */
  datatype Drained = Drained(commands: seq<Command>, rest: Str, refused: bool)

  function Drain(b: Str): (d: Drained)
    decreases |b|
  {
    match ParseCommand(b)
    case Incomplete => Drained([], b, false)
    case Error => Drained([], b, true)
    case Success(args, n) =>
      var more := Drain(b[n..]);
      Drained([args] + more.commands, more.rest, more.refused)
  }

  /** The stream is read entirely by the array parser: every place a command starts holds `*`. */
  predicate ArraysOnly(b: Str)
    decreases |b|
  {
    b == [] || (b[0] == ASTERISK && match ParseCommand(b)
                                    case Success(_, n) => ArraysOnly(b[n..])
                                    case _ => true)
  }

  function Concat(chunks: seq<Str>): Str {
    if chunks == [] then [] else chunks[0] + Concat(chunks[1..])
  }

  function PrintAll(commands: seq<Command>): Str {
    if commands == [] then [] else Print(commands[0]) + PrintAll(commands[1..])
  }

  /** Draining can be stopped anywhere and resumed with more bytes. */
  function Resume(d: Drained, ext: Str): Drained {
    if d.refused then Drained(d.commands, d.rest + ext, true)
    else
      var more := Drain(d.rest + ext);
      Drained(d.commands + more.commands, more.rest, more.refused)
  }

  lemma {:induction false} DrainAppend(b: Str, ext: Str)
    requires ArraysOnly(b + ext)
    ensures Drain(b + ext) == Resume(Drain(b), ext)
    ensures !Drain(b).refused ==> ArraysOnly(Drain(b).rest + ext)
    decreases |b|
  {
    hide ParseArray, ParseInline, ParseCommand;
    if b == [] {
      EmptyIncomplete();
      assert [] + ext == ext;
    } else {
      assert (b + ext)[0] == b[0];
      DrainAppendMore(b, ext);
      var p := ParseCommand(b);
      if p.Success? {
        var rest := b[p.consumed..];
        assert (b + ext)[p.consumed..] == rest + ext;
        DrainAppend(rest, ext);
        if !Drain(rest).refused {
          var more := Drain(Drain(rest).rest + ext).commands;
          assert [p.args] + (Drain(rest).commands + more) == ([p.args] + Drain(rest).commands) + more;
        }
      } else if p.Incomplete? {
        assert [] + Drain(b + ext).commands == Drain(b + ext).commands;
      }
    }
  }

  lemma DrainAppendMore(b: Str, ext: Str)
    requires b != [] && b[0] == ASTERISK
    ensures ParseCommand(b).Incomplete? || ParseCommand(b + ext) == ParseCommand(b)
  {
    hide ParseArray;
    if !ParseCommand(b).Incomplete? { ParseStable(b, ext); }
  }

  lemma {:induction false} DrainRestStuck(b: Str)
    ensures !Drain(b).refused ==> ParseCommand(Drain(b).rest).Incomplete?
    decreases |b|
  {
    hide ParseArray, ParseInline;
    var p := ParseCommand(b);
    if p.Success? { DrainRestStuck(b[p.consumed..]); }
  }

  /** Printed commands followed by a truncated one drain to exactly those commands. */
  lemma {:induction false} DrainPrinted(commands: seq<Command>, last: Command, n: nat)
    requires forall i :: 0 <= i < |commands| ==> Sized(commands[i])
    requires Sized(last) && n < |Print(last)|
    ensures var s := PrintAll(commands) + Print(last)[..n];
            Drain(s) == Drained(commands, Print(last)[..n], false) && ArraysOnly(s)
    decreases |commands|
  {
    hide ParseCommand, Print;
    var tail := Print(last)[..n];
    if commands == [] {
      assert PrintAll(commands) + tail == tail;
      PrefixIncomplete(last, n);
      PrintStartsWithAsterisk(last);
    } else {
      var more := PrintAll(commands[1..]) + tail;
      var s := Print(commands[0]) + more;
      assert PrintAll(commands) + tail == s;
      PrintParse(commands[0], more);
      PrintStartsWithAsterisk(commands[0]);
      assert s[|Print(commands[0])|..] == more;
      DrainPrinted(commands[1..], last, n);
      assert [commands[0]] + commands[1..] == commands;
    }
  }

  lemma PrintStartsWithAsterisk(c: Command)
    ensures |Print(c)| > 0 && Print(c)[0] == ASTERISK
  {
  }

  lemma {:induction false} PrintAllConcat(a: seq<Command>, b: seq<Command>)
    ensures PrintAll(a + b) == PrintAll(a) + PrintAll(b)
    decreases |a|
  {
    hide Print;
    if a == [] {
      assert a + b == b;
    } else {
      assert (a + b)[0] == a[0] && (a + b)[1..] == a[1..] + b;
      PrintAllConcat(a[1..], b);
    }
  }

  // ----- AofManager::load

  /** The commands `load` replays, read after read. After a refused command it drops the buffer
      and goes on with the next read. */
  function Loaded(buffer: Str, pieces: seq<Str>): seq<Command>
    decreases |pieces|
  {
    if pieces == [] then []
    else
      var d := Drain(buffer + pieces[0]);
      d.commands + Loaded(if d.refused then [] else d.rest, pieces[1..])
  }

  /** A file that is nowhere refused is replayed the same however its pieces are cut. */
  lemma {:induction false} LoadedIsDrain(buffer: Str, pieces: seq<Str>)
    requires ArraysOnly(buffer + Concat(pieces)) && !Drain(buffer + Concat(pieces)).refused
    requires ParseCommand(buffer).Incomplete?
    ensures Loaded(buffer, pieces) == Drain(buffer + Concat(pieces)).commands
    decreases |pieces|
  {
    hide ParseCommand;
    if pieces == [] {
      assert buffer + Concat(pieces) == buffer;
    } else {
      var b, ext := buffer + pieces[0], Concat(pieces[1..]);
      assert buffer + Concat(pieces) == b + ext;
      DrainAppend(b, ext);
      DrainRestStuck(b);
      LoadedIsDrain(Drain(b).rest, pieces[1..]);
    }
  }

  /** The log of any commands, cut off anywhere inside the last one and read in any pieces, replays
      exactly the complete commands. */
  lemma LoadedAnyCut(commands: seq<Command>, last: Command, n: nat, pieces: seq<Str>)
    requires forall i :: 0 <= i < |commands| ==> Sized(commands[i])
    requires Sized(last) && n < |Print(last)|
    requires Concat(pieces) == PrintAll(commands) + Print(last)[..n]
    ensures Loaded([], pieces) == commands
  {
    hide ParseCommand;
    DrainPrinted(commands, last, n);
    assert [] + Concat(pieces) == Concat(pieces);
    EmptyIncomplete();
    LoadedIsDrain([], pieces);
  }

  lemma EmptyIncomplete()
    ensures ParseCommand([]).Incomplete?
  {
  }

  /** Somewhere behind a place where r is refused, a command starts that load would find if a read
      ended there. */
  ghost predicate Resumable(r: Str) {
    exists i: nat :: ResumesAt(r, i)
  }

  predicate ResumesAt(r: Str, i: nat) { i <= |r| && ParseCommand(r[..i]).Error? && ParseCommand(r[i..]).Success? }

  /** With a refused command in the file the cut can matter: every cut loads just the commands before
      it if and only if none of the bytes behind it can be taken for a command. */
  lemma CorruptionIgnoredIff(b: Str)
    requires ArraysOnly(b) && Drain(b).refused
    ensures (forall pieces :: Concat(pieces) == b ==> Loaded([], pieces) == Drain(b).commands)
            <==> !Resumable(Drain(b).rest)
  {
    hide *;
    if Resumable(Drain(b).rest) {
      var pieces := ResumingCut(b);
      assert Concat(pieces) == b && Loaded([], pieces) != Drain(b).commands;
    } else {
      forall pieces | Concat(pieces) == b ensures Loaded([], pieces) == Drain(b).commands {
        assert [] + b == b;
        EmptyIncomplete();
        LoadedUpToRefusal([], pieces);
      }
    }
  }

  /** What is left of a refused stream is its end, from a place where it is refused. */
  lemma {:induction false} DrainRest(b: Str)
    requires ArraysOnly(b) && Drain(b).refused
    ensures var n := |b| - |Drain(b).rest|;
            0 <= n < |b| && Drain(b).rest == b[n..] && b[n] == ASTERISK && ParseCommand(b[n..]).Error?
    decreases |b|
  {
    hide ParseArray, ParseInline;
    var p := ParseCommand(b);
    if p.Success? {
      var more := b[p.consumed..];
      DrainRest(more);
      var n := |more| - |Drain(more).rest|;
      assert b[p.consumed + n..] == more[n..];
    } else {
      assert b[0..] == b;
    }
  }

  /** The beginning of a stream that reaches far enough into the refused place drains alike. */
  lemma {:induction false} DrainCut(b: Str, m: nat)
    requires ArraysOnly(b) && Drain(b).refused
    requires |b| - |Drain(b).rest| <= m <= |b| && ParseCommand(Drain(b).rest[..m - (|b| - |Drain(b).rest|)]).Error?
    ensures Drain(b[..m]).refused && Drain(b[..m]).commands == Drain(b).commands
    decreases |b|
  {
    hide ParseArray, ParseInline;
    DrainRest(b);
    var p := ParseCommand(b);
    if p.Success? {
      var more := b[p.consumed..];
      DrainRest(more);
      SuccessLocal(b, m);
      DrainCut(more, m - p.consumed);
      assert b[..m][p.consumed..] == more[..m - p.consumed];
    }
  }

  lemma DrainSome(b: Str)
    requires ParseCommand(b).Success?
    ensures Drain(b).commands != []
  {
    hide ParseCommand;
  }

  /** Cut where the rest can be taken for a command. */
  lemma ResumingCut(b: Str) returns (pieces: seq<Str>)
    requires ArraysOnly(b) && Drain(b).refused && Resumable(Drain(b).rest)
    ensures Concat(pieces) == b && Loaded([], pieces) != Drain(b).commands
  {
    hide ParseCommand, ArraysOnly, Drain;
    DrainRest(b);
    var r := Drain(b).rest;
    var n := |b| - |r|;
    var i: nat :| ResumesAt(r, i);
    var x, y := b[..n + i], r[i..];
    DrainCut(b, n + i);
    pieces := [x, y];
    assert b == x + y && pieces == [x] + [y];
    ConcatTwo(x, y);
    LoadedTwo(x, y);
    DrainSome(y);
  }

  lemma ConcatTwo(x: Str, y: Str)
    ensures Concat([x, y]) == x + y
  {
    assert [x, y][1..] == [y] && [y][1..] == [];
    assert Concat([y]) == y + Concat([]) && y + [] == y;
  }

  lemma LoadedTwo(x: Str, y: Str)
    requires Drain(x).refused
    ensures Loaded([], [x, y]) == Drain(x).commands + Drain(y).commands
  {
    assert [] + x == x && [] + y == y && [x, y][1..] == [y] && [y][1..] == [];
    LoadedNothing();
    assert Loaded([], [y]) == Drain(y).commands + [];
  }

  /** Behind a refused place that cannot be resumed nothing is found, however it is cut. */
  lemma {:induction false} NothingBehind(r: Str, i: nat, buffer: Str, pieces: seq<Str>)
    requires r != [] && r[0] == ASTERISK && !Resumable(r)
    requires i <= |r| && ParseCommand(r[..i]).Error? && buffer + Concat(pieces) == r[i..] && ParseCommand(buffer).Incomplete?
    ensures Loaded(buffer, pieces) == []
    decreases |pieces|
  {
    hide ParseArray, ParseInline, Resumable;
    if pieces != [] {
      var c, ext := buffer + pieces[0], Concat(pieces[1..]);
      assert r[i..] == c + ext;
      FoundThere(r, i, c, ext);
      if ParseCommand(c).Error? {
        assert r[..i + |c|] == r[..i] + c && r[i + |c|..] == [] + ext;
        ParseStable(r[..i], c);
        EmptyIncomplete();
        NothingBehind(r, i + |c|, [], pieces[1..]);
      } else {
        NothingBehind(r, i, c, pieces[1..]);
      }
    }
  }

  lemma FoundThere(r: Str, i: nat, c: Str, ext: Str)
    requires i <= |r| && ParseCommand(r[..i]).Error? && r[i..] == c + ext
    ensures ParseCommand(c).Success? ==> Resumable(r)
  {
    hide ParseCommand;
    if ParseCommand(c).Success? {
      SuccessStays(c, ext);
      assert ResumesAt(r, i);
    }
  }

  /** Up to the refused place every cut loads the same commands, and behind it none. */
  lemma {:induction false} LoadedUpToRefusal(buffer: Str, pieces: seq<Str>)
    requires var b := buffer + Concat(pieces); ArraysOnly(b) && Drain(b).refused && !Resumable(Drain(b).rest)
    requires ParseCommand(buffer).Incomplete?
    ensures Loaded(buffer, pieces) == Drain(buffer + Concat(pieces)).commands
    decreases |pieces|
  {
    hide ParseCommand, Resumable;
    if pieces == [] {
      assert buffer + Concat(pieces) == buffer;
    } else {
      var b, ext := buffer + pieces[0], Concat(pieces[1..]);
      assert buffer + Concat(pieces) == b + ext;
      DrainAppend(b, ext);
      if Drain(b).refused {
        RefusedStart(b, ext);
        var q := Drain(b).rest;
        EmptyIncomplete();
        assert (q + ext)[..|q|] == q && (q + ext)[|q|..] == [] + ext;
        NothingBehind(q + ext, |q|, [], pieces[1..]);
        assert Drain(b).commands + [] == Drain(b).commands;
      } else {
        DrainRestStuck(b);
        LoadedUpToRefusal(Drain(b).rest, pieces[1..]);
      }
    }
  }

  lemma RefusedStart(b: Str, ext: Str)
    requires ArraysOnly(b + ext) && Drain(b).refused && Drain(b + ext) == Resume(Drain(b), ext)
    ensures Drain(b).rest != [] && Drain(b).rest[0] == ASTERISK && ParseCommand(Drain(b).rest).Error?
  {
    hide ParseCommand, ArraysOnly;
    RefusedError(b);
    DrainRest(b + ext);
    EmptyIncomplete();
    assert (Drain(b).rest + ext)[0] == Drain(b).rest[0];
  }

  lemma {:induction false} RefusedError(b: Str)
    requires Drain(b).refused
    ensures ParseCommand(Drain(b).rest).Error?
    decreases |b|
  {
    hide ParseArray, ParseInline;
    var p := ParseCommand(b);
    if p.Success? { RefusedError(b[p.consumed..]); }
  }

  // ----- the reads of load

  const CHUNK_SIZE: nat := 65536

  /** What the successive reads of a file return. */
  function Chunks(file: Str): (pieces: seq<Str>)
    ensures Concat(pieces) == file
    decreases |file|
  {
    if file == [] then []
    else if |file| <= CHUNK_SIZE then
      assert [file][1..] == [] && file + [] == file;
      [file]
    else
      assert ([file[..CHUNK_SIZE]] + Chunks(file[CHUNK_SIZE..]))[1..] == Chunks(file[CHUNK_SIZE..]);
      [file[..CHUNK_SIZE]] + Chunks(file[CHUNK_SIZE..])
  }

  /** How many reads it takes until the stream is refused. */
  function RefusedRead(buffer: Str, pieces: seq<Str>): (k: nat)
    ensures k <= |pieces|
    decreases |pieces|
  {
    if pieces == [] then 0
    else
      var d := Drain(buffer + pieces[0]);
      if d.refused then 1 else 1 + RefusedRead(d.rest, pieces[1..])
  }

  /** One read of load. */
  lemma OneRead(buffer: Str, pieces: seq<Str>)
    requires pieces != []
    ensures var d := Drain(buffer + pieces[0]); var k := RefusedRead(buffer, pieces);
            if d.refused then
              k == 1 && Loaded(buffer, pieces) == d.commands + Loaded([], pieces[1..])
            else
              k == 1 + RefusedRead(d.rest, pieces[1..]) && pieces[k..] == pieces[1..][k - 1..]
              && Loaded(buffer, pieces) == d.commands + Loaded(d.rest, pieces[1..])
  {
    hide Drain;
  }

  /** At the read after the refusal load starts afresh. */
  lemma {:induction false} LoadedRestarts(buffer: Str, pieces: seq<Str>)
    requires var b := buffer + Concat(pieces); ArraysOnly(b) && Drain(b).refused
    requires ParseCommand(buffer).Incomplete?
    ensures Loaded(buffer, pieces)
         == Drain(buffer + Concat(pieces)).commands + Loaded([], pieces[RefusedRead(buffer, pieces)..])
    decreases |pieces|
  {
    hide ParseCommand, Drain, ArraysOnly, Loaded, RefusedRead;
    if pieces == [] {
      assert buffer + Concat(pieces) == buffer;
      IncompleteKept(buffer);
    } else {
      var b, ext := buffer + pieces[0], Concat(pieces[1..]);
      assert buffer + Concat(pieces) == b + ext;
      DrainAppend(b, ext);
      OneRead(buffer, pieces);
      if !Drain(b).refused {
        var q := Drain(b).rest;
        DrainRestStuck(b);
        LoadedRestarts(q, pieces[1..]);
        Regrouped(Drain(b).commands, Drain(q + ext).commands, Loaded([], pieces[RefusedRead(buffer, pieces)..]));
      }
    }
  }

  lemma IncompleteKept(b: Str)
    requires ParseCommand(b).Incomplete?
    ensures !Drain(b).refused
  {
    hide ParseCommand;
  }

  lemma Regrouped(a: seq<Command>, b: seq<Command>, c: seq<Command>)
    ensures a + (b + c) == a + b + c
    ensures a == a + b <==> b == []
  {
    if a == a + b { assert |a| == |a| + |b|; }
  }

  /** The file from the n-th read on. */
  function FromRead(file: Str, n: nat): Str { if n * CHUNK_SIZE <= |file| then file[n * CHUNK_SIZE..] else [] }

  lemma {:induction false} ChunksFrom(file: Str, n: nat)
    requires n <= |Chunks(file)|
    ensures Chunks(file)[n..] == Chunks(FromRead(file, n))
    decreases n
  {
    hide Concat;
    if n == 0 {
      assert file[0..] == file && Chunks(file)[0..] == Chunks(file);
    } else if |file| <= CHUNK_SIZE {
      assert |Chunks(file)| <= 1 && n == 1;
      assert FromRead(file, n) == [];
    } else {
      ChunksFrom(file[CHUNK_SIZE..], n - 1);
      assert Chunks(file)[n..] == Chunks(file[CHUNK_SIZE..])[n - 1..];
      assert FromRead(file, n) == FromRead(file[CHUNK_SIZE..], n - 1);
    }
  }

  /** For the reads load makes: just the commands before the refused one are replayed if and only if
      what the file holds behind the read in which it is refused would replay nothing as a file of its
      own; which is so if that read is the last. */
  lemma CorruptionInChunksIff(b: Str)
    requires ArraysOnly(b) && Drain(b).refused
    ensures var n := RefusedRead([], Chunks(b));
            (Loaded([], Chunks(b)) == Drain(b).commands <==> Loaded([], Chunks(FromRead(b, n))) == [])
            && (n * CHUNK_SIZE >= |b| ==> Loaded([], Chunks(b)) == Drain(b).commands)
  {
    hide ParseCommand, ArraysOnly, Drain, Chunks, Concat, RefusedRead, Loaded, FromRead;
    var n := RefusedRead([], Chunks(b));
    assert [] + b == b;
    EmptyIncomplete();
    LoadedRestarts([], Chunks(b));
    ChunksFrom(b, n);
    Regrouped(Drain(b).commands, Loaded([], Chunks(FromRead(b, n))), []);
    NothingFrom(b, n);
    ChunksUnfold([]);
    LoadedNothing();
  }

  lemma NothingFrom(file: Str, n: nat)
    ensures n * CHUNK_SIZE >= |file| ==> FromRead(file, n) == []
  {
  }

  lemma ChunksUnfold(file: Str)
    ensures Chunks([]) == []
    ensures file != [] ==>
              var n := if |file| < CHUNK_SIZE then |file| else CHUNK_SIZE;
              Chunks(file) == [file[..n]] + Chunks(file[n..])
  {
    if |file| <= CHUNK_SIZE { assert file[..|file|] == file && file[|file|..] == []; }
  }

  /** A refused command and blanks that fill the first read. */
  function Corrupt(): Str { [ASTERISK, 120] + CRLF + seq(CHUNK_SIZE - 4, _ => 32) }

  /** It does matter for the reads load makes: read at once nothing of this file is replayed, but its
      first read ends where the next command starts, which is. */
  lemma CorruptionResumed(next: Command)
    requires Sized(next)
    ensures var file := Corrupt() + Print(next);
            Drain(file).commands == [] && Loaded([], [file]) == [] && Loaded([], Chunks(file)) == [next]
  {
    hide ParseCommand, Print, Corrupt, Chunks;
    var file := Corrupt() + Print(next);
    assert Corrupt() + [] == Corrupt();
    CorruptRefused([]);
    CorruptRefused(Print(next));
    PrintStartsWithAsterisk(next);
    ChunksOf(Corrupt(), Print(next));
    LoadedRefused(Corrupt(), Chunks(Print(next)));
    LoadedRefused(file, []);
    LoadedNothing();
    assert [file] + [] == [file];
    PrintStartsWithAsterisk([]);
    assert PrintAll([next]) + Print([])[..0] == Print(next) by { PrintAllOne(next); }
    LoadedAnyCut([next], [], 0, Chunks(Print(next)));
  }

  lemma ChunksOf(first: Str, more: Str)
    requires |first| == CHUNK_SIZE && more != []
    ensures Chunks(first + more) == [first] + Chunks(more)
  {
    assert (first + more)[..CHUNK_SIZE] == first && (first + more)[CHUNK_SIZE..] == more;
  }

  lemma CorruptRefused(ext: Str)
    ensures |Corrupt()| == CHUNK_SIZE && ParseCommand(Corrupt() + ext) == Error
    ensures Drain(Corrupt() + ext).commands == []
  {
    var b := Corrupt() + ext;
    assert CrlfAt(b, 2) && !CrlfAt(b, 0) && !CrlfAt(b, 1);
    assert b[1..2] == [120] && !IsDigit(120);
  }

  lemma LoadedRefused(bad: Str, more: seq<Str>)
    requires ParseCommand(bad) == Error
    ensures Loaded([], [bad] + more) == Loaded([], more)
  {
    assert [] + bad == bad && ([bad] + more)[1..] == more;
    assert Drain(bad).commands + Loaded([], more) == Loaded([], more);
  }

  lemma PrintAllOne(c: Command)
    ensures PrintAll([c]) == Print(c)
  {
    hide Print;
    assert [c][1..] == [] && Print(c) + [] == Print(c);
  }

  lemma LoadedNothing()
    ensures Loaded([], []) == []
  {
  }
}
