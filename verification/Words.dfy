/** What each command means, from its words as a client spells them to the store and the log: names,
    options, units, ends and signs, in literal text. */
module Words {
  import opened Bytes
  import opened Keyspace
  import opened Runs
  import opened Commands
  import opened Replay
  import Laws
  import Rewrite
  import Waiters

  // ----- the names

  lemma Lengths()
    ensures |Text("SET")| == 3 && |Text("PEXPIREAT")| == 9 && |Text("RPUSH")| == 5 && |Text("HSET")| == 4
    ensures |Text("SADD")| == 4 && |Text("ZADD")| == 4 && |Text("SETEX")| == 5 && |Text("DEL")| == 3
    ensures |Text("INCR")| == 4 && |Text("DECR")| == 4 && |Text("INCRBY")| == 6 && |Text("DECRBY")| == 6
    ensures |Text("MSET")| == 4 && |Text("LPUSH")| == 5 && |Text("LPOP")| == 4 && |Text("RPOP")| == 4
    ensures |Text("EXPIRE")| == 6 && |Text("PEXPIRE")| == 7 && |Text("PERSIST")| == 7 && |Text("FLUSHDB")| == 7
    ensures |Text("FLUSHALL")| == 8 && |Text("HMSET")| == 5 && |Text("HSETNX")| == 6 && |Text("HDEL")| == 4
    ensures |Text("HINCRBY")| == 7 && |Text("SREM")| == 4 && |Text("ZREM")| == 4 && |Text("BRPOP")| == 5
  {
  }

  lemma FourLetters()
    ensures Text("HSET") == [72, 83, 69, 84] && Text("SADD") == [83, 65, 68, 68] && Text("ZADD") == [90, 65, 68, 68]
    ensures Text("INCR") == [73, 78, 67, 82] && Text("DECR") == [68, 69, 67, 82] && Text("MSET") == [77, 83, 69, 84]
    ensures Text("LPOP") == [76, 80, 79, 80] && Text("RPOP") == [82, 80, 79, 80] && Text("HDEL") == [72, 68, 69, 76]
    ensures Text("SREM") == [83, 82, 69, 77] && Text("ZREM") == [90, 82, 69, 77]
  {
  }

  lemma IsDEL()
    ensures VerbOf(Text("DEL")) == DEL
  {
    var name := Text("DEL");
    assert UpperAll(name) == name;
    assert |name| == 3 && name[0] == 68;
  }

  lemma IsINCR()
    ensures VerbOf(Text("INCR")) == INCR
  {
    var name := Text("INCR");
    assert UpperAll(name) == name;
    assert |name| == 4 && name[0] == 73;
  }

  lemma IsDECR()
    ensures VerbOf(Text("DECR")) == DECR
  {
    var name := Text("DECR");
    assert UpperAll(name) == name;
    assert |name| == 4 && name[0] == 68;
  }

  lemma IsINCRBY()
    ensures VerbOf(Text("INCRBY")) == INCRBY
  {
    var name := Text("INCRBY");
    assert UpperAll(name) == name;
    assert |name| == 6 && name[0] == 73;
  }

  lemma IsDECRBY()
    ensures VerbOf(Text("DECRBY")) == DECRBY
  {
    var name := Text("DECRBY");
    assert UpperAll(name) == name;
    assert |name| == 6 && name[0] == 68;
  }

  lemma IsMSET()
    ensures VerbOf(Text("MSET")) == MSET
  {
    var name := Text("MSET");
    assert UpperAll(name) == name;
    assert |name| == 4 && name[0] == 77;
  }

  lemma IsLPUSH()
    ensures VerbOf(Text("LPUSH")) == LPUSH
  {
    var name := Text("LPUSH");
    assert UpperAll(name) == name;
    assert |name| == 5 && name[0] == 76;
  }

  lemma IsRPOP()
    ensures VerbOf(Text("RPOP")) == RPOP
  {
    var name := Text("RPOP");
    assert UpperAll(name) == name;
    assert |name| == 4 && name[0] == 82;
  }

  lemma IsEXPIRE()
    ensures VerbOf(Text("EXPIRE")) == EXPIRE
  {
    var name := Text("EXPIRE");
    assert UpperAll(name) == name;
    assert |name| == 6 && name[0] == 69;
  }

  lemma IsPEXPIRE()
    ensures VerbOf(Text("PEXPIRE")) == PEXPIRE
  {
    var name := Text("PEXPIRE");
    assert UpperAll(name) == name;
    assert |name| == 7 && name[0] == 80;
  }

  lemma IsPERSIST()
    ensures VerbOf(Text("PERSIST")) == PERSIST
  {
    var name := Text("PERSIST");
    assert UpperAll(name) == name;
    assert |name| == 7 && name[0] == 80 && name[2] == 82;
  }

  lemma IsFLUSHDB()
    ensures VerbOf(Text("FLUSHDB")) == FLUSHDB
  {
    var name := Text("FLUSHDB");
    assert UpperAll(name) == name;
    assert |name| == 7 && name[0] == 70;
  }

  lemma IsFLUSHALL()
    ensures VerbOf(Text("FLUSHALL")) == FLUSHALL
  {
    var name := Text("FLUSHALL");
    assert UpperAll(name) == name;
    assert |name| == 8 && name[0] == 70;
  }

  lemma IsHMSET()
    ensures VerbOf(Text("HMSET")) == HMSET
  {
    Lengths();
    var name := Text("HMSET");
    assert name == [72, 77, 83, 69, 84] && UpperAll(name) == name;
    assert Text("RPUSH")[0] == 82 && Text("SETEX")[0] == 83 && Text("LPUSH")[0] == 76;
    hide Text;
  }

  lemma IsHSETNX()
    ensures VerbOf(Text("HSETNX")) == HSETNX
  {
    Lengths();
    var name := Text("HSETNX");
    assert name == [72, 83, 69, 84, 78, 88] && UpperAll(name) == name;
    assert Text("INCRBY")[0] == 73 && Text("DECRBY")[0] == 68 && Text("EXPIRE")[0] == 69;
    hide Text;
  }

  lemma IsHDEL()
    ensures VerbOf(Text("HDEL")) == HDEL
  {
    Lengths();
    FourLetters();
    hide Text;
    assert UpperAll([72, 68, 69, 76]) == [72, 68, 69, 76];
  }

  lemma IsHINCRBY()
    ensures VerbOf(Text("HINCRBY")) == HINCRBY
  {
    Lengths();
    var name := Text("HINCRBY");
    assert name == [72, 73, 78, 67, 82, 66, 89] && UpperAll(name) == name;
    assert Text("PEXPIRE")[0] == 80 && Text("PERSIST")[0] == 80 && Text("FLUSHDB")[0] == 70;
    hide Text;
  }

  lemma IsSREM()
    ensures VerbOf(Text("SREM")) == SREM
  {
    Lengths();
    FourLetters();
    hide Text;
    assert UpperAll([83, 82, 69, 77]) == [83, 82, 69, 77];
  }

  lemma IsZREM()
    ensures VerbOf(Text("ZREM")) == ZREM
  {
    Lengths();
    FourLetters();
    hide Text;
    assert UpperAll([90, 82, 69, 77]) == [90, 82, 69, 77];
  }

  /** The same byte, or the same letter in the other case. */
  predicate SameLetter(a: int, b: int) { a == b || (97 <= a <= 122 && b == a - 32) || (97 <= b <= 122 && a == b - 32) }

  /** Names may be spelled in any case. */
  lemma AnyCase(word: Str, other: Str)
    requires |word| == |other| && forall i :: 0 <= i < |word| ==> SameLetter(word[i] as int, other[i] as int)
    ensures VerbOf(word) == VerbOf(other)
  {
    hide UpperAll, Named;
    SameUpper(word, other);
  }

  lemma SameUpper(word: Str, other: Str)
    requires |word| == |other| && forall i :: 0 <= i < |word| ==> SameLetter(word[i] as int, other[i] as int)
    ensures UpperAll(word) == UpperAll(other)
  {
    hide SameLetter, Upper;
    forall i | 0 <= i < |word| ensures Upper(word[i]) == Upper(other[i]) { SameUpperByte(word[i], other[i]); }
  }

  lemma SameUpperByte(a: byte, b: byte)
    requires SameLetter(a as int, b as int)
    ensures Upper(a) == Upper(b)
  {
  }

  // ----- one command on a store as it stands

  /** The store, the log and the keys with a relative deadline afterwards. */
  function Sent(db: Db, clock: Clock, args: Command, scores: ScoreTexts): Live {
    LiveStep(Fresh(db), Request(clock, args, []), scores)
  }

  /** What is live under key. */
  function CellAt(db: Db, key: Str, now: nat): (cell: Cell)
    ensures cell.Some? ==> Alive(cell.value.expireAt, now)
  {
    Lookup(LiveItems(db, now), key)
  }

  lemma SentOn(db: Db, clock: Clock, args: Command, key: Str, a: Action, scores: ScoreTexts)
    requires Handle(args, scores) == Write(On(key, a))
    ensures var e := Act(CellAt(db, key, clock.now), clock, a);
            var after := Update(LiveItems(db, clock.now), key, e.cell);
            var logged := Logged(args, On(key, a), e.reply);
            Sent(db, clock, args, scores)
            == if logged.None? then Fresh(after) else Live(after, [logged.value], LooseAfter({}, On(key, a)))
  {
    hide Handle, LiveItems, Lookup, Act, Logged, LooseAfter, Update;
    LiveAllAlive(db, clock.now);
  }

  lemma LiveAllAlive(db: Db, now: nat)
    ensures AllAlive(LiveItems(db, now), now)
  {
  }

  lemma NotThere(live: Db, key: Str)
    requires key !in live
    ensures live - {key} == live
  {
  }

  lemma SentRejected(db: Db, clock: Clock, args: Command, scores: ScoreTexts)
    requires Handle(args, scores).Reject?
    ensures Sent(db, clock, args, scores) == Fresh(LiveItems(db, clock.now))
  {
    hide Handle, LiveItems;
  }

  // ----- deadlines

  /** EXPIRE counts in seconds and PEXPIRE in milliseconds; the deadline is logged by the wall clock; and a
      duration that is not positive removes the key. */
  lemma ExpireMeans(db: Db, clock: Clock, key: Str, n: int, scores: ScoreTexts)
    requires IsInt64(n)
    ensures var live := LiveItems(db, clock.now); var args := [Text("EXPIRE"), key, SignedDigits(n)];
            Sent(db, clock, args, scores)
            == if key !in live then Fresh(live)
               else if n > 0 then
                 Live(live[key := live[key].(expireAt := clock.now + 1000 * n)],
                      [[Text("PEXPIREAT"), key, Digits(clock.wall + 1000 * n)]], {})
               else Live(live - {key}, [[Text("PEXPIREAT"), key, Digits(0)]], {})
    ensures var live := LiveItems(db, clock.now); var args := [Text("PEXPIRE"), key, SignedDigits(n)];
            Sent(db, clock, args, scores)
            == if key !in live then Fresh(live)
               else if n > 0 then
                 Live(live[key := live[key].(expireAt := clock.now + n)], [[Text("PEXPIREAT"), key, Digits(clock.wall + n)]], {})
               else Live(live - {key}, [[Text("PEXPIREAT"), key, Digits(0)]], {})
  {
    hide Text, SignedDigits, Digits, Handle, LiveItems, LiveStep;
    ExpireHandled(key, n, scores);
    SentOn(db, clock, [Text("EXPIRE"), key, SignedDigits(n)], key, Expire(if n > 0 then 1000 * n else 0), scores);
    SentOn(db, clock, [Text("PEXPIRE"), key, SignedDigits(n)], key, Expire(if n > 0 then n else 0), scores);
    if key !in LiveItems(db, clock.now) { NotThere(LiveItems(db, clock.now), key); }
  }

  lemma ExpireHandled(key: Str, n: int, scores: ScoreTexts)
    requires IsInt64(n)
    ensures Handle([Text("EXPIRE"), key, SignedDigits(n)], scores) == Write(On(key, Expire(if n > 0 then 1000 * n else 0)))
    ensures Handle([Text("PEXPIRE"), key, SignedDigits(n)], scores) == Write(On(key, Expire(if n > 0 then n else 0)))
  {
    hide VerbOf, SignedDigits, FromChars, Text;
    IsEXPIRE();
    IsPEXPIRE();
    FromCharsSigned(n);
  }

  /** PERSIST takes the deadline away, and is logged when there was one. */
  lemma PersistMeans(db: Db, clock: Clock, key: Str, scores: ScoreTexts)
    ensures var live := LiveItems(db, clock.now); var args := [Text("PERSIST"), key];
            Sent(db, clock, args, scores)
            == if key in live && live[key].expireAt != 0 then Live(live[key := live[key].(expireAt := 0)], [args], {})
               else Fresh(live)
  {
    hide Text, Handle, LiveItems, LiveStep;
    PersistHandled(key, scores);
    SentOn(db, clock, [Text("PERSIST"), key], key, Persist, scores);
    UpdateSame(LiveItems(db, clock.now), key);
  }

  lemma UpdateSame(live: Db, key: Str)
    ensures Update(live, key, Lookup(live, key)) == live
  {
  }

  lemma PersistHandled(key: Str, scores: ScoreTexts)
    ensures Handle([Text("PERSIST"), key], scores) == Write(On(key, Persist))
  {
    hide VerbOf, Text;
    IsPERSIST();
  }

  // ----- SET

  /** SETEX counts in seconds; it is logged with its duration. */
  lemma SetexMeans(db: Db, clock: Clock, key: Str, n: int, value: Str, scores: ScoreTexts)
    requires IsInt64(n)
    ensures var live := LiveItems(db, clock.now); var args := [Text("SETEX"), key, SignedDigits(n), value];
            Sent(db, clock, args, scores)
            == if n > 0 then Live(live[key := Item(StringV(value), clock.now + 1000 * n)], [args], {key}) else Fresh(live)
  {
    hide Text, SignedDigits, Handle, LiveItems, LiveStep;
    var args := [Text("SETEX"), key, SignedDigits(n), value];
    SetexReads(key, n, value, scores);
    if n > 0 { SentOn(db, clock, args, key, Setex(1000 * n, value), scores); } else { SentRejected(db, clock, args, scores); }
    assert {} + {key} == {key};
  }

  lemma SetexReads(key: Str, n: int, value: Str, scores: ScoreTexts)
    requires IsInt64(n)
    ensures Handle([Text("SETEX"), key, SignedDigits(n), value], scores)
         == if n > 0 then Write(On(key, Setex(1000 * n, value))) else Reject
  {
    hide VerbOf, SignedDigits, FromChars, Text;
    SetexVerb();
    FromCharsSigned(n);
  }

  /** The words of the options. */
  lemma OptionWords()
    ensures OptionOf(Text("NX")) == Text("NX") && OptionOf(Text("XX")) == Text("XX") && OptionOf(Text("EX")) == Text("EX")
    ensures OptionOf(Text("PX")) == Text("PX") && OptionOf(Text("KEEPTTL")) == Text("KEEPTTL")
    ensures Text("NX") != Text("XX") && Text("NX") != Text("EX") && Text("NX") != Text("PX") && Text("XX") != Text("EX")
    ensures Text("XX") != Text("PX") && Text("EX") != Text("PX")
    ensures Text("KEEPTTL") != Text("NX") && Text("KEEPTTL") != Text("XX")
    ensures Text("KEEPTTL") != Text("EX") && Text("KEEPTTL") != Text("PX")
  {
    assert Text("NX") == [78, 88] && Text("XX") == [88, 88] && Text("EX") == [69, 88] && Text("PX") == [80, 88];
    assert UpperAll([78, 88]) == [78, 88] && UpperAll([88, 88]) == [88, 88];
    assert UpperAll([69, 88]) == [69, 88] && UpperAll([80, 88]) == [80, 88];
    assert UpperAll(Text("KEEPTTL")) == Text("KEEPTTL") && |Text("KEEPTTL")| == 7;
  }

  /** An option of SET as a client spells it, durations as numbers. */
  datatype Choice = Nx | Xx | KeepTtl | Ex(n: int) | Px(n: int)

  function Spelled(c: Choice): Command {
    match c
    case Nx => [Text("NX")]
    case Xx => [Text("XX")]
    case KeepTtl => [Text("KEEPTTL")]
    case Ex(n) => [Text("EX"), SignedDigits(n)]
    case Px(n) => [Text("PX"), SignedDigits(n)]
  }

  function Spelling(choices: seq<Choice>): Command {
    if choices == [] then [] else Spelled(choices[0]) + Spelling(choices[1..])
  }

  predicate OnExistence(c: Choice) { c.Nx? || c.Xx? }

  predicate OnTime(c: Choice) { c.Ex? || c.Px? }

  /** The option may follow those already read: NX or XX once, KEEPTTL once, and one duration, positive and
      in range. */
  predicate Allowed(o: SetOptions, c: Choice) {
    (OnExistence(c) ==> !o.nx && !o.xx) && (c.KeepTtl? ==> !o.keepTtl) && (OnTime(c) ==> !o.hasExpiry)
    && (c.Ex? ==> 0 < c.n <= UINT64_MAX / 1000) && (c.Px? ==> 0 < c.n <= INT64_MAX)
  }

  predicate Clash(a: Choice, b: Choice) {
    (OnExistence(a) && OnExistence(b)) || (OnTime(a) && OnTime(b)) || (a.KeepTtl? && b.KeepTtl?)
  }

  predicate NoClash(choices: seq<Choice>) { forall i, j :: 0 <= i < j < |choices| ==> !Clash(choices[i], choices[j]) }

  /** No two options clash, each may be read, and KEEPTTL does not stand beside a duration. */
  predicate Proper(o: SetOptions, choices: seq<Choice>) {
    NoClash(choices) && (forall i :: 0 <= i < |choices| ==> Allowed(o, choices[i]))
    && !((o.keepTtl || KeepTtl in choices) && (o.hasExpiry || exists i :: 0 <= i < |choices| && OnTime(choices[i])))
  }

  lemma PrintedDuration(n: int)
    ensures Duration(SignedDigits(n), Handler) == if IsInt64(n) then Some(n) else None
  {
    var s := SignedDigits(n);
    if n < 0 {
      DigitsRoundTrip(-n);
      assert s[1..] == Digits(-n);
    } else {
      DigitsRoundTrip(n);
      assert IsDigit(s[0]);
    }
  }

  /** Option lists are accepted exactly when they are proper, and in any order mean what they name. */
  lemma {:induction false} OptionsExact(args: Command, i: nat, o: SetOptions, choices: seq<Choice>)
    requires i <= |args| && args[i..] == Spelling(choices)
    ensures var r := Options(args, i, o, Handler);
            (r.Some? <==> Proper(o, choices))
            && (r.Some? ==>
                  (r.value.nx <==> o.nx || Nx in choices) && (r.value.xx <==> o.xx || Xx in choices)
                  && (r.value.keepTtl <==> o.keepTtl || KeepTtl in choices)
                  && (forall j :: 0 <= j < |choices| ==>
                        (choices[j].Ex? ==> r.value.ttl == 1000 * choices[j].n) && (choices[j].Px? ==> r.value.ttl == choices[j].n))
                  && ((forall j :: 0 <= j < |choices| ==> !OnTime(choices[j])) ==> r.value.ttl == o.ttl))
    decreases |choices|
  {
    hide Text, SignedDigits, OptionOf, Duration, Proper, Spelled;
    if choices == [] {
      ProperNone(o);
    } else {
      var c, rest := choices[0], choices[1..];
      assert choices == [c] + rest;
      OptionsStep(args, i, o, c, Spelling(rest));
      ProperStep(o, choices);
      if Allowed(o, c) { OptionsExact(args, i + |Spelled(c)|, WithChoice(o, c), rest); }
      if Proper(o, choices) && OnTime(c) { OneDuration(o, choices); }
    }
  }

  lemma OneDuration(o: SetOptions, choices: seq<Choice>)
    requires Proper(o, choices) && choices != [] && OnTime(choices[0])
    ensures forall j :: 0 <= j < |choices[1..]| ==> !OnTime(choices[1..][j])
  {
    forall j | 0 <= j < |choices[1..]| ensures !OnTime(choices[1..][j]) { assert !Clash(choices[0], choices[j + 1]); }
  }

  lemma ProperNone(o: SetOptions)
    ensures Proper(o, []) <==> !(o.keepTtl && o.hasExpiry)
  {
  }

  function WithChoice(o: SetOptions, c: Choice): SetOptions {
    match c
    case Nx => o.(nx := true)
    case Xx => o.(xx := true)
    case KeepTtl => o.(keepTtl := true)
    case Ex(n) => o.(ttl := if n > 0 then 1000 * n else 0, hasExpiry := true)
    case Px(n) => o.(ttl := if n > 0 then n else 0, hasExpiry := true)
  }

  lemma ProperStep(o: SetOptions, choices: seq<Choice>)
    requires choices != []
    ensures Proper(o, choices) <==> Allowed(o, choices[0]) && Proper(WithChoice(o, choices[0]), choices[1..])
  {
    hide Allowed, Clash, NoClash;
    var c, rest := choices[0], choices[1..];
    ClashStep(choices);
    forall d | d in rest ensures Allowed(WithChoice(o, c), d) <==> Allowed(o, d) && !Clash(c, d) { AllowedStep(o, c, d); }
    assert forall i :: 0 <= i < |rest| ==> rest[i] == choices[i + 1];
    assert forall i :: 0 < i < |choices| ==> choices[i] == rest[i - 1] && choices[i] in rest;
    MixStep(o, choices);
  }

  lemma ClashStep(choices: seq<Choice>)
    requires choices != []
    ensures NoClash(choices) <==> NoClash(choices[1..]) && forall d :: d in choices[1..] ==> !Clash(choices[0], d)
  {
    hide Clash;
    var rest := choices[1..];
    assert forall i :: 0 <= i < |rest| ==> rest[i] == choices[i + 1];
    assert forall i :: 0 < i < |choices| ==> choices[i] == rest[i - 1] && choices[i] in rest;
  }

  lemma AllowedStep(o: SetOptions, c: Choice, d: Choice)
    ensures Allowed(WithChoice(o, c), d) <==> Allowed(o, d) && !Clash(c, d)
  {
  }

  lemma MixStep(o: SetOptions, choices: seq<Choice>)
    requires choices != []
    ensures var c, rest := choices[0], choices[1..]; var p := WithChoice(o, c);
            (o.keepTtl || KeepTtl in choices <==> p.keepTtl || KeepTtl in rest)
            && ((o.hasExpiry || exists i :: 0 <= i < |choices| && OnTime(choices[i]))
                <==> (p.hasExpiry || exists i :: 0 <= i < |rest| && OnTime(rest[i])))
  {
    var c, rest := choices[0], choices[1..];
    assert choices == [c] + rest;
    if i :| 0 <= i < |choices| && OnTime(choices[i]) {
      if i > 0 { assert rest[i - 1] == choices[i]; }
    }
    if i :| 0 <= i < |rest| && OnTime(rest[i]) { assert choices[i + 1] == rest[i]; }
  }

  lemma OptionsStep(args: Command, i: nat, o: SetOptions, c: Choice, rest: Command)
    requires i <= |args| && args[i..] == Spelled(c) + rest
    ensures Options(args, i, o, Handler)
         == if Allowed(o, c) then Options(args, i + |Spelled(c)|, WithChoice(o, c), Handler) else None
    ensures i + |Spelled(c)| <= |args| && args[i + |Spelled(c)|..] == rest
  {
    hide Text, SignedDigits, OptionOf, Duration;
    OptionWords();
    var n := |Spelled(c)|;
    assert args[i] == args[i..][0];
    assert args[i + n..] == args[i..][n..] == rest;
    if OnTime(c) {
      assert args[i + 1] == args[i..][1];
      PrintedDuration(c.n);
    }
  }

  /** SET with any options in any order: refused where they are not proper, where NX meets a live key and
      where XX meets none; else the value is stored until the duration is over, for as long as before with
      KEEPTTL, or without a deadline. */
  lemma SetMeans(db: Db, clock: Clock, key: Str, value: Str, choices: seq<Choice>, scores: ScoreTexts)
    ensures var live := LiveItems(db, clock.now); var args := [Text("SET"), key, value] + Spelling(choices);
            var sent := Sent(db, clock, args, scores);
            if !Proper(NO_OPTIONS, choices) || (Nx in choices && key in live) || (Xx in choices && key !in live) then
              sent == Fresh(live)
            else
              exists deadline: nat ::
                sent == Live(live[key := Item(StringV(value), deadline)], [args],
                             if exists i :: 0 <= i < |choices| && OnTime(choices[i]) then {key} else {})
                && (forall i :: 0 <= i < |choices| ==>
                      (choices[i].Ex? ==> deadline == clock.now + 1000 * choices[i].n)
                      && (choices[i].Px? ==> deadline == clock.now + choices[i].n))
                && (KeepTtl in choices && key in live ==> deadline == live[key].expireAt)
                && ((forall i :: 0 <= i < |choices| ==> !OnTime(choices[i])) && !(KeepTtl in choices && key in live)
                    ==> deadline == 0)
  {
    hide Text, Spelling, Handle, LiveItems, LiveStep, Options;
    var args := [Text("SET"), key, value] + Spelling(choices);
    SetReads(key, value, choices, scores);
    OptionsExact(args, 3, NO_OPTIONS, choices);
    var r := Options(args, 3, NO_OPTIONS, Handler);
    if r.None? {
      SentRejected(db, clock, args, scores);
    } else {
      var o := r.value;
      SentOn(db, clock, args, key, Set(value, o.ttl, o.keepTtl, o.nx, o.xx), scores);
      UpdateSame(LiveItems(db, clock.now), key);
      TimedIff(o.ttl, choices);
      assert {} + {key} == {key};
    }
  }

  lemma TimedIff(ttl: nat, choices: seq<Choice>)
    requires Proper(NO_OPTIONS, choices)
    requires forall j :: 0 <= j < |choices| ==>
      (choices[j].Ex? ==> ttl == 1000 * choices[j].n) && (choices[j].Px? ==> ttl == choices[j].n)
    requires (forall j :: 0 <= j < |choices| ==> !OnTime(choices[j])) ==> ttl == 0
    ensures ttl > 0 <==> exists i :: 0 <= i < |choices| && OnTime(choices[i])
    ensures ttl > 0 ==> KeepTtl !in choices
  {
    forall i | 0 <= i < |choices| && OnTime(choices[i]) ensures ttl > 0 { assert Allowed(NO_OPTIONS, choices[i]); }
  }

  lemma SetReads(key: Str, value: Str, choices: seq<Choice>, scores: ScoreTexts)
    ensures var args := [Text("SET"), key, value] + Spelling(choices);
            var o := Options(args, 3, NO_OPTIONS, Handler);
            args[3..] == Spelling(choices)
            && Handle(args, scores)
               == if o.None? then Reject else Write(On(key, Set(value, o.value.ttl, o.value.keepTtl, o.value.nx, o.value.xx)))
  {
    hide VerbOf, Text, Spelling, Options;
    Verbs();
  }

  /** SET EX is SETEX, and SET PX counts in milliseconds. */
  lemma SetExIsSetex(db: Db, clock: Clock, key: Str, n: int, value: Str, scores: ScoreTexts)
    requires 0 < n <= UINT64_MAX / 1000
    ensures var sent := Sent(db, clock, [Text("SET"), key, value, Text("EX"), SignedDigits(n)], scores);
            sent.db == Sent(db, clock, [Text("SETEX"), key, SignedDigits(n), value], scores).db
            && (1000 * n <= INT64_MAX ==>
                  sent.db == Sent(db, clock, [Text("SET"), key, value, Text("PX"), SignedDigits(1000 * n)], scores).db)
  {
    hide Text, SignedDigits, LiveStep, LiveItems;
    SetMeans(db, clock, key, value, [Ex(n)], scores);
    SetMeans(db, clock, key, value, [Px(1000 * n)], scores);
    SetexMeans(db, clock, key, n, value, scores);
    OneSpelled(Ex(n));
    OneSpelled(Px(1000 * n));
    var args := [Text("SET"), key, value];
    assert args + [Text("EX"), SignedDigits(n)] == [Text("SET"), key, value, Text("EX"), SignedDigits(n)];
    assert args + [Text("PX"), SignedDigits(1000 * n)] == [Text("SET"), key, value, Text("PX"), SignedDigits(1000 * n)];
    assert [Ex(n)][0] == Ex(n) && [Px(1000 * n)][0] == Px(1000 * n);
  }

  lemma OneSpelled(c: Choice)
    ensures Spelling([c]) == Spelled(c)
  {
    assert Spelling([c][1..]) == [];
  }

  // ----- lists

  /** The elements of a live list, none for an absent key. */
  function Listed(live: Db, key: Str): seq<Str> {
    if key in live && live[key].value.ListV? then live[key].value.elements else []
  }

  function Deadlined(live: Db, key: Str): nat { if key in live then live[key].expireAt else 0 }

  /** LPUSH puts its words in front, the last one first; RPUSH puts them behind in order. */
  lemma PushMeans(db: Db, clock: Clock, key: Str, values: seq<Str>, scores: ScoreTexts)
    requires values != []
    ensures var live := LiveItems(db, clock.now); var args := [Text("LPUSH"), key] + values; var n := |values|;
            if key in live && !live[key].value.ListV? then Sent(db, clock, args, scores) == Fresh(live)
            else
              exists elements: seq<Str> ::
                Sent(db, clock, args, scores) == Live(live[key := Item(ListV(elements), Deadlined(live, key))], [args], {})
                && |elements| == n + |Listed(live, key)| && elements[n..] == Listed(live, key)
                && forall i :: 0 <= i < n ==> elements[i] == values[n - 1 - i]
    ensures var live := LiveItems(db, clock.now); var args := [Text("RPUSH"), key] + values;
            Sent(db, clock, args, scores)
            == if key in live && !live[key].value.ListV? then Fresh(live)
               else Live(live[key := Item(ListV(Listed(live, key) + values), Deadlined(live, key))], [args], {})
  {
    hide Text, Handle, LiveItems, LiveStep, PushAct;
    PushHandled(key, values, scores);
    SentOn(db, clock, [Text("LPUSH"), key] + values, key, Push(values, true), scores);
    SentOn(db, clock, [Text("RPUSH"), key] + values, key, Push(values, false), scores);
    UpdateSame(LiveItems(db, clock.now), key);
    PushCell(CellAt(db, key, clock.now), values);
    InFront(values, Listed(LiveItems(db, clock.now), key));
  }

  lemma PushCell(cell: Cell, values: seq<Str>)
    requires values != []
    ensures var left, right := PushAct(cell, values, true), PushAct(cell, values, false);
            if cell.Some? && !cell.value.value.ListV? then left == right == Effect(cell, WrongType)
            else
              left.cell == Some(Item(ListV(Reversed(values) + ListOf(cell)), DeadlineOf(cell))) && left.reply.Count?
              && right.cell == Some(Item(ListV(ListOf(cell) + values), DeadlineOf(cell))) && right.reply.Count?
  {
    hide Reversed;
  }

  lemma InFront(values: seq<Str>, l: seq<Str>)
    ensures var elements := Reversed(values) + l; var n := |values|;
            |elements| == n + |l| && elements[n..] == l && forall i :: 0 <= i < n ==> elements[i] == values[n - 1 - i]
  {
  }

  lemma PushHandled(key: Str, values: seq<Str>, scores: ScoreTexts)
    requires values != []
    ensures Handle([Text("LPUSH"), key] + values, scores) == Write(On(key, Push(values, true)))
    ensures Handle([Text("RPUSH"), key] + values, scores) == Write(On(key, Push(values, false)))
  {
    hide VerbOf, Text;
    IsLPUSH();
    Verbs();
    Behind(Text("LPUSH"), key, values);
    Behind(Text("RPUSH"), key, values);
  }

  lemma Behind(name: Str, key: Str, values: seq<Str>)
    ensures var args := [name, key] + values; args[0] == name && args[1] == key && args[2..] == values
  {
  }

  /** LPOP takes from the front and RPOP from the back, one element or as many as asked for and there; an
      emptied list is gone. */
  lemma PopMeans(db: Db, clock: Clock, key: Str, n: int, scores: ScoreTexts)
    requires IsInt64(n) && key in LiveItems(db, clock.now)
    requires LiveItems(db, clock.now)[key].value.ListV? && LiveItems(db, clock.now)[key].value.elements != []
    ensures var live := LiveItems(db, clock.now); var l := Listed(live, key);
            Sent(db, clock, [Text("LPOP"), key], scores) == Live(Holding(live, key, l[1..]), [[Text("LPOP"), key]], {})
            && Sent(db, clock, [Text("RPOP"), key], scores) == Live(Holding(live, key, l[..|l| - 1]), [[Text("RPOP"), key]], {})
    ensures var live := LiveItems(db, clock.now); var l := Listed(live, key);
            var left, right := [Text("LPOP"), key, SignedDigits(n)], [Text("RPOP"), key, SignedDigits(n)];
            if n < 0 then Sent(db, clock, left, scores) == Sent(db, clock, right, scores) == Fresh(live)
            else if n < |l| then
              Sent(db, clock, left, scores) == Live(Holding(live, key, l[n..]), [left], {})
              && Sent(db, clock, right, scores) == Live(Holding(live, key, l[..|l| - n]), [right], {})
            else
              Sent(db, clock, left, scores) == Live(live - {key}, [left], {})
              && Sent(db, clock, right, scores) == Live(live - {key}, [right], {})
  {
    hide Text, SignedDigits, Handle, LiveStep, LiveItems, Holding;
    PopHandled(key, n, scores);
    PopSent(db, clock, [Text("LPOP"), key], key, 1, true, scores);
    PopSent(db, clock, [Text("RPOP"), key], key, 1, false, scores);
    var left, right := [Text("LPOP"), key, SignedDigits(n)], [Text("RPOP"), key, SignedDigits(n)];
    if n < 0 {
      SentRejected(db, clock, left, scores);
      SentRejected(db, clock, right, scores);
    } else if n == 0 {
      NothingPopped(db, clock, left, key, scores);
      NothingPopped(db, clock, right, key, scores);
    } else {
      PopSent(db, clock, left, key, n, true, scores);
      PopSent(db, clock, right, key, n, false, scores);
    }
  }

  /** A pop of an absent key changes nothing and is logged all the same; one of another type is refused. */
  lemma PopMissing(db: Db, clock: Clock, key: Str, scores: ScoreTexts)
    requires var live := LiveItems(db, clock.now); key in live ==> !live[key].value.ListV?
    ensures var live := LiveItems(db, clock.now); var left, right := [Text("LPOP"), key], [Text("RPOP"), key];
            Sent(db, clock, left, scores) == (if key in live then Fresh(live) else Live(live, [left], {}))
            && Sent(db, clock, right, scores) == (if key in live then Fresh(live) else Live(live, [right], {}))
  {
    hide Text, Handle, LiveStep, LiveItems;
    PopHandled(key, 0, scores);
    SentOn(db, clock, [Text("LPOP"), key], key, Pop(1, true), scores);
    SentOn(db, clock, [Text("RPOP"), key], key, Pop(1, false), scores);
    UpdateSame(LiveItems(db, clock.now), key);
  }

  lemma PopSent(db: Db, clock: Clock, args: Command, key: Str, n: nat, left: bool, scores: ScoreTexts)
    requires n > 0 && Handle(args, scores) == Write(On(key, Pop(n, left)))
    requires var live := LiveItems(db, clock.now); key in live && live[key].value.ListV? && live[key].value.elements != []
    ensures var live := LiveItems(db, clock.now); var l := Listed(live, key);
            Sent(db, clock, args, scores)
            == if n >= |l| then Live(live - {key}, [args], {})
               else Live(Holding(live, key, if left then l[n..] else l[..|l| - n]), [args], {})
    ensures n == 1 ==>
              var live := LiveItems(db, clock.now); var l := Listed(live, key);
              Sent(db, clock, args, scores) == Live(Holding(live, key, if left then l[1..] else l[..|l| - 1]), [args], {})
  {
    hide Text, Handle, LiveStep, LiveItems;
    SentOn(db, clock, args, key, Pop(n, left), scores);
  }

  lemma NothingPopped(db: Db, clock: Clock, args: Command, key: Str, scores: ScoreTexts)
    requires Handle(args, scores) == ZeroPop(key)
    requires var live := LiveItems(db, clock.now); key in live && live[key].value.ListV? && live[key].value.elements != []
    ensures var live := LiveItems(db, clock.now); var l := Listed(live, key);
            l[0..] == l && l[..|l|] == l && Holding(live, key, l) == live
            && Sent(db, clock, args, scores) == Live(live, [args], {})
  {
    hide Text, Handle, LiveItems;
    UpdateSame(LiveItems(db, clock.now), key);
  }

  lemma PopHandled(key: Str, n: int, scores: ScoreTexts)
    requires IsInt64(n)
    ensures Handle([Text("LPOP"), key], scores) == Write(On(key, Pop(1, true)))
    ensures Handle([Text("RPOP"), key], scores) == Write(On(key, Pop(1, false)))
    ensures Handle([Text("LPOP"), key, SignedDigits(n)], scores)
         == if n < 0 then Reject else if n == 0 then ZeroPop(key) else Write(On(key, Pop(n, true)))
    ensures Handle([Text("RPOP"), key, SignedDigits(n)], scores)
         == if n < 0 then Reject else if n == 0 then ZeroPop(key) else Write(On(key, Pop(n, false)))
  {
    hide VerbOf, Text, SignedDigits, FromChars;
    LpopVerb();
    IsRPOP();
    FromCharsSigned(n);
  }

  /** The store with this list under key, or without key where nothing is left. */
  function Holding(live: Db, key: Str, elements: seq<Str>): Db
    requires key in live
  {
    if elements == [] then live - {key} else live[key := Item(ListV(elements), live[key].expireAt)]
  }

  // ----- numbers

  /** INCR and INCRBY add, DECR and DECRBY subtract, to the number printed under the key or to 0; a sum that
      does not fit leaves the key as it was. */
  lemma IncrMeans(db: Db, clock: Clock, key: Str, m: int, n: int, scores: ScoreTexts)
    requires IsInt64(m) && IsInt64(n)
    requires var live := LiveItems(db, clock.now);
             if key in live then live[key].value == StringV(SignedDigits(m)) else m == 0
    ensures Sent(db, clock, [Text("INCR"), key], scores) == Summed(db, clock, [Text("INCR"), key], key, m + 1)
    ensures Sent(db, clock, [Text("DECR"), key], scores) == Summed(db, clock, [Text("DECR"), key], key, m - 1)
    ensures var args := [Text("INCRBY"), key, SignedDigits(n)]; Sent(db, clock, args, scores) == Summed(db, clock, args, key, m + n)
    ensures var args := [Text("DECRBY"), key, SignedDigits(n)]; Sent(db, clock, args, scores) == Summed(db, clock, args, key, m - n)
  {
    hide Text, SignedDigits, Handle, LiveItems, LiveStep, Summed;
    IncrHandled(key, n, scores);
    SumSent(db, clock, [Text("INCR"), key], key, m, 1, false, scores);
    SumSent(db, clock, [Text("DECR"), key], key, m, 1, true, scores);
    SumSent(db, clock, [Text("INCRBY"), key, SignedDigits(n)], key, m, n, false, scores);
    SumSent(db, clock, [Text("DECRBY"), key, SignedDigits(n)], key, m, n, true, scores);
  }

  /** The key with this sum, printed, and its deadline; or nothing changed where the sum does not fit. */
  function Summed(db: Db, clock: Clock, args: Command, key: Str, sum: int): Live {
    var live := LiveItems(db, clock.now);
    if -0x8000_0000_0000_0000 <= sum <= 0x7FFF_FFFF_FFFF_FFFF then
      Live(live[key := Item(StringV(SignedDigits(sum)), Deadlined(live, key))], [args], {})
    else Fresh(live)
  }

  lemma SumSent(db: Db, clock: Clock, args: Command, key: Str, m: int, n: int, minus: bool, scores: ScoreTexts)
    requires IsInt64(m) && IsInt64(n) && Handle(args, scores) == Write(On(key, IncrBy(n, minus)))
    requires var live := LiveItems(db, clock.now);
             if key in live then live[key].value == StringV(SignedDigits(m)) else m == 0
    ensures Sent(db, clock, args, scores) == Summed(db, clock, args, key, if minus then m - n else m + n)
  {
    hide Handle, LiveItems, LiveStep, SignedDigits, ParseInt64;
    SentOn(db, clock, args, key, IncrBy(n, minus), scores);
    Laws.ParsePrinted(m);
    UpdateSame(LiveItems(db, clock.now), key);
  }

  lemma IncrHandled(key: Str, n: int, scores: ScoreTexts)
    requires IsInt64(n)
    ensures Handle([Text("INCR"), key], scores) == Write(On(key, IncrBy(1, false)))
    ensures Handle([Text("DECR"), key], scores) == Write(On(key, IncrBy(1, true)))
    ensures Handle([Text("INCRBY"), key, SignedDigits(n)], scores) == Write(On(key, IncrBy(n, false)))
    ensures Handle([Text("DECRBY"), key, SignedDigits(n)], scores) == Write(On(key, IncrBy(n, true)))
  {
    hide VerbOf, Text, SignedDigits, FromChars;
    IsINCR();
    IsDECR();
    IsINCRBY();
    IsDECRBY();
    FromCharsSigned(n);
  }

  // ----- hashes

  function Fields(live: Db, key: Str): map<Str, Str> {
    if key in live && live[key].value.HashV? then live[key].value.fields else map[]
  }

  /** HSET and HMSET both overlay their pairs, as OverlayHolds says. */
  lemma HsetMeans(db: Db, clock: Clock, key: Str, pairs: seq<(Str, Str)>, scores: ScoreTexts)
    requires pairs != []
    ensures var live := LiveItems(db, clock.now);
            var hset, hmset := [Text("HSET"), key] + Rewrite.FieldWords(pairs), [Text("HMSET"), key] + Rewrite.FieldWords(pairs);
            if key in live && !live[key].value.HashV? then
              Sent(db, clock, hset, scores) == Sent(db, clock, hmset, scores) == Fresh(live)
            else
              var after := live[key := Item(HashV(Overlay(Fields(live, key), pairs)), Deadlined(live, key))];
              Sent(db, clock, hset, scores) == Live(after, [hset], {}) && Sent(db, clock, hmset, scores) == Live(after, [hmset], {})
  {
    hide Text, Handle, LiveItems, LiveStep, Rewrite.FieldWords, Overlay, Added;
    HsetHandled(key, pairs, scores);
    SentOn(db, clock, [Text("HSET"), key] + Rewrite.FieldWords(pairs), key, Hset(pairs), scores);
    SentOn(db, clock, [Text("HMSET"), key] + Rewrite.FieldWords(pairs), key, Hset(pairs), scores);
    UpdateSame(LiveItems(db, clock.now), key);
  }

  lemma HsetHandled(key: Str, pairs: seq<(Str, Str)>, scores: ScoreTexts)
    requires pairs != []
    ensures Handle([Text("HSET"), key] + Rewrite.FieldWords(pairs), scores) == Write(On(key, Hset(pairs)))
    ensures Handle([Text("HMSET"), key] + Rewrite.FieldWords(pairs), scores) == Write(On(key, Hset(pairs)))
  {
    hide VerbOf, Text, Pairs, Rewrite.FieldWords;
    Verbs();
    IsHMSET();
    Rewrite.FieldWordsBack(pairs);
    Behind(Text("HSET"), key, Rewrite.FieldWords(pairs));
    Behind(Text("HMSET"), key, Rewrite.FieldWords(pairs));
  }

  /** HSETNX puts a field in where there is none, and is logged only then. */
  lemma HsetnxMeans(db: Db, clock: Clock, key: Str, field: Str, value: Str, scores: ScoreTexts)
    ensures var live := LiveItems(db, clock.now); var args := [Text("HSETNX"), key, field, value];
            Sent(db, clock, args, scores)
            == if (key in live && !live[key].value.HashV?) || field in Fields(live, key) then Fresh(live)
               else Live(live[key := Item(HashV(Fields(live, key)[field := value]), Deadlined(live, key))], [args], {})
  {
    hide Text, Handle, LiveItems, LiveStep;
    HashHandled(key, field, value, 0, scores);
    SentOn(db, clock, [Text("HSETNX"), key, field, value], key, Hsetnx(field, value), scores);
    UpdateSame(LiveItems(db, clock.now), key);
  }

  /** HINCRBY adds to the number printed in the field, or to 0; a sum that does not fit changes nothing. */
  lemma HincrbyMeans(db: Db, clock: Clock, key: Str, field: Str, m: int, n: int, scores: ScoreTexts)
    requires IsInt64(m) && IsInt64(n)
    requires var live := LiveItems(db, clock.now);
             (key in live ==> live[key].value.HashV?)
             && if field in Fields(live, key) then Fields(live, key)[field] == SignedDigits(m) else m == 0
    ensures var live := LiveItems(db, clock.now); var args := [Text("HINCRBY"), key, field, SignedDigits(n)];
            Sent(db, clock, args, scores)
            == if IsInt64(m + n) then
                 Live(live[key := Item(HashV(Fields(live, key)[field := SignedDigits(m + n)]), Deadlined(live, key))], [args], {})
               else Fresh(live)
  {
    hide Text, Handle, LiveItems, LiveStep, SignedDigits, ParseHashInteger;
    HashHandled(key, field, [], n, scores);
    SentOn(db, clock, [Text("HINCRBY"), key, field, SignedDigits(n)], key, Hincrby(field, n), scores);
    Laws.ParseHashPrinted(m);
    UpdateSame(LiveItems(db, clock.now), key);
  }

  lemma HashHandled(key: Str, field: Str, value: Str, n: int, scores: ScoreTexts)
    requires IsInt64(n)
    ensures Handle([Text("HSETNX"), key, field, value], scores) == Write(On(key, Hsetnx(field, value)))
    ensures Handle([Text("HINCRBY"), key, field, SignedDigits(n)], scores) == Write(On(key, Hincrby(field, n)))
  {
    hide VerbOf, Text, SignedDigits, ParseHashInteger;
    IsHSETNX();
    IsHINCRBY();
    Laws.ParseHashPrinted(n);
  }

  // ----- what adds and removes members

  function MembersAt(live: Db, key: Str): set<Str> {
    if key in live && live[key].value.SetV? then live[key].value.members else {}
  }

  function ScoresAt(live: Db, key: Str): map<Str, Score> {
    if key in live && live[key].value.ZSetV? then live[key].value.scores else map[]
  }

  lemma NamesHandled(key: Str, names: seq<Str>, scores: ScoreTexts)
    requires names != []
    ensures Handle([Text("HDEL"), key] + names, scores) == Write(On(key, Hdel(names)))
    ensures Handle([Text("SADD"), key] + names, scores) == Write(On(key, Sadd(names)))
    ensures Handle([Text("SREM"), key] + names, scores) == Write(On(key, Srem(names)))
    ensures Handle([Text("ZREM"), key] + names, scores) == Write(On(key, Zrem(names)))
  {
    hide VerbOf, Text;
    IsHDEL();
    Verbs();
    IsSREM();
    IsZREM();
    Behind(Text("HDEL"), key, names);
    Behind(Text("SADD"), key, names);
    Behind(Text("SREM"), key, names);
    Behind(Text("ZREM"), key, names);
  }

  /** HDEL takes out the fields named, and is logged when there were any; an emptied hash is gone. */
  lemma HdelMeans(db: Db, clock: Clock, key: Str, names: seq<Str>, scores: ScoreTexts)
    requires names != [] && (key in LiveItems(db, clock.now) ==> LiveItems(db, clock.now)[key].value != HashV(map[]))
    ensures var live := LiveItems(db, clock.now); var args := [Text("HDEL"), key] + names;
            var left := Fields(live, key) - set f | f in names;
            Sent(db, clock, args, scores)
            == if forall f :: f in names ==> f !in Fields(live, key) then Fresh(live)
               else Live(if left == map[] then live - {key} else live[key := Item(HashV(left), live[key].expireAt)], [args], {})
  {
    hide Text, Handle, LiveItems, LiveStep, HdelAct;
    var args := [Text("HDEL"), key] + names;
    NamesHandled(key, names, scores);
    SentOn(db, clock, args, key, Hdel(names), scores);
    HdelCell(CellAt(db, key, clock.now), names);
    UpdateSame(LiveItems(db, clock.now), key);
  }

  lemma HdelCell(cell: Cell, names: seq<Str>)
    requires cell.Some? ==> cell.value.value != HashV(map[])
    ensures var e := HdelAct(cell, names);
            if cell.None? || !cell.value.value.HashV? || forall f :: f in names ==> f !in cell.value.value.fields then
              e.cell == cell && (e.reply.WrongType? || !Counts(e.reply))
            else
              var left := cell.value.value.fields - set f | f in names;
              Counts(e.reply) && e.cell == if left == map[] then None else Some(cell.value.(value := HashV(left)))
  {
    hide Members;
    if cell.Some? && cell.value.value.HashV? { Common(cell.value.value.fields, names); }
  }

  lemma Common<V>(m: map<Str, V>, names: seq<Str>)
    ensures |m.Keys * Members(names)| == 0 <==> forall f :: f in names ==> f !in m
    ensures |m.Keys * Members(names)| == 0 ==> m - Members(names) == m
    ensures m - Members(names) == m - set f | f in names
  {
    var both := m.Keys * Members(names);
    if f :| f in names && f in m { assert f in both; }
    if f :| f in both { assert f in names; }
    assert |both| == 0 ==> both == {};
  }

  /** SADD puts its names in and SREM takes them out; each is logged when that changed the set, and an emptied
      set is gone. */
  lemma SaddMeans(db: Db, clock: Clock, key: Str, names: seq<Str>, scores: ScoreTexts)
    requires names != []
    ensures var live := LiveItems(db, clock.now); var args := [Text("SADD"), key] + names;
            Sent(db, clock, args, scores)
            == if (key in live && !live[key].value.SetV?) || forall v :: v in names ==> v in MembersAt(live, key) then Fresh(live)
               else Live(live[key := Item(SetV(MembersAt(live, key) + set v | v in names), Deadlined(live, key))], [args], {})
  {
    hide Text, Handle, LiveItems, LiveStep, SaddAct;
    NamesHandled(key, names, scores);
    SentOn(db, clock, [Text("SADD"), key] + names, key, Sadd(names), scores);
    SaddCell(CellAt(db, key, clock.now), names);
    UpdateSame(LiveItems(db, clock.now), key);
  }

  lemma SremMeans(db: Db, clock: Clock, key: Str, names: seq<Str>, scores: ScoreTexts)
    requires names != [] && (key in LiveItems(db, clock.now) ==> LiveItems(db, clock.now)[key].value != SetV({}))
    ensures var live := LiveItems(db, clock.now); var args := [Text("SREM"), key] + names;
            var left := MembersAt(live, key) - set v | v in names;
            Sent(db, clock, args, scores)
            == if forall v :: v in names ==> v !in MembersAt(live, key) then Fresh(live)
               else Live(if left == {} then live - {key} else live[key := Item(SetV(left), live[key].expireAt)], [args], {})
  {
    hide Text, Handle, LiveItems, LiveStep, SremAct;
    NamesHandled(key, names, scores);
    SentOn(db, clock, [Text("SREM"), key] + names, key, Srem(names), scores);
    SremCell(CellAt(db, key, clock.now), names);
    UpdateSame(LiveItems(db, clock.now), key);
  }

  lemma SaddCell(cell: Cell, names: seq<Str>)
    requires names != []
    ensures var e := SaddAct(cell, names); var m := Laws.MembersLeft(cell);
            if (cell.Some? && !cell.value.value.SetV?) || forall v :: v in names ==> v in m then
              e.cell == cell && (e.reply.WrongType? || !Counts(e.reply))
            else Counts(e.reply) && e.cell == Some(Item(SetV(m + set v | v in names), DeadlineOf(cell)))
  {
    hide Members;
    NewMembers(Laws.MembersLeft(cell), names);
    assert names[0] in names;
  }

  lemma SremCell(cell: Cell, names: seq<Str>)
    requires cell.Some? ==> cell.value.value != SetV({})
    ensures var e := SremAct(cell, names); var m := Laws.MembersLeft(cell); var left := m - set v | v in names;
            if cell.None? || !cell.value.value.SetV? || forall v :: v in names ==> v !in m then
              e.cell == cell && (e.reply.WrongType? || !Counts(e.reply))
            else Counts(e.reply) && e.cell == if left == {} then None else Some(cell.value.(value := SetV(left)))
  {
    hide Members;
    NewMembers(Laws.MembersLeft(cell), names);
  }

  lemma NewMembers(m: set<Str>, names: seq<Str>)
    ensures |Members(names) - m| == 0 <==> forall v :: v in names ==> v in m
    ensures |Members(names) - m| == 0 ==> m + Members(names) == m
    ensures |m * Members(names)| == 0 <==> forall v :: v in names ==> v !in m
    ensures |m * Members(names)| == 0 ==> m - Members(names) == m
    ensures m + Members(names) == m + (set v | v in names) && m - Members(names) == m - set v | v in names
  {
    var others, both := Members(names) - m, m * Members(names);
    if v :| v in names && v !in m { assert v in others; }
    if v :| v in others { assert v in names; }
    if v :| v in names && v in m { assert v in both; }
    if v :| v in both { assert v in names; }
    assert (|others| == 0 ==> others == {}) && (|both| == 0 ==> both == {});
  }

  /** Every score text stands for a number. */
  predicate Readable(texts: seq<(Str, Str)>, scores: ScoreTexts) {
    forall i :: 0 <= i < |texts| ==> texts[i].0 in scores
  }

  /** ZADD takes scores before members, and overlays them as OverlayHolds says; one text that is no number
      spoils it. */
  lemma ZaddMeans(db: Db, clock: Clock, key: Str, texts: seq<(Str, Str)>, scores: ScoreTexts)
    requires texts != []
    ensures var live := LiveItems(db, clock.now); var args := [Text("ZADD"), key] + Rewrite.FieldWords(texts);
            Sent(db, clock, args, scores)
            == if (key in live && !live[key].value.ZSetV?) || !Readable(texts, scores) then Fresh(live)
               else
                 Live(live[key := Item(ZSetV(Overlay(ScoresAt(live, key), Scored(texts, scores))), Deadlined(live, key))],
                      [args], {})
  {
    hide Text, Handle, LiveItems, LiveStep, Rewrite.FieldWords, Scored, Readable, ZaddAct, Overlay;
    var args := [Text("ZADD"), key] + Rewrite.FieldWords(texts);
    ZaddHandled(key, texts, scores);
    if !Readable(texts, scores) {
      SentRejected(db, clock, args, scores);
    } else {
      SentOn(db, clock, args, key, Zadd(Scored(texts, scores)), scores);
      ZaddCell(CellAt(db, key, clock.now), Scored(texts, scores));
      UpdateSame(LiveItems(db, clock.now), key);
    }
  }

  lemma ZaddCell(cell: Cell, values: seq<(Str, Score)>)
    ensures var e := ZaddAct(cell, values);
            if cell.Some? && !cell.value.value.ZSetV? then e == Effect(cell, WrongType)
            else e.cell == Some(Item(ZSetV(Overlay(Laws.ScoresLeft(cell), values)), DeadlineOf(cell))) && e.reply.Count?
  {
    hide Overlay;
  }

  /** The members with the numbers their texts stand for. */
  function Scored(texts: seq<(Str, Str)>, scores: ScoreTexts): (r: seq<(Str, Score)>)
    requires Readable(texts, scores)
    ensures |r| == |texts| && forall i :: 0 <= i < |texts| ==> r[i] == (texts[i].1, scores[texts[i].0])
  {
    seq(|texts|, i requires 0 <= i < |texts| => (texts[i].1, scores[texts[i].0]))
  }

  lemma ZaddHandled(key: Str, texts: seq<(Str, Str)>, scores: ScoreTexts)
    requires texts != []
    ensures Handle([Text("ZADD"), key] + Rewrite.FieldWords(texts), scores)
         == if Readable(texts, scores) then Write(On(key, Zadd(Scored(texts, scores)))) else Reject
  {
    hide VerbOf, Text, ScorePairs, Scored, Readable, Rewrite.FieldWords, Handle;
    Verbs();
    Behind(Text("ZADD"), key, Rewrite.FieldWords(texts));
    ScoresRead(texts, scores);
    ZaddReads([Text("ZADD"), key] + Rewrite.FieldWords(texts), scores);
  }

  lemma ZaddReads(args: Command, scores: ScoreTexts)
    requires |args| >= 4 && |args[2..]| % 2 == 0 && VerbOf(args[0]) == ZADD
    ensures var pairs := ScorePairs(args[2..], scores);
            Handle(args, scores) == if pairs.None? then Reject else Write(On(args[1], Zadd(pairs.value)))
  {
    hide VerbOf, Text, ScorePairs, FromChars, Options;
  }

  lemma ScoresRead(texts: seq<(Str, Str)>, scores: ScoreTexts)
    ensures ScorePairs(Rewrite.FieldWords(texts), scores)
         == if Readable(texts, scores) then Some(Scored(texts, scores)) else None
  {
    hide Rewrite.FieldWords;
    var words := Rewrite.FieldWords(texts);
    forall i | 0 <= i < |texts| ensures words[2 * i] == texts[i].0 && words[2 * i + 1] == texts[i].1 {
      Rewrite.FieldWordsAt(texts, i);
    }
    if Readable(texts, scores) {
      assert ScorePairs(words, scores).Some?;
      assert ScorePairs(words, scores).value == Scored(texts, scores);
    }
  }

  lemma ZremMeans(db: Db, clock: Clock, key: Str, names: seq<Str>, scores: ScoreTexts)
    requires names != [] && (key in LiveItems(db, clock.now) ==> LiveItems(db, clock.now)[key].value != ZSetV(map[]))
    ensures var live := LiveItems(db, clock.now); var args := [Text("ZREM"), key] + names;
            var left := ScoresAt(live, key) - set v | v in names;
            Sent(db, clock, args, scores)
            == if forall v :: v in names ==> v !in ScoresAt(live, key) then Fresh(live)
               else Live(if left == map[] then live - {key} else live[key := Item(ZSetV(left), live[key].expireAt)], [args], {})
  {
    hide Text, Handle, LiveItems, LiveStep, ZremAct;
    var args := [Text("ZREM"), key] + names;
    NamesHandled(key, names, scores);
    SentOn(db, clock, args, key, Zrem(names), scores);
    ZremCell(CellAt(db, key, clock.now), names);
    UpdateSame(LiveItems(db, clock.now), key);
  }

  lemma ZremCell(cell: Cell, names: seq<Str>)
    requires cell.Some? ==> cell.value.value != ZSetV(map[])
    ensures var e := ZremAct(cell, names);
            if cell.None? || !cell.value.value.ZSetV? || forall f :: f in names ==> f !in cell.value.value.scores then
              e.cell == cell && (e.reply.WrongType? || !Counts(e.reply))
            else
              var left := cell.value.value.scores - set f | f in names;
              Counts(e.reply) && e.cell == if left == map[] then None else Some(cell.value.(value := ZSetV(left)))
  {
    hide Members;
    if cell.Some? && cell.value.value.ZSetV? { Common(cell.value.value.scores, names); }
  }

  // ----- several keys

  lemma SentAll(db: Db, clock: Clock, args: Command, op: Op, scores: ScoreTexts)
    requires Handle(args, scores) == Write(op) && (op.Mset? || op.Del? || op.Flushdb?)
    ensures var live := LiveItems(db, clock.now);
            Sent(db, clock, args, scores)
            == match op {
                 case Mset(pairs) => Live(MsetDb(live, pairs), [args], {})
                 case Del(keys) => if DelCount(live, keys) > 0 then Live(DelDb(live, keys), [args], {}) else Fresh(DelDb(live, keys))
                 case _ => Live(map[], [args], {})
               }
  {
    hide Handle, LiveItems, MsetDb, DelDb, DelCount;
    LiveAllAlive(db, clock.now);
  }

  /** DEL takes out the keys named, and is logged when there were any. */
  lemma DelMeans(db: Db, clock: Clock, keys: seq<Str>, scores: ScoreTexts)
    requires keys != []
    ensures var live := LiveItems(db, clock.now); var args := [Text("DEL")] + keys;
            Sent(db, clock, args, scores)
            == if forall k :: k in keys ==> k !in live then Fresh(live) else Live(live - set k | k in keys, [args], {})
  {
    hide Text, LiveItems, LiveStep, VerbOf;
    IsDEL();
    var args := [Text("DEL")] + keys;
    assert args[1..] == keys && args[0] == Text("DEL");
    SentAll(db, clock, args, Del(keys), scores);
    Common(LiveItems(db, clock.now), keys);
  }

  /** MSET stores its pairs, as MsetHolds says. */
  lemma MsetMeans(db: Db, clock: Clock, pairs: seq<(Str, Str)>, scores: ScoreTexts)
    requires pairs != []
    ensures var args := [Text("MSET")] + Rewrite.FieldWords(pairs);
            Sent(db, clock, args, scores) == Live(MsetDb(LiveItems(db, clock.now), pairs), [args], {})
  {
    hide Text, LiveItems, LiveStep, VerbOf, Pairs, Rewrite.FieldWords;
    IsMSET();
    var args := [Text("MSET")] + Rewrite.FieldWords(pairs);
    assert args[1..] == Rewrite.FieldWords(pairs) && args[0] == Text("MSET");
    Rewrite.FieldWordsBack(pairs);
    SentAll(db, clock, args, Mset(pairs), scores);
  }

  /** FLUSHDB and FLUSHALL leave nothing. */
  lemma FlushMeans(db: Db, clock: Clock, scores: ScoreTexts)
    ensures Sent(db, clock, [Text("FLUSHDB")], scores) == Live(map[], [[Text("FLUSHDB")]], {})
    ensures Sent(db, clock, [Text("FLUSHALL")], scores) == Live(map[], [[Text("FLUSHALL")]], {})
  {
    hide Text, LiveStep, VerbOf;
    IsFLUSHDB();
    IsFLUSHALL();
    SentAll(db, clock, [Text("FLUSHDB")], Flushdb, scores);
    SentAll(db, clock, [Text("FLUSHALL")], Flushdb, scores);
  }

  // ----- blocking pops

  /** An attempt on several keys stops at the first that is present, and takes its last element. */
  lemma {:induction false} AttemptMeans(db: Db, keys: seq<Str>, i: nat)
    requires i < |keys| && keys[i] in db && forall j :: 0 <= j < i ==> keys[j] !in db
    requires db[keys[i]].value != ListV([])
    ensures var l := Listed(db, keys[i]);
            Waiters.TryPop(db, keys)
            == if !db[keys[i]].value.ListV? then Waiters.Tried(Waiters.Refused, db)
               else Waiters.Tried(Waiters.Success(keys[i], l[|l| - 1]), Holding(db, keys[i], l[..|l| - 1]))
    decreases i
  {
    Waiters.TryPopUnfold(db, keys);
    if i == 0 {
      if db[keys[0]].value.ListV? { LastPopped(db, keys[0]); }
    } else {
      AttemptMeans(db, keys[1..], i - 1);
    }
  }

  lemma LastPopped(db: Db, key: Str)
    requires key in db && db[key].value.ListV? && db[key].value.elements != []
    ensures var l := Listed(db, key); var e := PopAct(Lookup(db, key), 1, false);
            e.reply == Popped([l[|l| - 1]]) && Update(db, key, e.cell) == Holding(db, key, l[..|l| - 1])
  {
    hide PopAct;
    LastTaken(db[key]);
  }

  lemma LastTaken(item: Item)
    requires item.value.ListV? && item.value.elements != []
    ensures var l := item.value.elements; var rest := l[..|l| - 1];
            PopAct(Some(item), 1, false)
            == Effect(if rest == [] then None else Some(item.(value := ListV(rest))), Popped([l[|l| - 1]]))
  {
    hide Reversed;
    var l := item.value.elements;
    assert l[|l| - 1..] == [l[|l| - 1]];
    AloneReversed(l[|l| - 1]);
  }

  lemma AloneReversed(x: Str)
    ensures Reversed([x]) == [x]
  {
  }

  /** The last word of BRPOP is the timeout in seconds; what it pops is not logged. */
  lemma BrpopMeans(db: Db, clock: Clock, keys: seq<Str>, n: int, scores: ScoreTexts)
    requires keys != [] && IsInt64(n)
    ensures var live := LiveItems(db, clock.now); var args := [Text("BRPOP")] + keys + [SignedDigits(n)];
            Handle(args, scores) == (if n < 0 then Reject else BlockingPop(keys, n))
            && Sent(db, clock, args, scores) == Fresh(if n < 0 then live else Waiters.TryPop(live, keys).db)
  {
    hide Text, SignedDigits, LiveItems, VerbOf, FromChars, Waiters.TryPop;
    BrpopVerb();
    FromCharsSigned(n);
    var args := [Text("BRPOP")] + keys + [SignedDigits(n)];
    assert args[|args| - 1] == SignedDigits(n) && args[1..|args| - 1] == keys && args[0] == Text("BRPOP");
  }

  // ----- what replay makes of a deadline

  /** PEXPIREAT in the log is a wall-clock time in milliseconds; EXPIRE and PEXPIRE count from the replay. */
  lemma DeadlineReplayed(db: Db, clock: Clock, key: Str, n: nat, scores: ScoreTexts)
    requires n <= INT64_MAX
    ensures var live := LiveItems(db, clock.now);
            ReplayStep(db, clock, [Text("PEXPIREAT"), key, Digits(n)], scores)
            == if key !in live then live
               else if n <= clock.wall then live - {key}
               else live[key := live[key].(expireAt := clock.now + (n - clock.wall))]
    ensures var live := LiveItems(db, clock.now);
            ReplayStep(db, clock, [Text("EXPIRE"), key, Digits(n)], scores)
            == if key !in live then live
               else if n == 0 then live - {key}
               else live[key := live[key].(expireAt := clock.now + 1000 * n)]
    ensures var live := LiveItems(db, clock.now);
            ReplayStep(db, clock, [Text("PEXPIRE"), key, Digits(n)], scores)
            == if key !in live then live
               else if n == 0 then live - {key}
               else live[key := live[key].(expireAt := clock.now + n)]
  {
    hide Text, Digits, LiveItems, ReplayOp;
    PexpireatReplays(key, n, scores);
    DurationReplayed(key, n, scores);
    LiveAllAlive(db, clock.now);
    if key !in LiveItems(db, clock.now) { NotThere(LiveItems(db, clock.now), key); }
  }

  lemma DurationReplayed(key: Str, n: nat, scores: ScoreTexts)
    requires n <= INT64_MAX
    ensures ReplayOp([Text("EXPIRE"), key, Digits(n)], scores) == Some(On(key, Expire(1000 * n)))
    ensures ReplayOp([Text("PEXPIRE"), key, Digits(n)], scores) == Some(On(key, Expire(n)))
  {
    hide Text, Digits, VerbOf, Stoll, FromChars;
    IsEXPIRE();
    IsPEXPIRE();
    FromCharsDigits(n);
    StollStrict(Digits(n));
  }

  // ----- how many words

  /** Commands with too few or too many words are refused, and PEXPIREAT is no command for clients. */
  lemma WrongLength(args: Command, scores: ScoreTexts)
    requires args != []
    ensures args[0] in {Text("INCR"), Text("DECR"), Text("PERSIST")} && |args| != 2 ==> Handle(args, scores).Reject?
    ensures args[0] in {Text("EXPIRE"), Text("PEXPIRE"), Text("INCRBY"), Text("DECRBY")} && |args| != 3 ==> Handle(args, scores).Reject?
    ensures args[0] in {Text("SETEX"), Text("HSETNX"), Text("HINCRBY")} && |args| != 4 ==> Handle(args, scores).Reject?
    ensures args[0] in {Text("LPOP"), Text("RPOP")} && |args| != 2 && |args| != 3 ==> Handle(args, scores).Reject?
    ensures args[0] == Text("DEL") && |args| < 2 ==> Handle(args, scores).Reject?
    ensures args[0] == Text("PEXPIREAT") ==> Handle(args, scores).Reject?
  {
    hide Text, VerbOf, FromChars, Options;
    IsINCR();
    IsDECR();
    IsPERSIST();
    IsEXPIRE();
    IsPEXPIRE();
    IsINCRBY();
    IsDECRBY();
    SetexVerb();
    IsHSETNX();
    IsHINCRBY();
    LpopVerb();
    IsRPOP();
    IsDEL();
    PexpireatVerb();
  }

  lemma TooFew(args: Command, scores: ScoreTexts)
    requires args != []
    ensures args[0] in {Text("SET"), Text("LPUSH"), Text("RPUSH"), Text("SADD"), Text("BRPOP")} && |args| < 3
            ==> Handle(args, scores).Reject?
    ensures args[0] in {Text("HDEL"), Text("SREM"), Text("ZREM")} && |args| < 3 ==> Handle(args, scores).Reject?
    ensures args[0] in {Text("HSET"), Text("HMSET"), Text("ZADD")} && (|args| < 4 || |args| % 2 == 1)
            ==> Handle(args, scores).Reject?
    ensures args[0] == Text("MSET") && (|args| < 3 || |args| % 2 == 0) ==> Handle(args, scores).Reject?
  {
    hide Text, VerbOf, FromChars, Options;
    Verbs();
    IsLPUSH();
    BrpopVerb();
    IsHDEL();
    IsSREM();
    IsZREM();
    IsHMSET();
    IsMSET();
  }
}
