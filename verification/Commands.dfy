/** From command words to store operations, twice: as the command handlers read them (commands.hpp)
    and as replay reads them from the log (aof.hpp); and what dispatch appends to the log. */
module Commands {
  import opened Bytes
  import opened Keyspace
  import opened Runs
  import Resp

  type Command = Resp.Command

  /** What the C library reads from the text of a double: the texts parse_double accepts, and std::stod
      agrees on those. */
  type ScoreTexts = map<Str, Score>

  // ----- names

  datatype Verb =
    | SET | PEXPIREAT | RPUSH | HSET | SADD | ZADD
    | SETEX | DEL | INCR | DECR | INCRBY | DECRBY | MSET | LPUSH | LPOP | RPOP | EXPIRE | PEXPIRE | PERSIST
    | FLUSHDB | FLUSHALL | HMSET | HSETNX | HDEL | HINCRBY | SREM | ZREM | BRPOP | OTHER

  /** Names are compared without regard to case. */
  function VerbOf(word: Str): Verb { Named(UpperAll(word)) }

  function Named(name: Str): Verb {
    if name == Text("SET") then SET
    else if name == Text("PEXPIREAT") then PEXPIREAT
    else if name == Text("RPUSH") then RPUSH
    else if name == Text("HSET") then HSET
    else if name == Text("SADD") then SADD
    else if name == Text("ZADD") then ZADD
    else if name == Text("SETEX") then SETEX
    else if name == Text("DEL") then DEL
    else if name == Text("INCR") then INCR
    else if name == Text("DECR") then DECR
    else if name == Text("INCRBY") then INCRBY
    else if name == Text("DECRBY") then DECRBY
    else if name == Text("MSET") then MSET
    else if name == Text("LPUSH") then LPUSH
    else if name == Text("LPOP") then LPOP
    else if name == Text("RPOP") then RPOP
    else if name == Text("EXPIRE") then EXPIRE
    else if name == Text("PEXPIRE") then PEXPIRE
    else if name == Text("PERSIST") then PERSIST
    else if name == Text("FLUSHDB") then FLUSHDB
    else if name == Text("FLUSHALL") then FLUSHALL
    else if name == Text("HMSET") then HMSET
    else if name == Text("HSETNX") then HSETNX
    else if name == Text("HDEL") then HDEL
    else if name == Text("HINCRBY") then HINCRBY
    else if name == Text("SREM") then SREM
    else if name == Text("ZREM") then ZREM
    else if name == Text("BRPOP") then BRPOP
    else OTHER
  }

  /** Some names are their own verbs. */
  lemma Verbs()
    ensures VerbOf(Text("SET")) == SET && VerbOf(Text("RPUSH")) == RPUSH && VerbOf(Text("HSET")) == HSET
    ensures VerbOf(Text("SADD")) == SADD && VerbOf(Text("ZADD")) == ZADD
  {
    assert UpperAll(Text("SET")) == Text("SET");
    assert UpperAll(Text("RPUSH")) == Text("RPUSH");
    assert UpperAll(Text("HSET")) == Text("HSET") && Text("HSET")[0] == 72;
    assert UpperAll(Text("SADD")) == Text("SADD") && Text("SADD")[0] == 83;
    assert UpperAll(Text("ZADD")) == Text("ZADD") && Text("ZADD")[0] == 90;
  }

  // ----- numbers

  /** std::stoll: leading white space, one sign, and whatever digits follow; the rest is ignored. */
  function Stoll(s: Str): (r: Option<int>)
    ensures r.Some? ==> IsInt64(r.value)
  {
    if s == [] then None
    else if Resp.IsSpace(s[0]) then Stoll(s[1..])
    else
      var body := if s[0] == PLUS || s[0] == MINUS then s[1..] else s;
      var digits := DigitPrefix(body);
      if digits == [] then None
      else
        var magnitude: int := DigitsValue(digits);
        var v := if s[0] == MINUS then -magnitude else magnitude;
        if IsInt64(v) then Some(v) else None
  }

  function DigitPrefix(s: Str): (d: Str)
    ensures forall i :: 0 <= i < |d| ==> IsDigit(d[i])
    ensures AllDigits(s) ==> d == s
  {
    if s == [] || !IsDigit(s[0]) then [] else [s[0]] + DigitPrefix(s[1..])
  }

  /** std::stoull over the whole text: leading white space and a sign are allowed, and a minus sign
      wraps around. */
  function Stoull(s: Str): (r: Option<nat>)
    ensures r.Some? ==> r.value <= UINT64_MAX
  {
    if s == [] then None
    else if Resp.IsSpace(s[0]) then Stoull(s[1..])
    else
      var body := if s[0] == PLUS || s[0] == MINUS then s[1..] else s;
      if !AllDigits(body) || DigitsValue(body) > UINT64_MAX then None
      else
        var v := DigitsValue(body);
        Some(if s[0] == MINUS && v > 0 then UINT64_MAX + 1 - v else v)
  }

  lemma StollStrict(s: Str)
    requires FromChars(s).Some?
    ensures Stoll(s) == FromChars(s)
  {
    var body := if s[0] == MINUS then s[1..] else s;
    assert AllDigits(body);
    assert IsDigit(body[0]);
  }

  lemma StollAfterPlus(s: Str)
    requires FromChars(s).Some? && FromChars(s).value > 0
    ensures Stoll([PLUS] + s) == FromChars(s)
  {
    assert s[0] != MINUS;
    assert ([PLUS] + s)[1..] == s;
  }

  lemma StoullDigits(n: nat)
    requires n <= UINT64_MAX
    ensures Stoull(Digits(n)) == Some(n)
  {
    DigitsRoundTrip(n);
    assert IsDigit(Digits(n)[0]);
  }

  // ----- the options of SET

  datatype SetOptions = SetOptions(ttl: nat, hasExpiry: bool, keepTtl: bool, nx: bool, xx: bool)

  const NO_OPTIONS: SetOptions := SetOptions(0, false, false, false, false)

  datatype Reader = Handler | Replay

  /** The duration of EX and PX, as the handler reads it and as replay does. */
  function Duration(text: Str, reader: Reader): Option<int> {
    if reader.Handler? then FromChars(if text != [] && text[0] == PLUS then text[1..] else text) else Stoll(text)
  }

  function OptionOf(word: Str): Str { UpperAll(word) }

  /** The options from args[i] on, or None for a syntax error. */
  function Options(args: Command, i: nat, o: SetOptions, reader: Reader): Option<SetOptions>
    decreases |args| - i
  {
    if i >= |args| then if o.keepTtl && o.hasExpiry then None else Some(o)
    else
      var option := OptionOf(args[i]);
      if option == Text("NX") then if o.nx || o.xx then None else Options(args, i + 1, o.(nx := true), reader)
      else if option == Text("XX") then if o.nx || o.xx then None else Options(args, i + 1, o.(xx := true), reader)
      else if option == Text("KEEPTTL") then if o.keepTtl then None else Options(args, i + 1, o.(keepTtl := true), reader)
      else if option == Text("EX") || option == Text("PX") then
        if o.hasExpiry || i + 1 >= |args| then None
        else
          var d := Duration(args[i + 1], reader);
          if d.None? || d.value <= 0 then None
          else if option == Text("EX") && d.value > UINT64_MAX / 1000 then None
          else
            Options(args, i + 2,
                    o.(ttl := if option == Text("EX") then d.value * 1000 else d.value, hasExpiry := true), reader)
      else None
  }

  /** Replay reads every option list the handler accepted as the handler did. */
  lemma {:induction false} OptionsAgree(args: Command, i: nat, o: SetOptions)
    requires Options(args, i, o, Handler).Some?
    ensures Options(args, i, o, Replay) == Options(args, i, o, Handler)
    decreases |args| - i
  {
    hide Text, OptionOf, Stoll, FromChars, Duration;
    if i < |args| {
      var option := OptionOf(args[i]);
      if option == Text("NX") { OptionsAgree(args, i + 1, o.(nx := true)); }
      else if option == Text("XX") { OptionsAgree(args, i + 1, o.(xx := true)); }
      else if option == Text("KEEPTTL") { OptionsAgree(args, i + 1, o.(keepTtl := true)); }
      else {
        var d := Duration(args[i + 1], Handler);
        DurationAgrees(args[i + 1]);
        OptionsAgree(args, i + 2, o.(ttl := if option == Text("EX") then d.value * 1000 else d.value, hasExpiry := true));
      }
    }
  }

  lemma DurationAgrees(text: Str)
    requires Duration(text, Handler).Some? && Duration(text, Handler).value > 0
    ensures Duration(text, Replay) == Duration(text, Handler)
  {
    hide Stoll, FromChars;
    if text != [] && text[0] == PLUS {
      assert text == [PLUS] + text[1..];
      StollAfterPlus(text[1..]);
    } else {
      StollStrict(text);
    }
  }

  // ----- argument lists

  function Pairs(words: seq<Str>): seq<(Str, Str)>
    requires |words| % 2 == 0
  {
    seq(|words| / 2, i requires 0 <= i < |words| / 2 => (words[2 * i], words[2 * i + 1]))
  }

  /** Score and member alternate; one unreadable score spoils the command. */
  function ScorePairs(words: seq<Str>, scores: ScoreTexts): Option<seq<(Str, Score)>>
    requires |words| % 2 == 0
  {
    if exists i :: 0 <= i < |words| / 2 && words[2 * i] !in scores then None
    else Some(seq(|words| / 2, i requires 0 <= i < |words| / 2 && words[2 * i] in scores =>
                    (words[2 * i + 1], scores[words[2 * i]])))
  }

  // ----- what a handler does

  /** Reject: an error reply, or a command that does not write. ZeroPop: LPOP or RPOP with a count of
      0, which only looks at the list. BlockingPop: BRPOP, which writes and is not logged. */
  datatype Parsed = Reject | Write(op: Op) | ZeroPop(key: Str) | BlockingPop(keys: seq<Str>, timeoutSeconds: nat)

  function Counted(args: Command, left: bool): Parsed {
    if |args| == 2 then Write(On(args[1], Pop(1, left)))
    else if |args| != 3 then Reject
    else
      var count := FromChars(args[2]);
      if count.None? || count.value < 0 then Reject
      else if count.value == 0 then ZeroPop(args[1])
      else Write(On(args[1], Pop(count.value, left)))
  }

  /** The last argument of BRPOP is the timeout, the others are the keys. */
  function Blocking(args: Command): Parsed {
    if |args| < 3 then Reject
    else
      var n := |args| - 1;
      var timeout := FromChars(args[n]);
      if timeout.None? || timeout.value < 0 then Reject else BlockingPop(args[1..n], timeout.value)
  }

  function Deadline(args: Command, unit: nat): Parsed {
    if |args| != 3 || FromChars(args[2]).None? then Reject
    else
      var n := FromChars(args[2]).value;
      Write(On(args[1], Expire(if n > 0 then n * unit else 0)))
  }

  function Delta(args: Command, isDecrement: bool): Parsed {
    if |args| != 3 || FromChars(args[2]).None? then Reject
    else Write(On(args[1], IncrBy(FromChars(args[2]).value, isDecrement)))
  }

  /** The command handlers, with maxmemory off. */
  function Handle(args: Command, scores: ScoreTexts): Parsed {
    if args == [] then Reject
    else
      match VerbOf(args[0])
      case SET =>
        if |args| < 3 then Reject
        else
          var o := Options(args, 3, NO_OPTIONS, Handler);
          if o.None? then Reject
          else Write(On(args[1], Set(args[2], o.value.ttl, o.value.keepTtl, o.value.nx, o.value.xx)))
      case SETEX =>
        if |args| != 4 || FromChars(args[2]).None? || FromChars(args[2]).value <= 0 then Reject
        else Write(On(args[1], Setex(FromChars(args[2]).value * 1000, args[3])))
      case DEL => if |args| < 2 then Reject else Write(Del(args[1..]))
      case INCR => if |args| != 2 then Reject else Write(On(args[1], IncrBy(1, false)))
      case DECR => if |args| != 2 then Reject else Write(On(args[1], IncrBy(1, true)))
      case INCRBY => Delta(args, false)
      case DECRBY => Delta(args, true)
      case MSET => if |args| < 3 || (|args| - 1) % 2 != 0 then Reject else Write(Mset(Pairs(args[1..])))
      case LPUSH => if |args| < 3 then Reject else Write(On(args[1], Push(args[2..], true)))
      case RPUSH => if |args| < 3 then Reject else Write(On(args[1], Push(args[2..], false)))
      case LPOP => Counted(args, true)
      case RPOP => Counted(args, false)
      case EXPIRE => Deadline(args, 1000)
      case PEXPIRE => Deadline(args, 1)
      case PEXPIREAT => Reject
      case PERSIST => if |args| != 2 then Reject else Write(On(args[1], Persist))
      case FLUSHDB => Write(Flushdb)
      case FLUSHALL => Write(Flushdb)
      case HSET => if |args| < 4 || (|args| - 2) % 2 != 0 then Reject else Write(On(args[1], Hset(Pairs(args[2..]))))
      case HMSET => if |args| < 4 || (|args| - 2) % 2 != 0 then Reject else Write(On(args[1], Hset(Pairs(args[2..]))))
      case HSETNX => if |args| != 4 then Reject else Write(On(args[1], Hsetnx(args[2], args[3])))
      case HDEL => if |args| < 3 then Reject else Write(On(args[1], Hdel(args[2..])))
      case HINCRBY =>
        if |args| != 4 || ParseHashInteger(args[3]).None? then Reject
        else Write(On(args[1], Hincrby(args[2], ParseHashInteger(args[3]).value)))
      case SADD => if |args| < 3 then Reject else Write(On(args[1], Sadd(args[2..])))
      case SREM => if |args| < 3 then Reject else Write(On(args[1], Srem(args[2..])))
      case ZADD =>
        if |args| < 4 || (|args| - 2) % 2 != 0 then Reject
        else
          var pairs := ScorePairs(args[2..], scores);
          if pairs.None? then Reject else Write(On(args[1], Zadd(pairs.value)))
      case ZREM => if |args| < 3 then Reject else Write(On(args[1], Zrem(args[2..])))
      case BRPOP => Blocking(args)
      case OTHER => Reject
  }

  // ----- what replay does

  function ReplayCount(args: Command): nat {
    if |args| < 3 then 1
    else if Stoll(args[2]).Some? && Stoll(args[2]).value > 0 then Stoll(args[2]).value
    else 1
  }

  function ReplayDeadline(args: Command, unit: nat): Option<Op> {
    if |args| < 3 || Stoll(args[2]).None? then None
    else
      var n := Stoll(args[2]).value;
      Some(On(args[1], Expire(if n > 0 then n * unit else 0)))
  }

  function ReplayDelta(args: Command, isDecrement: bool): Option<Op> {
    if |args| < 3 || ParseInt64(args[2]).None? then None
    else Some(On(args[1], IncrBy(ParseInt64(args[2]).value, isDecrement)))
  }

  /** replay_command: the operation a logged command stands for, if any. */
  function ReplayOp(args: Command, scores: ScoreTexts): (r: Option<Op>)
    ensures r.Some? ==> Legal(r.value)
  {
    if args == [] then None
    else
      match VerbOf(args[0])
      case SET =>
        if |args| < 3 then None
        else
          var o := Options(args, 3, NO_OPTIONS, Replay);
          if o.None? then None
          else Some(On(args[1], Set(args[2], o.value.ttl, o.value.keepTtl, o.value.nx, o.value.xx)))
      case SETEX =>
        if |args| < 4 || Stoll(args[2]).None? || Stoll(args[2]).value <= 0 then None
        else Some(On(args[1], Setex(Stoll(args[2]).value * 1000, args[3])))
      case DEL => if |args| < 2 then None else Some(Del(args[1..]))
      case INCR => if |args| < 2 then None else Some(On(args[1], IncrBy(1, false)))
      case DECR => if |args| < 2 then None else Some(On(args[1], IncrBy(1, true)))
      case INCRBY => ReplayDelta(args, false)
      case DECRBY => ReplayDelta(args, true)
      case MSET => if |args| < 3 || (|args| - 1) % 2 != 0 then None else Some(Mset(Pairs(args[1..])))
      case LPUSH => if |args| < 3 then None else Some(On(args[1], Push(args[2..], true)))
      case RPUSH => if |args| < 3 then None else Some(On(args[1], Push(args[2..], false)))
      case LPOP => if |args| < 2 then None else Some(On(args[1], Pop(ReplayCount(args), true)))
      case RPOP => if |args| < 2 then None else Some(On(args[1], Pop(ReplayCount(args), false)))
      case EXPIRE => ReplayDeadline(args, 1000)
      case PEXPIRE => ReplayDeadline(args, 1)
      case PEXPIREAT =>
        if |args| < 3 || Stoull(args[2]).None? then None else Some(On(args[1], ExpireAt(Stoull(args[2]).value)))
      case PERSIST => if |args| < 2 then None else Some(On(args[1], Persist))
      case FLUSHDB => Some(Flushdb)
      case FLUSHALL => Some(Flushdb)
      case HSET => if |args| < 4 || (|args| - 2) % 2 != 0 then None else Some(On(args[1], Hset(Pairs(args[2..]))))
      case HMSET => if |args| < 4 || (|args| - 2) % 2 != 0 then None else Some(On(args[1], Hset(Pairs(args[2..]))))
      case HSETNX => if |args| < 4 then None else Some(On(args[1], Hsetnx(args[2], args[3])))
      case HDEL => if |args| < 3 then None else Some(On(args[1], Hdel(args[2..])))
      case HINCRBY =>
        if |args| != 4 || ParseHashInteger(args[3]).None? then None
        else Some(On(args[1], Hincrby(args[2], ParseHashInteger(args[3]).value)))
      case SADD => if |args| < 3 then None else Some(On(args[1], Sadd(args[2..])))
      case SREM => if |args| < 3 then None else Some(On(args[1], Srem(args[2..])))
      case ZADD =>
        if |args| < 4 || (|args| - 2) % 2 != 0 then None
        else
          var pairs := ScorePairs(args[2..], scores);
          if pairs.None? || pairs.value == [] then None else Some(On(args[1], Zadd(pairs.value)))
      case ZREM => if |args| < 3 then None else Some(On(args[1], Zrem(args[2..])))
      case BRPOP => None
      case OTHER => None
  }

  /** Every write a handler accepts is read back by replay as the same operation, except that
      deadlines are logged in another form. */
  lemma ReplayReadsHandled(args: Command, scores: ScoreTexts)
    requires Handle(args, scores).Write?
    ensures var op := Handle(args, scores).op;
            Legal(op) && (!(op.On? && op.action.Expire?) ==> ReplayOp(args, scores) == Some(op))
  {
    hide VerbOf, Options, FromChars, Stoll, Stoull, ParseHashInteger, Pairs, ScorePairs, Digits;
    match VerbOf(args[0])
    case SET => OptionsAgree(args, 3, NO_OPTIONS);
    case SETEX => StollStrict(args[2]);
    case INCRBY => PlainInt64(args[2]);
    case DECRBY => PlainInt64(args[2]);
    case LPOP => if |args| == 3 { StollStrict(args[2]); }
    case RPOP => if |args| == 3 { StollStrict(args[2]); }
    case ZADD => SomeScores(args[2..], scores);
    case _ =>
  }

  lemma PlainInt64(s: Str)
    requires FromChars(s).Some?
    ensures ParseInt64(s) == FromChars(s)
  {
  }

  lemma SomeScores(words: seq<Str>, scores: ScoreTexts)
    requires |words| >= 2 && |words| % 2 == 0 && ScorePairs(words, scores).Some?
    ensures ScorePairs(words, scores).value != []
  {
  }

  // ----- what dispatch logs

  /** The command appended to the log after op has answered reply; None when nothing is logged. */
  function Logged(args: Command, op: Op, reply: Reply): Option<Command> {
    if reply.WrongType? || reply.NotAnInteger? || reply.Overflow? then None
    else if op.Del? then if reply.Count? && reply.count > 0 then Some(args) else None
    else if !op.On? then Some(args)
    else
      match op.action
      case Set(_, _, _, _, _) => if reply.Applied? then Some(args) else None
      case Expire(_) =>
        if reply.Expiry? && reply.changed == 1 then Some([Text("PEXPIREAT"), op.key, Digits(reply.deadline)]) else None
      case Persist => if reply.Count? && reply.count > 0 then Some(args) else None
      case Hsetnx(_, _) => if reply.Count? && reply.count > 0 then Some(args) else None
      case Hdel(_) => if reply.Count? && reply.count > 0 then Some(args) else None
      case Sadd(_) => if reply.Count? && reply.count > 0 then Some(args) else None
      case Srem(_) => if reply.Count? && reply.count > 0 then Some(args) else None
      case Zrem(_) => if reply.Count? && reply.count > 0 then Some(args) else None
      case _ => Some(args)
  }
}
