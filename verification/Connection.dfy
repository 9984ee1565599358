/** One client connection of event_loop.hpp: transactions, the read loop over the receive buffer,
    and the output buffer. */
module Connection {
  import opened Bytes
  import opened Resp
  import opened Stream

  const MAX_QUEUED_COMMANDS: nat := 32768
  const CLIENT_BUFFER_SIZE: nat := 65536

  // ----- transactions

  /** What the command handler does with one command: the reply it appends and the connection
      flags it raises. */
  datatype Outcome = Outcome(reply: Str, close: bool, block: bool, grant: bool)

  /** What the handler answers to its successive calls on this connection. Nothing is assumed about
      the answers, since the store behind it is shared with other clients. */
  type Handler = seq<Outcome>

  function AnswerOf(h: Handler, n: nat): Outcome {
    if n < |h| then h[n] else Outcome([], false, false, false)
  }

  /** The fixed replies of the connection itself. */
  datatype Notice =
    | Ok | Queued | EmptyCommand | NoAuth | NestedMulti | DiscardAlone | ExecAlone | QueueFull
    | MultiArity | DiscardArity | ExecArity | ProtocolError

  function Wire(n: Notice): Str {
    match n
    case MultiArity => Text("-ERR wrong number of arguments for 'multi' command\r\n")
    case DiscardArity => Text("-ERR wrong number of arguments for 'discard' command\r\n")
    case ExecArity => Text("-ERR wrong number of arguments for 'exec' command\r\n")
    case EmptyCommand => Text("-ERR empty command\r\n")
    case Ok => Text("+OK\r\n")
    case NoAuth => Text("-ERR NOAUTH Authentication required.\r\n")
    case NestedMulti => Text("-ERR MULTI calls can not be nested\r\n")
    case DiscardAlone => Text("-ERR DISCARD without MULTI\r\n")
    case ExecAlone => Text("-ERR EXEC without MULTI\r\n")
    case QueueFull => Text("-ERR transaction queue limit reached\r\n")
    case Queued => Text("+QUEUED\r\n")
    case ProtocolError => Text("-ERR Protocol error\r\n")
  }

  datatype Session = Session(
    open: bool, queue: seq<Command>, executed: seq<Command>,
    closing: bool, blocked: bool, authenticated: bool, output: Str)

  datatype Kind = Empty | Quit | Multi | Discard | Exec | Misused(notice: Notice) | Plain

  predicate Named(c: Command, name: string) {
    c != [] && UpperAll(c[0]) == Text(name)
  }

  function KindOf(c: Command): Kind {
    if c == [] then Empty
    else if Named(c, "QUIT") then Quit
    else if Named(c, "MULTI") then
      if |c| == 1 then Multi else Misused(MultiArity)
    else if Named(c, "DISCARD") then
      if |c| == 1 then Discard else Misused(DiscardArity)
    else if Named(c, "EXEC") then
      if |c| == 1 then Exec else Misused(ExecArity)
    else Plain
  }

  function Say(s: Session, notice: Notice): Session { s.(output := s.output + Wire(notice)) }

  /** EXEC announces how many replies follow. */
  function Announce(s: Session): Session {
    s.(open := false, output := s.output + ArrayHeader(|s.queue|))
  }

  /** CommandHandler::dispatch as seen from the connection. */
  function Handle(h: Handler, s: Session, c: Command): Session {
    var o := AnswerOf(h, |s.executed|);
    s.(executed := s.executed + [c], closing := s.closing || o.close,
       authenticated := s.authenticated || o.grant, output := s.output + o.reply)
  }

  function HandleAll(h: Handler, s: Session, queue: seq<Command>): Session
    decreases |queue|
  {
    if queue == [] then s else HandleAll(h, Handle(h, s, queue[0]), queue[1..])
  }

  /** The commands a client may send before it has given the password. */
  predicate Passes(c: Command) { Named(c, "AUTH") || Named(c, "HELLO") }

  /** What one command does to a connection; `locked` says that a password is configured. */
  function Dispatch(h: Handler, locked: bool, s: Session, c: Command): Session {
    var kind := KindOf(c);
    if kind.Empty? then Say(s, EmptyCommand)
    else if kind.Quit? then Say(s, Ok).(closing := true, open := false, queue := [])
    else if locked && !s.authenticated && !Passes(c) then Say(s, NoAuth)
    else if kind.Misused? then Say(s, kind.notice)
    else if kind.Multi? then
      if s.open then Say(s, NestedMulti) else Say(s, Ok).(open := true, queue := [])
    else if kind.Discard? then
      if s.open then Say(s, Ok).(open := false, queue := []) else Say(s, DiscardAlone)
    else if kind.Exec? then
      if s.open then HandleAll(h, Announce(s), s.queue).(queue := []) else Say(s, ExecAlone)
    else if s.open then
      if |s.queue| >= MAX_QUEUED_COMMANDS then Say(s, QueueFull)
      else Say(s, Queued).(queue := s.queue + [c])
    else Handle(h, s, c).(blocked := AnswerOf(h, |s.executed|).block)
  }

  function Run(h: Handler, locked: bool, s: Session, commands: seq<Command>): Session
    decreases |commands|
  {
    if commands == [] then s else Run(h, locked, Dispatch(h, locked, s, commands[0]), commands[1..])
  }

  lemma {:induction false} RunSnoc(h: Handler, locked: bool, s: Session, commands: seq<Command>)
    requires commands != []
    ensures var n := |commands| - 1;
            Run(h, locked, s, commands) == Dispatch(h, locked, Run(h, locked, s, commands[..n]), commands[n])
    decreases |commands|
  {
    hide Dispatch;
    var n := |commands| - 1;
    var t := Dispatch(h, locked, s, commands[0]);
    if n == 0 {
      assert commands[1..] == [] && commands[..0] == [];
    } else {
      RunSnoc(h, locked, t, commands[1..]);
      assert commands[1..][..n - 1] == commands[..n][1..] && commands[..n][0] == commands[0];
    }
  }

  lemma {:induction false} RunConcat(h: Handler, locked: bool, s: Session, a: seq<Command>, b: seq<Command>)
    ensures Run(h, locked, s, a + b) == Run(h, locked, Run(h, locked, s, a), b)
    decreases |a|
  {
    hide Dispatch;
    if a == [] {
      assert a + b == b;
    } else {
      assert (a + b)[0] == a[0] && (a + b)[1..] == a[1..] + b;
      RunConcat(h, locked, Dispatch(h, locked, s, a[0]), a[1..], b);
    }
  }

  lemma {:induction false} HandleAllEffect(h: Handler, s: Session, queue: seq<Command>)
    ensures var t := HandleAll(h, s, queue);
            t.executed == s.executed + queue && t.open == s.open && t.queue == s.queue && t.blocked == s.blocked
            && (s.closing ==> t.closing) && (s.authenticated ==> t.authenticated)
    decreases |queue|
  {
    if queue != [] {
      HandleAllEffect(h, Handle(h, s, queue[0]), queue[1..]);
      assert s.executed + queue == s.executed + [queue[0]] + queue[1..];
    }
  }

  // ----- the reference: which commands reach the handler, by position in the stream

  predicate Closer(c: Command) { KindOf(c).Exec? || KindOf(c).Discard? || KindOf(c).Quit? }

  /** m is the MULTI whose transaction is in force just before position i: nothing has closed it,
      and it was not itself issued inside an open one. */
  ghost predicate InForce(commands: seq<Command>, m: nat, i: nat)
    requires i <= |commands|
  {
    m < i && KindOf(commands[m]).Multi?
    && (forall j :: m < j < i ==> !Closer(commands[j]))
    && (forall k: nat :: k < m && KindOf(commands[k]).Multi? ==> exists j :: k < j < m && Closer(commands[j]))
  }

  function PlainOf(commands: seq<Command>): seq<Command> {
    if commands == [] then []
    else
      var n := |commands| - 1;
      PlainOf(commands[..n]) + if KindOf(commands[n]).Plain? then [commands[n]] else []
  }

  function Capped(commands: seq<Command>): (r: seq<Command>)
    ensures |r| <= MAX_QUEUED_COMMANDS
  {
    if |commands| <= MAX_QUEUED_COMMANDS then commands else commands[..MAX_QUEUED_COMMANDS]
  }

  /** The commands position i sends to the handler: itself if it stands outside every transaction,
      the plain commands queued since its MULTI if it is an EXEC, none otherwise. */
  ghost function Sends(commands: seq<Command>, i: nat): seq<Command>
    requires i < |commands|
  {
    if exists m: nat :: InForce(commands, m, i) then
      var m: nat :| InForce(commands, m, i);
      if KindOf(commands[i]).Exec? then Capped(PlainOf(commands[m + 1..i])) else []
    else if KindOf(commands[i]).Plain? then [commands[i]] else []
  }

  ghost function Expected(commands: seq<Command>, n: nat): seq<Command>
    requires n <= |commands|
  {
    if n == 0 then [] else Expected(commands, n - 1) + Sends(commands, n - 1)
  }

  lemma InForceUnique(commands: seq<Command>, m: nat, k: nat, i: nat)
    requires i <= |commands| && InForce(commands, m, i) && InForce(commands, k, i)
    ensures m == k
  {
    hide Closer, KindOf;
  }

  /** How the transaction in force changes over one position. */
  lemma InForceNext(commands: seq<Command>, m: nat, i: nat)
    requires i < |commands|
    ensures InForce(commands, m, i + 1) <==>
              (m < i && InForce(commands, m, i) && !Closer(commands[i]))
              || (m == i && KindOf(commands[i]).Multi? && !exists k: nat :: InForce(commands, k, i))
  {
    if m == i && KindOf(commands[i]).Multi? {
      if exists k: nat :: InForce(commands, k, i) {
        var k: nat :| InForce(commands, k, i);
        assert !exists j :: k < j < i && Closer(commands[j]);
      } else {
        forall k: nat | k < i && KindOf(commands[k]).Multi?
          ensures exists j :: k < j < i && Closer(commands[j])
        {
          EarliestOpen(commands, k, i);
        }
      }
    }
  }

  /** If a MULTI before i has not been closed, some transaction is in force at i. */
  lemma {:induction false} EarliestOpen(commands: seq<Command>, k: nat, i: nat)
    requires k < i <= |commands| && KindOf(commands[k]).Multi?
    ensures (exists j :: k < j < i && Closer(commands[j])) || (exists m: nat :: InForce(commands, m, i))
    decreases k
  {
    if !(exists j :: k < j < i && Closer(commands[j])) && !InForce(commands, k, i) {
      var e: nat :| e < k && KindOf(commands[e]).Multi? && !exists j :: e < j < k && Closer(commands[j]);
      EarliestOpen(commands, e, i);
    }
  }

  /** What a session must look like after the first n commands of a stream, when the handler had seen
      `before` at its start. */
  ghost predicate Tracks(commands: seq<Command>, n: nat, s: Session, before: seq<Command>)
    requires n <= |commands|
  {
    s.executed == before + Expected(commands, n)
    && (s.open <==> exists m: nat :: InForce(commands, m, n))
    && (forall m: nat :: InForce(commands, m, n) ==> s.queue == Capped(PlainOf(commands[m + 1..n])))
    && (!s.open ==> s.queue == [])
  }

  lemma CappedSnoc(a: seq<Command>, c: Command)
    ensures Capped(a + [c]) == if |Capped(a)| >= MAX_QUEUED_COMMANDS then Capped(a) else Capped(a) + [c]
  {
  }

  /** One command's effect on the transaction, read off by the kind of the command. */
  lemma DispatchEffect(h: Handler, locked: bool, s: Session, c: Command)
    requires (locked ==> s.authenticated) && (!s.open ==> s.queue == [])
    ensures var t := Dispatch(h, locked, s, c);
            && t.executed == s.executed + (if s.open && KindOf(c).Exec? then s.queue
                                           else if !s.open && KindOf(c).Plain? then [c] else [])
            && (t.open <==> !Closer(c) && (s.open || KindOf(c).Multi?))
            && t.queue == (if !t.open || !s.open then []
                           else if KindOf(c).Plain? && |s.queue| < MAX_QUEUED_COMMANDS then s.queue + [c]
                           else s.queue)
            && (locked ==> t.authenticated)
  {
    hide KindOf, Wire;
    HandleAllEffect(h, Announce(s), s.queue);
    assert s.executed + [] == s.executed;
  }

  lemma TracksStep(h: Handler, locked: bool, commands: seq<Command>, n: nat, s: Session, before: seq<Command>)
    requires n < |commands| && Tracks(commands, n, s, before)
    requires locked ==> s.authenticated
    ensures Tracks(commands, n + 1, Dispatch(h, locked, s, commands[n]), before)
    ensures locked ==> Dispatch(h, locked, s, commands[n]).authenticated
  {
    hide KindOf, PlainOf, Capped, Dispatch, InForce, Closer, Expected;
    var c := commands[n];
    var t := Dispatch(h, locked, s, c);
    DispatchEffect(h, locked, s, c);
    ExpectedNext(commands, n, s.open, s.queue);
    CloserKind(c);
    assert before + (Expected(commands, n) + Sends(commands, n)) == before + Expected(commands, n) + Sends(commands, n);
    if s.open {
      var m: nat :| InForce(commands, m, n);
      InForceBefore(commands, m, n);
      InForceKept(commands, m, n, n + 1);
      QueueStep(commands, m, n);
    } else {
      InForceOpened(commands, n, n + 1);
      QueueStart(commands, n);
    }
  }

  /** The transaction in force stays so until it is closed. */
  lemma InForceKept(commands: seq<Command>, m: nat, n: nat, next: nat)
    requires n < |commands| && next == n + 1 && InForce(commands, m, n)
    ensures InForce(commands, m, next) <==> !Closer(commands[n])
    ensures forall k: nat :: InForce(commands, k, next) ==> k == m
    ensures forall k: nat :: InForce(commands, k, n) ==> k == m
  {
    hide InForce, Closer, KindOf;
    InForceBefore(commands, m, n);
    forall k: nat | InForce(commands, k, n) ensures k == m { InForceUnique(commands, m, k, n); }
    InForceNext(commands, m, n);
    forall k: nat | InForce(commands, k, next) ensures k == m { InForceNext(commands, k, n); }
  }

  /** Where none is in force a MULTI begins one. */
  lemma InForceOpened(commands: seq<Command>, n: nat, next: nat)
    requires n < |commands| && next == n + 1 && !exists m: nat :: InForce(commands, m, n)
    ensures InForce(commands, n, next) <==> KindOf(commands[n]).Multi?
    ensures forall k: nat :: InForce(commands, k, next) ==> k == n
  {
    hide InForce, Closer, KindOf;
    InForceNext(commands, n, n);
    forall k: nat | InForce(commands, k, next) ensures k == n {
      InForceNext(commands, k, n);
      assert !InForce(commands, k, n);
    }
  }

  lemma InForceBefore(commands: seq<Command>, m: nat, i: nat)
    requires i <= |commands|
    ensures InForce(commands, m, i) ==> m < i
  {
  }

  lemma CloserKind(c: Command)
    ensures Closer(c) ==> !KindOf(c).Plain? && !KindOf(c).Multi?
  {
    hide KindOf;
  }

  /** What position n sends to the handler, told from the session. */
  lemma ExpectedNext(commands: seq<Command>, n: nat, open: bool, queue: seq<Command>)
    requires n < |commands| && (open <==> exists m: nat :: InForce(commands, m, n))
    requires forall m: nat :: InForce(commands, m, n) ==> queue == Capped(PlainOf(commands[m + 1..n]))
    ensures Expected(commands, n + 1) == Expected(commands, n) + Sends(commands, n)
    ensures Sends(commands, n) == if open && KindOf(commands[n]).Exec? then queue
                                  else if !open && KindOf(commands[n]).Plain? then [commands[n]] else []
  {
    hide KindOf, PlainOf, Capped, InForce;
    if open {
      var m: nat :| InForce(commands, m, n);
      InForceBefore(commands, m, n);
    }
  }

  lemma QueueStep(commands: seq<Command>, m: nat, n: nat)
    requires m < n < |commands|
    ensures Capped(PlainOf(commands[m + 1..n + 1]))
         == (var q := Capped(PlainOf(commands[m + 1..n]));
             if KindOf(commands[n]).Plain? && |q| < MAX_QUEUED_COMMANDS then q + [commands[n]] else q)
  {
    var w := commands[m + 1..n + 1];
    assert w[..|w| - 1] == commands[m + 1..n] && w[|w| - 1] == commands[n];
    CappedSnoc(PlainOf(commands[m + 1..n]), commands[n]);
    assert PlainOf(commands[m + 1..n]) + [] == PlainOf(commands[m + 1..n]);
  }

  lemma QueueStart(commands: seq<Command>, n: nat)
    requires n < |commands|
    ensures Capped(PlainOf(commands[n + 1..n + 1])) == []
  {
  }

  function Fresh(authenticated: bool): Session {
    Session(false, [], [], false, false, authenticated, [])
  }

  /** The commands of a client that has yet to give the password which reach the handler. */
  function Gated(commands: seq<Command>): seq<Command> {
    if commands == [] then []
    else
      var n := |commands| - 1;
      Gated(commands[..n]) + if Passes(commands[n]) then [commands[n]] else []
  }

  lemma GatedStep(h: Handler, s: Session, c: Command)
    requires !s.authenticated && !s.open && s.queue == []
    ensures var t := Dispatch(h, true, s, c);
            t.executed == s.executed + (if Passes(c) then [c] else []) && !t.open && t.queue == []
  {
    hide Wire;
    if Passes(c) { PassesPlain(c); }
    assert s.executed + [] == s.executed;
  }

  lemma PassesPlain(c: Command)
    requires Passes(c)
    ensures KindOf(c) == Plain
  {
    assert Text("AUTH") != Text("QUIT") by { assert Text("AUTH")[0] != Text("QUIT")[0]; }
    assert Text("AUTH") != Text("EXEC") by { assert Text("AUTH")[0] != Text("EXEC")[0]; }
    assert |Text("AUTH")| != |Text("MULTI")| && |Text("AUTH")| != |Text("DISCARD")|;
    assert Text("HELLO") != Text("MULTI") by { assert Text("HELLO")[0] != Text("MULTI")[0]; }
    assert |Text("HELLO")| != |Text("QUIT")| && |Text("HELLO")| != |Text("EXEC")| && |Text("HELLO")| != |Text("DISCARD")|;
  }

  lemma TracksStart(commands: seq<Command>, s: Session)
    requires !s.open && s.queue == []
    ensures Tracks(commands, 0, s, s.executed)
  {
    assert s.executed + [] == s.executed;
  }

  /** Over any run of any client: until the password has been given, which takes the first g commands,
      the handler sees just the AUTH and HELLO among them. From there on it sees exactly the commands
      issued outside transactions and, at each EXEC, the plain commands queued since its MULTI in their
      order (at most 32768); discarded ones are never run, and the queue is empty outside a
      transaction. */
  lemma {:induction false} RunReachesHandler(h: Handler, locked: bool, commands: seq<Command>, authenticated: bool, n: nat)
    returns (g: nat)
    requires n <= |commands|
    ensures g <= n && (!locked || authenticated ==> g == 0)
    ensures forall i :: 0 <= i < g ==> !Run(h, locked, Fresh(authenticated), commands[..i]).authenticated
    ensures locked && g < n ==> Run(h, locked, Fresh(authenticated), commands[..g]).authenticated
    ensures var s := Run(h, locked, Fresh(authenticated), commands[..n]);
            Tracks(commands[g..], n - g, s, Gated(commands[..g])) && |s.queue| <= MAX_QUEUED_COMMANDS
            && (locked && g < n ==> s.authenticated)
    decreases n
  {
    hide Dispatch, KindOf, Passes, Run, Tracks, Gated;
    if n == 0 {
      g := 0;
      RunNothing(h, locked, Fresh(authenticated));
      assert commands[..0] == [];
      NothingGated();
      TracksStart(commands[0..], Fresh(authenticated));
    } else {
      g := RunReachesHandler(h, locked, commands, authenticated, n - 1);
      var w := commands[..n];
      RunSnoc(h, locked, Fresh(authenticated), w);
      assert w[..n - 1] == commands[..n - 1] && w[n - 1] == commands[n - 1];
      var s := Run(h, locked, Fresh(authenticated), commands[..n - 1]);
      if n == 1 {
        RunNothing(h, locked, Fresh(authenticated));
        assert commands[..0] == [];
      }
      if locked && !s.authenticated {
        assert g == n - 1;
        NothingInForce(commands[g..], s, Gated(commands[..g]));
        GatedStep(h, s, commands[n - 1]);
        GatedSnoc(w);
        g := n;
        TracksStart(commands[g..], Run(h, locked, Fresh(authenticated), w));
      } else {
        assert commands[g..][n - 1 - g] == commands[n - 1];
        TracksStep(h, locked, commands[g..], n - 1 - g, s, Gated(commands[..g]));
      }
    }
    QueueCapped(commands[g..], n - g, Run(h, locked, Fresh(authenticated), commands[..n]), Gated(commands[..g]));
  }

  lemma NothingGated()
    ensures Gated([]) == []
  {
  }

  lemma GatedSnoc(commands: seq<Command>)
    requires commands != []
    ensures var n := |commands| - 1; Gated(commands) == Gated(commands[..n]) + if Passes(commands[n]) then [commands[n]] else []
  {
  }

  lemma QueueCapped(commands: seq<Command>, n: nat, s: Session, before: seq<Command>)
    requires n <= |commands| && Tracks(commands, n, s, before)
    ensures |s.queue| <= MAX_QUEUED_COMMANDS
  {
    hide InForce;
    if s.open { var m: nat :| InForce(commands, m, n); InForceBefore(commands, m, n); }
  }

  lemma RunNothing(h: Handler, locked: bool, s: Session)
    ensures Run(h, locked, s, []) == s
  {
  }

  lemma NothingInForce(commands: seq<Command>, s: Session, before: seq<Command>)
    requires Tracks(commands, 0, s, before)
    ensures !s.open && s.queue == [] && s.executed == before
  {
  }

  // ----- what a transaction sends, byte by byte

  function Times(text: Str, n: nat): Str { if n == 0 then [] else Times(text, n - 1) + text }

  /** The replies of the handler to its calls from `first` on, n of them. */
  function RepliesFrom(h: Handler, first: nat, n: nat): Str {
    if n == 0 then [] else RepliesFrom(h, first, n - 1) + AnswerOf(h, first + n - 1).reply
  }

  predicate AllPlain(q: seq<Command>) { forall i :: 0 <= i < |q| ==> KindOf(q[i]).Plain? }

  predicate Admitted(locked: bool, s: Session) { locked ==> s.authenticated }

  const MULTI: Command := [Text("MULTI")]
  const EXEC: Command := [Text("EXEC")]
  const DISCARD: Command := [Text("DISCARD")]
  const QUIT: Command := [Text("QUIT")]

  lemma WordKinds()
    ensures KindOf(MULTI) == Multi && KindOf(EXEC) == Exec && KindOf(DISCARD) == Discard && KindOf(QUIT) == Quit
  {
    var m, e, d, q := Text("MULTI"), Text("EXEC"), Text("DISCARD"), Text("QUIT");
    assert UpperAll(m) == m && UpperAll(e) == e && UpperAll(d) == d && UpperAll(q) == q;
    assert |m| == 5 && |e| == 4 && |d| == 7 && |q| == 4 && e[0] == 69 && q[0] == 81;
  }

  lemma OpenStep(h: Handler, locked: bool, s: Session)
    requires Admitted(locked, s) && !s.open
    ensures Dispatch(h, locked, s, MULTI) == s.(open := true, queue := [], output := s.output + Text("+OK\r\n"))
  {
    hide KindOf, Text;
    WordKinds();
  }

  lemma QueueOne(h: Handler, locked: bool, s: Session, c: Command)
    requires Admitted(locked, s) && s.open && |s.queue| < 32768 && KindOf(c).Plain?
    ensures Dispatch(h, locked, s, c) == s.(queue := s.queue + [c], output := s.output + Text("+QUEUED\r\n"))
  {
    hide KindOf, Text;
  }

  lemma {:induction false} Queued32768(h: Handler, locked: bool, s: Session, q: seq<Command>)
    requires Admitted(locked, s) && s.open && |s.queue| + |q| <= 32768 && AllPlain(q)
    ensures Run(h, locked, s, q) == s.(queue := s.queue + q, output := s.output + Times(Text("+QUEUED\r\n"), |q|))
    decreases |q|
  {
    hide KindOf, Dispatch, Text, Run;
    if q == [] {
      RunNothing(h, locked, s);
      assert s.queue + [] == s.queue && s.output + [] == s.output;
    } else {
      var n := |q| - 1;
      Queued32768(h, locked, s, q[..n]);
      RunSnoc(h, locked, s, q);
      var t := Run(h, locked, s, q[..n]);
      QueueOne(h, locked, t, q[n]);
      assert s.queue + q[..n] + [q[n]] == s.queue + q;
      assert s.output + Times(Text("+QUEUED\r\n"), n) + Text("+QUEUED\r\n")
          == s.output + (Times(Text("+QUEUED\r\n"), n) + Text("+QUEUED\r\n"));
    }
  }

  lemma {:induction false} HandleAllSnoc(h: Handler, s: Session, q: seq<Command>, c: Command)
    ensures HandleAll(h, s, q + [c]) == Handle(h, HandleAll(h, s, q), c)
    decreases |q|
  {
    hide Handle;
    if q == [] {
      assert q + [c] == [c] && [c][1..] == [];
      assert HandleAll(h, Handle(h, s, c), []) == Handle(h, s, c);
    } else {
      assert (q + [c])[0] == q[0] && (q + [c])[1..] == q[1..] + [c];
      HandleAllSnoc(h, Handle(h, s, q[0]), q[1..], c);
    }
  }

  lemma {:induction false} HandleAllReplies(h: Handler, s: Session, q: seq<Command>)
    ensures HandleAll(h, s, q).output == s.output + RepliesFrom(h, |s.executed|, |q|)
    decreases |q|
  {
    if q == [] {
      assert s.output + [] == s.output;
    } else {
      var n := |q| - 1;
      HandleAllReplies(h, s, q[..n]);
      HandleAllEffect(h, s, q[..n]);
      HandleAllSnoc(h, s, q[..n], q[n]);
      assert q[..n] + [q[n]] == q;
      assert s.output + RepliesFrom(h, |s.executed|, n) + AnswerOf(h, |s.executed| + n).reply
          == s.output + (RepliesFrom(h, |s.executed|, n) + AnswerOf(h, |s.executed| + n).reply);
    }
  }

  lemma ExecStep(h: Handler, locked: bool, s: Session)
    requires Admitted(locked, s) && s.open
    ensures var t := Dispatch(h, locked, s, EXEC);
            t.output == s.output + ([42] + Digits(|s.queue|) + [13, 10]) + RepliesFrom(h, |s.executed|, |s.queue|)
            && t.executed == s.executed + s.queue && !t.open && t.queue == []
  {
    hide KindOf, Text, Digits, HandleAll;
    WordKinds();
    HandleAllReplies(h, Announce(s), s.queue);
    HandleAllEffect(h, Announce(s), s.queue);
  }

  lemma DiscardStep(h: Handler, locked: bool, s: Session)
    requires Admitted(locked, s) && s.open
    ensures Dispatch(h, locked, s, DISCARD) == s.(open := false, queue := [], output := s.output + Text("+OK\r\n"))
  {
    hide KindOf, Text;
    WordKinds();
  }

  /** MULTI, up to 32768 commands and EXEC: one +OK, as many +QUEUED, the header of an array of as many
      replies, and those replies of the handler, in order. */
  lemma TransactionSends(h: Handler, locked: bool, s: Session, q: seq<Command>)
    requires Admitted(locked, s) && !s.open && AllPlain(q) && |q| <= 32768
    ensures var t := Run(h, locked, s, [MULTI] + q + [EXEC]);
            t.output == s.output + Text("+OK\r\n") + Times(Text("+QUEUED\r\n"), |q|)
                        + ([42] + Digits(|q|) + [13, 10]) + RepliesFrom(h, |s.executed|, |q|)
            && t.executed == s.executed + q && !t.open && t.queue == []
  {
    hide Dispatch, Text, Digits, Run, Times, RepliesFrom, AllPlain;
    var a, b := OpenedThen(h, locked, s, q, EXEC);
    ExecStep(h, locked, b);
  }

  /** MULTI, commands and DISCARD: nothing is executed. */
  lemma DiscardSends(h: Handler, locked: bool, s: Session, q: seq<Command>)
    requires Admitted(locked, s) && !s.open && AllPlain(q) && |q| <= 32768
    ensures Run(h, locked, s, [MULTI] + q + [DISCARD])
         == s.(queue := [], output := s.output + Text("+OK\r\n") + Times(Text("+QUEUED\r\n"), |q|) + Text("+OK\r\n"))
  {
    hide Dispatch, Text, Run, Times, AllPlain;
    var a, b := OpenedThen(h, locked, s, q, DISCARD);
    DiscardStep(h, locked, b);
  }

  lemma OpenedThen(h: Handler, locked: bool, s: Session, q: seq<Command>, last: Command) returns (a: Session, b: Session)
    requires Admitted(locked, s) && !s.open && AllPlain(q) && |q| <= 32768
    ensures a == s.(open := true, queue := [], output := s.output + Text("+OK\r\n"))
    ensures b == a.(queue := q, output := a.output + Times(Text("+QUEUED\r\n"), |q|))
    ensures Run(h, locked, s, [MULTI] + q + [last]) == Dispatch(h, locked, b, last)
  {
    hide Dispatch, Text, Run, Times, AllPlain;
    OpenStep(h, locked, s);
    a := Dispatch(h, locked, s, MULTI);
    Queued32768(h, locked, a, q);
    b := Run(h, locked, a, q);
    assert [] + q == q;
    RunConcat(h, locked, s, [MULTI] + q, [last]);
    RunConcat(h, locked, s, [MULTI], q);
    RunSingle(h, locked, s, MULTI);
    RunSingle(h, locked, b, last);
  }

  lemma RunSingle(h: Handler, locked: bool, s: Session, c: Command)
    ensures Run(h, locked, s, [c]) == Dispatch(h, locked, s, c)
  {
    hide Dispatch;
    assert [c][1..] == [];
    assert Run(h, locked, Dispatch(h, locked, s, c), []) == Dispatch(h, locked, s, c);
  }

  /** Which commands are plain: all but the empty one, QUIT, MULTI, DISCARD and EXEC. */
  lemma PlainIff(c: Command)
    ensures KindOf(c).Plain?
            <==> c != [] && UpperAll(c[0]) !in {Text("QUIT"), Text("MULTI"), Text("DISCARD"), Text("EXEC")}
  {
    hide Text, UpperAll;
  }

  /** Before the password is given: AUTH and HELLO reach the handler, every other command but QUIT is
      refused. */
  lemma PasswordGate(h: Handler, s: Session, c: Command)
    requires !s.authenticated && !s.open && s.queue == [] && c != []
    ensures UpperAll(c[0]) in {Text("AUTH"), Text("HELLO")} ==> Dispatch(h, true, s, c).executed == s.executed + [c]
    ensures UpperAll(c[0]) !in {Text("QUIT"), Text("AUTH"), Text("HELLO")} ==>
              Dispatch(h, true, s, c) == s.(output := s.output + Text("-ERR NOAUTH Authentication required.\r\n"))
  {
    hide Text, UpperAll, KindOf;
    PassesIff(c);
    QuitIff(c);
    EmptyKind(c);
    GatedStep(h, s, c);
  }

  lemma PassesIff(c: Command)
    requires c != []
    ensures Passes(c) <==> UpperAll(c[0]) in {Text("AUTH"), Text("HELLO")}
  {
    hide Text, UpperAll;
  }

  lemma QuitIff(c: Command)
    requires c != []
    ensures KindOf(c).Quit? <==> UpperAll(c[0]) == Text("QUIT")
  {
    hide Text, UpperAll;
  }

  /** What the connection answers by itself, in its words, without calling the handler: to an empty
      command and to QUIT, always, and to all others but AUTH and HELLO before the password is given; */
  lemma GateAnswers(h: Handler, locked: bool, s: Session, c: Command)
    ensures Dispatch(h, locked, s, []) == s.(output := s.output + Text("-ERR empty command\r\n"))
    ensures Dispatch(h, locked, s, QUIT)
         == s.(output := s.output + Text("+OK\r\n"), closing := true, open := false, queue := [])
    ensures locked && !s.authenticated && c != [] && !Passes(c) && !KindOf(c).Quit? ==>
              Dispatch(h, locked, s, c) == s.(output := s.output + Text("-ERR NOAUTH Authentication required.\r\n"))
  {
    WordKinds();
    hide Text, Passes, Named;
    EmptyKind(c);
  }

  lemma EmptyKind(c: Command)
    ensures KindOf([]) == Empty && (KindOf(c).Empty? <==> c == [])
  {
    hide Named;
  }

  /** to transaction commands out of place; */
  lemma MisplacedAnswers(h: Handler, locked: bool, s: Session, c: Command)
    requires Admitted(locked, s)
    ensures !s.open ==>
              Dispatch(h, locked, s, EXEC) == s.(output := s.output + Text("-ERR EXEC without MULTI\r\n"))
              && Dispatch(h, locked, s, DISCARD) == s.(output := s.output + Text("-ERR DISCARD without MULTI\r\n"))
    ensures s.open ==>
              Dispatch(h, locked, s, MULTI) == s.(output := s.output + Text("-ERR MULTI calls can not be nested\r\n"))
    ensures s.open && |s.queue| >= 32768 && KindOf(c).Plain? ==>
              Dispatch(h, locked, s, c) == s.(output := s.output + Text("-ERR transaction queue limit reached\r\n"))
  {
    WordKinds();
    hide Text, KindOf;
  }

  /** and to transaction commands with arguments. */
  lemma ArityAnswers(h: Handler, locked: bool, s: Session, c: Command)
    requires Admitted(locked, s) && |c| > 1
    ensures UpperAll(c[0]) == Text("MULTI") ==>
              Dispatch(h, locked, s, c) == s.(output := s.output + Text("-ERR wrong number of arguments for 'multi' command\r\n"))
    ensures UpperAll(c[0]) == Text("DISCARD") ==>
              Dispatch(h, locked, s, c) == s.(output := s.output + Text("-ERR wrong number of arguments for 'discard' command\r\n"))
    ensures UpperAll(c[0]) == Text("EXEC") ==>
              Dispatch(h, locked, s, c) == s.(output := s.output + Text("-ERR wrong number of arguments for 'exec' command\r\n"))
  {
    DifferentWords();
    hide Text, UpperAll;
    ArityKinds(c);
    hide KindOf;
  }

  lemma ArityKinds(c: Command)
    requires |c| > 1
    ensures UpperAll(c[0]) == Text("MULTI") ==> KindOf(c) == Misused(MultiArity)
    ensures UpperAll(c[0]) == Text("DISCARD") ==> KindOf(c) == Misused(DiscardArity)
    ensures UpperAll(c[0]) == Text("EXEC") ==> KindOf(c) == Misused(ExecArity)
  {
    DifferentWords();
    hide Text, UpperAll;
  }

  lemma DifferentWords()
    ensures Text("QUIT") != Text("MULTI") && Text("QUIT") != Text("DISCARD") && Text("QUIT") != Text("EXEC")
    ensures Text("MULTI") != Text("DISCARD") && Text("MULTI") != Text("EXEC") && Text("DISCARD") != Text("EXEC")
  {
    assert |Text("QUIT")| == 4 && |Text("MULTI")| == 5 && |Text("DISCARD")| == 7 && |Text("EXEC")| == 4;
    assert Text("QUIT")[0] == 81 && Text("EXEC")[0] == 69;
  }

  // ----- the read loop

  /** The parse loop of handle_read over the unread bytes. */
  function Serve(h: Handler, locked: bool, s: Session, unread: Str): (Session, Str)
    decreases |unread|
  {
    if unread == [] || s.blocked then (s, unread)
    else match ParseCommand(unread)
      case Incomplete => (s, unread)
      case Error => (Say(s, ProtocolError).(closing := true), unread)
      case Success(args, n) =>
        var t := Dispatch(h, locked, s, args);
        if t.closing || t.blocked then (t, unread[n..]) else Serve(h, locked, t, unread[n..])
  }

  /** The turns of the loop, as equations. */
  lemma ServeTurn(h: Handler, locked: bool, s: Session, unread: Str)
    ensures unread == [] || s.blocked ==> Serve(h, locked, s, unread) == (s, unread)
    ensures unread != [] && !s.blocked && ParseCommand(unread).Incomplete? ==> Serve(h, locked, s, unread) == (s, unread)
    ensures unread != [] && !s.blocked && ParseCommand(unread).Error? ==>
              Serve(h, locked, s, unread) == (Say(s, ProtocolError).(closing := true), unread)
    ensures unread != [] && !s.blocked && ParseCommand(unread).Success? ==>
              var p := ParseCommand(unread);
              var t := Dispatch(h, locked, s, p.args);
              Serve(h, locked, s, unread)
              == if t.closing || t.blocked then (t, unread[p.consumed..]) else Serve(h, locked, t, unread[p.consumed..])
  {
  }

  /** A refused command is answered once and closes the connection; QUIT closes it and leaves what follows
      unread; a blocked connection reads nothing. */
  lemma ServeStops(h: Handler, locked: bool, s: Session, unread: Str)
    requires !s.blocked && unread != []
    ensures ParseCommand(unread).Error? ==>
              Serve(h, locked, s, unread) == (s.(output := s.output + Text("-ERR Protocol error\r\n"), closing := true), unread)
    ensures Serve(h, locked, s, Print(QUIT) + unread)
         == (s.(output := s.output + Text("+OK\r\n"), closing := true, open := false, queue := []), unread)
    ensures Serve(h, locked, s.(blocked := true), unread) == (s.(blocked := true), unread)
  {
    hide ParseCommand, Dispatch, Print, Serve, Text;
    ServeTurn(h, locked, s, unread);
    ServeTurn(h, locked, s.(blocked := true), unread);
    var b := Print(QUIT) + unread;
    QuitSized();
    PrintParse(QUIT, unread);
    ServeTurn(h, locked, s, b);
    GateAnswers(h, locked, s, QUIT);
    assert b[|Print(QUIT)|..] == unread;
  }

  lemma QuitSized()
    ensures Sized(QUIT)
  {
  }

  /** No command of the stream ends or suspends the connection. */
  ghost predicate Quiet(h: Handler, commands: seq<Command>) {
    (forall o :: o in h ==> !o.close && !o.block)
    && (forall c :: c in commands ==> !KindOf(c).Quit?)
  }

  lemma {:induction false} HandleAllQuiet(h: Handler, s: Session, queue: seq<Command>)
    requires forall o :: o in h ==> !o.close && !o.block
    ensures HandleAll(h, s, queue).closing == s.closing
    decreases |queue|
  {
    if queue != [] { HandleAllQuiet(h, Handle(h, s, queue[0]), queue[1..]); }
  }

  lemma DispatchQuiet(h: Handler, locked: bool, s: Session, c: Command)
    requires forall o :: o in h ==> !o.close && !o.block
    requires !KindOf(c).Quit? && !s.blocked
    ensures Dispatch(h, locked, s, c).closing == s.closing && !Dispatch(h, locked, s, c).blocked
  {
    hide KindOf;
    HandleAllEffect(h, Announce(s), s.queue);
    HandleAllQuiet(h, Announce(s), s.queue);
  }

  /** One pass of the loop dispatches exactly what the unread bytes drain to. */
  lemma {:induction false} ServeIsRun(h: Handler, locked: bool, s: Session, unread: Str)
    requires Quiet(h, Drain(unread).commands) && !s.closing && !s.blocked
    ensures var d := Drain(unread);
            var t := Run(h, locked, s, d.commands);
            !t.closing && !t.blocked
            && Serve(h, locked, s, unread)
            == (if d.refused then Say(t, ProtocolError).(closing := true) else t, d.rest)
    decreases |unread|
  {
    hide ParseArray, ParseInline, Dispatch, KindOf;
    var p := ParseCommand(unread);
    if p.Success? {
      var rest := unread[p.consumed..];
      var more := Drain(rest).commands;
      assert Drain(unread).commands == [p.args] + more && ([p.args] + more)[1..] == more;
      assert p.args in Drain(unread).commands;
      DispatchQuiet(h, locked, s, p.args);
      ServeIsRun(h, locked, Dispatch(h, locked, s, p.args), rest);
    }
  }

  /** The read events of a connection: each appends what arrived and runs the loop. */
  function ServeAll(h: Handler, locked: bool, s: Session, unread: Str, arrivals: seq<Str>): (Session, Str)
    decreases |arrivals|
  {
    if arrivals == [] then (s, unread)
    else
      var (t, left) := Serve(h, locked, s, unread + arrivals[0]);
      ServeAll(h, locked, t, left, arrivals[1..])
  }

  /** However the bytes of a stream of array commands are cut into reads, the connection ends in the
      state, and with the output, of running the complete commands in order. */
  lemma {:induction false} FramingIndependent(h: Handler, locked: bool, s: Session, unread: Str, arrivals: seq<Str>)
    requires ArraysOnly(unread + Concat(arrivals)) && !Drain(unread + Concat(arrivals)).refused
    requires Quiet(h, Drain(unread + Concat(arrivals)).commands)
    requires ParseCommand(unread).Incomplete? && !s.closing && !s.blocked
    ensures var d := Drain(unread + Concat(arrivals));
            ServeAll(h, locked, s, unread, arrivals) == (Run(h, locked, s, d.commands), d.rest)
    decreases |arrivals|
  {
    hide ParseCommand, Dispatch, KindOf, Drain, ArraysOnly, Serve, Run, Quiet;
    if arrivals == [] {
      assert unread + Concat(arrivals) == unread;
      NothingDrained(unread);
      RunNothing(h, locked, s);
    } else {
      var b, ext := unread + arrivals[0], Concat(arrivals[1..]);
      assert unread + Concat(arrivals) == b + ext;
      DrainAppend(b, ext);
      DrainRestStuck(b);
      var d := Drain(b);
      var more := Drain(d.rest + ext).commands;
      QuietParts(h, d.commands, more);
      ServeIsRun(h, locked, s, b);
      FramingIndependent(h, locked, Run(h, locked, s, d.commands), d.rest, arrivals[1..]);
      RunConcat(h, locked, s, d.commands, more);
    }
  }

  lemma NothingDrained(unread: Str)
    requires ParseCommand(unread).Incomplete?
    ensures Drain(unread) == Drained([], unread, false)
  {
    hide ParseCommand;
  }

  lemma QuietParts(h: Handler, a: seq<Command>, b: seq<Command>)
    requires Quiet(h, a + b)
    ensures Quiet(h, a) && Quiet(h, b)
  {
    hide KindOf;
    assert forall c :: c in a || c in b ==> c in a + b;
  }

  /** The same for clients that send printed commands, the last one perhaps not yet complete. */
  lemma FramingOfPrinted(h: Handler, locked: bool, s: Session, commands: seq<Command>, last: Command, n: nat, arrivals: seq<Str>)
    requires forall i :: 0 <= i < |commands| ==> Sized(commands[i])
    requires Sized(last) && n < |Print(last)|
    requires Concat(arrivals) == PrintAll(commands) + Print(last)[..n]
    requires Quiet(h, commands) && !s.closing && !s.blocked
    ensures ServeAll(h, locked, s, [], arrivals) == (Run(h, locked, s, commands), Print(last)[..n])
  {
    DrainPrinted(commands, last, n);
    assert [] + Concat(arrivals) == Concat(arrivals);
    EmptyIncomplete();
    FramingIndependent(h, locked, s, [], arrivals);
  }

  lemma SplitJoin(sent: Str, batch: Str, n: nat)
    requires n <= |batch|
    ensures sent + batch[..n] + batch[n..] == sent + batch
    ensures n == |batch| ==> batch[n..] == []
  {
  }

  // ----- the connection object

  /** What the kernel answers to one send call. */
  datatype SendResult = Sent(count: nat) | Again | Interrupted | Failed

  class Connection {
    const handler: Handler
    const locked: bool
    var readBuf: Str
    var readOffset: nat
    var writeBuf: Str
    var writeOffset: nat
    var shouldClose: bool
    var isBlocked: bool
    var authenticated: bool
    var inTransaction: bool
    var transactionQueue: seq<Command>
    var calls: nat
    ghost var executed: seq<Command>
    ghost var output: Str
    ghost var sent: Str

    ghost predicate Valid()
      reads this
    {
      readOffset <= |readBuf| && writeOffset <= |writeBuf| && calls == |executed|
    }

    ghost function State(): Session
      reads this
    {
      Session(inTransaction, transactionQueue, executed, shouldClose, isBlocked, authenticated, output)
    }

    function Unread(): Str
      requires readOffset <= |readBuf|
      reads this
    {
      readBuf[readOffset..]
    }

    /** Every byte of output is either sent or still waiting, in order. */
    ghost predicate Conserved()
      requires writeOffset <= |writeBuf|
      reads this
    {
      sent + writeBuf[writeOffset..] == output
    }

    constructor (handler: Handler, locked: bool, authenticated: bool)
      ensures Valid() && Conserved() && State() == Fresh(authenticated) && Unread() == []
      ensures this.handler == handler && this.locked == locked
    {
      this.handler, this.locked, this.authenticated := handler, locked, authenticated;
      readBuf, readOffset, writeBuf, writeOffset := [], 0, [], 0;
      shouldClose, isBlocked, inTransaction, transactionQueue := false, false, false, [];
      calls, executed, output, sent := 0, [], [], [];
    }

    /** Hand one command to the handler; replies gather in the batch of the current read. */
    method CallHandler(c: Command, batch: Str) returns (out: Str, block: bool, ghost reply: Str)
      requires Valid()
      modifies this`calls, this`executed, this`output, this`shouldClose, this`authenticated
      ensures Valid() && State() == Handle(handler, old(State()), c)
      ensures block == AnswerOf(handler, |old(executed)|).block
      ensures out == batch + reply && output == old(output) + reply
    {
      var o := AnswerOf(handler, calls);
      reply := o.reply;
      out := batch + o.reply;
      calls := calls + 1;
      executed := executed + [c];
      output := output + o.reply;
      shouldClose := shouldClose || o.close;
      authenticated := authenticated || o.grant;
      block := o.block;
    }

    /** dispatch_connection_command, event_loop.hpp. */
    method DispatchConnectionCommand(args: Command, batch: Str) returns (out: Str, ghost reply: Str)
      requires Valid()
      modifies this`calls, this`executed, this`output, this`shouldClose, this`authenticated,
               this`isBlocked, this`inTransaction, this`transactionQueue
      ensures Valid() && State() == Dispatch(handler, locked, old(State()), args)
      ensures out == batch + reply && output == old(output) + reply
    {
      hide KindOf, Wire, Named, HandleAll;
      var answer: Str := [];
      var kind := KindOf(args);
      if kind.Empty? {
        answer := Wire(EmptyCommand);
      } else if kind.Quit? {
        answer := Wire(Ok);
        shouldClose, inTransaction, transactionQueue := true, false, [];
      } else if locked && !authenticated && !Named(args, "AUTH") && !Named(args, "HELLO") {
        answer := Wire(NoAuth);
      } else if kind.Misused? {
        answer := Wire(kind.notice);
      } else if kind.Multi? {
        if inTransaction {
          answer := Wire(NestedMulti);
        } else {
          inTransaction, transactionQueue := true, [];
          answer := Wire(Ok);
        }
      } else if kind.Discard? {
        if inTransaction {
          inTransaction, transactionQueue := false, [];
          answer := Wire(Ok);
        } else {
          answer := Wire(DiscardAlone);
        }
      } else if kind.Exec? {
        if inTransaction {
          out, reply := ExecQueue(batch);
          return;
        } else {
          answer := Wire(ExecAlone);
        }
      } else if inTransaction {
        if |transactionQueue| >= MAX_QUEUED_COMMANDS {
          answer := Wire(QueueFull);
        } else {
          transactionQueue := transactionQueue + [args];
          answer := Wire(Queued);
        }
      } else {
        var block;
        out, block, reply := CallHandler(args, batch);
        isBlocked := block;
        return;
      }
      reply := answer;
      out := batch + answer;
      output := output + answer;
    }

    /** The EXEC branch: run the queue in order, then empty it. */
    method ExecQueue(batch: Str) returns (out: Str, ghost reply: Str)
      requires Valid() && inTransaction
      modifies this`calls, this`executed, this`output, this`shouldClose, this`authenticated,
               this`inTransaction, this`transactionQueue
      ensures Valid()
      ensures var s := old(State());
              State() == HandleAll(handler, Announce(s), s.queue).(queue := [])
      ensures out == batch + reply && output == old(output) + reply
    {
      hide ArrayHeader, Handle;
      var q := transactionQueue;
      inTransaction := false;
      reply := ArrayHeader(|q|);
      out := batch + ArrayHeader(|q|);
      output := output + ArrayHeader(|q|);
      ghost var start := State();
      assert start == Announce(old(State()));
      var i := 0;
      assert q[0..] == q;
      while i < |q|
        invariant Valid() && 0 <= i <= |q|
        invariant HandleAll(handler, State(), q[i..]) == HandleAll(handler, start, q)
        invariant out == batch + reply && output == old(output) + reply
      {
        assert q[i..][1..] == q[i + 1..];
        var block;
        ghost var piece;
        out, block, piece := CallHandler(q[i], out);
        reply := reply + piece;
        i := i + 1;
      }
      HandleAllEffect(handler, start, q);
      transactionQueue := [];
    }

    /** Drop consumed bytes once nothing is left or enough has gathered. */
    method Compact()
      requires Valid()
      modifies this`readBuf, this`readOffset
      ensures Valid() && Unread() == old(Unread())
      ensures old(readOffset) >= |old(readBuf)| ==> readBuf == []
    {
      if readOffset > 0 {
        if readOffset >= |readBuf| {
          readBuf, readOffset := [], 0;
        } else if readOffset >= CLIENT_BUFFER_SIZE || |readBuf| > CLIENT_BUFFER_SIZE * 4 {
          readBuf, readOffset := readBuf[readOffset..], 0;
        }
      }
    }

    /** The parse loop of handle_read. */
    method ParseLoop() returns (batch: Str)
      requires Valid()
      modifies this`calls, this`executed, this`output, this`shouldClose, this`authenticated,
               this`isBlocked, this`inTransaction, this`transactionQueue, this`readOffset
      ensures Valid()
      ensures (State(), Unread()) == Serve(handler, locked, old(State()), old(Unread()))
      ensures output == old(output) + batch
    {
      hide ParseCommand, Dispatch, Wire, Serve;
      ghost var target := Serve(handler, locked, State(), Unread());
      batch := [];
      while true
        invariant Valid() && Serve(handler, locked, State(), Unread()) == target
        invariant output == old(output) + batch
        decreases |readBuf| - readOffset
      {
        ServeTurn(handler, locked, State(), Unread());
        if readOffset >= |readBuf| || isBlocked { return; }
        var p := Parser(Unread());
        if p.Incomplete? { return; }
        if p.Error? {
          batch := batch + Wire(ProtocolError);
          output := output + Wire(ProtocolError);
          shouldClose := true;
          return;
        }
        assert Unread()[p.consumed..] == readBuf[readOffset + p.consumed..];
        readOffset := readOffset + p.consumed;
        ghost var piece;
        batch, piece := DispatchConnectionCommand(p.args, batch);
        if shouldClose || isBlocked { return; }
      }
    }

    /** The end of handle_read: append the batch to what already waits, or try to send it at once.
        `answer` is what the kernel says; output is lost exactly if it interrupts the call or
        accepts no byte (or the connection fails). */
    method SendBatch(batch: Str, answer: SendResult) returns (alive: bool)
      requires writeOffset <= |writeBuf| && sent + writeBuf[writeOffset..] + batch == output
      modifies this`writeBuf, this`writeOffset, this`sent
      ensures writeOffset <= |writeBuf|
      ensures old(writeBuf) != [] || batch == [] ==> alive && Conserved() && sent == old(sent)
      ensures old(writeBuf) == [] && batch != [] ==>
                alive == !answer.Failed?
                && (Conserved() <==> answer.Again? || (answer.Sent? && answer.count > 0))
    {
      alive := true;
      if batch != [] {
        if writeBuf != [] {
          assert (writeBuf + batch)[writeOffset..] == writeBuf[writeOffset..] + batch;
          writeBuf := writeBuf + batch;
        } else {
          match answer
          case Sent(count) =>
            var n := if count < |batch| then count else |batch|;
            if n > 0 {
              SplitJoin(sent, batch, n);
              sent := sent + batch[..n];
              if n < |batch| { writeBuf, writeOffset := batch[n..], 0; }
            }
          case Again => writeBuf, writeOffset := batch, 0;
          case Interrupted =>
          case Failed => alive := false;
        }
      }
      assert Conserved() || |sent + writeBuf[writeOffset..]| < |output|;
    }

    /** handle_read, event_loop.hpp, once the receive loop has collected `arrived`. Returns false
        when the connection is to be dropped. */
    method HandleRead(arrived: Str, answer: SendResult) returns (alive: bool)
      requires Valid() && Conserved()
      modifies this
      ensures Valid()
      ensures (State(), Unread()) == Serve(handler, locked, old(State()), old(Unread()) + arrived)
      ensures old(writeBuf) != [] || output == old(output) ==> alive && Conserved() && sent == old(sent)
      ensures old(writeBuf) == [] && output != old(output) ==>
                alive == !answer.Failed?
                && (Conserved() <==> answer.Again? || (answer.Sent? && answer.count > 0))
    {
      hide Serve;
      readBuf := readBuf + arrived;
      assert Unread() == old(Unread()) + arrived;
      var batch := ParseLoop();
      Compact();
      assert sent + writeBuf[writeOffset..] + batch == output;
      alive := SendBatch(batch, answer);
    }

    /** handle_write, event_loop.hpp. `answers` are the kernel's replies to the successive send
        calls; the kernel would block once they run out. */
    method HandleWrite(answers: seq<SendResult>) returns (alive: bool)
      requires Valid() && Conserved()
      modifies this`writeBuf, this`writeOffset, this`sent
      ensures Valid() && Conserved() && sent <= output
      ensures |sent| >= |old(sent)|
      ensures alive ==> writeBuf == [] || writeOffset < |writeBuf|
      ensures !alive ==> Failed in answers
    {
      if writeBuf == [] { return true; }
      var i := 0;
      while writeOffset < |writeBuf| && i < |answers|
        invariant Valid() && Conserved() && 0 <= i <= |answers| && writeBuf == old(writeBuf)
        invariant |sent| >= |old(sent)|
        decreases |answers| - i
      {
        var remaining := |writeBuf| - writeOffset;
        match answers[i] {
        case Sent(count) =>
          var n := if count < remaining then count else remaining;
          assert writeBuf[writeOffset..] == writeBuf[writeOffset..writeOffset + n] + writeBuf[writeOffset + n..];
          sent := sent + writeBuf[writeOffset..writeOffset + n];
          writeOffset := writeOffset + n;
        case Again => return true;
        case Interrupted =>
        case Failed => return false;
        }
        i := i + 1;
      }
      if writeOffset == |writeBuf| {
        writeBuf, writeOffset := [], 0;
      }
      alive := true;
    }

    /** One round of process_async_messages: replies delivered from other threads, which also wake
        a blocked client. */
    method ProcessAsync(pending: Str)
      requires Valid() && Conserved()
      modifies this`writeBuf, this`writeOffset, this`output, this`isBlocked
      ensures Valid() && Conserved()
      ensures output == old(output) + pending
      ensures isBlocked == (old(isBlocked) && pending == [])
      ensures pending == [] ==> writeBuf == old(writeBuf) && writeOffset == old(writeOffset)
    {
      if pending == [] { assert output + pending == output; return; }
      isBlocked := false;
      if writeBuf == [] {
        writeBuf, writeOffset := pending, 0;
      } else {
        assert (writeBuf + pending)[writeOffset..] == writeBuf[writeOffset..] + pending;
        writeBuf := writeBuf + pending;
      }
      output := output + pending;
    }
  }
}
