/** The double-buffered writer of aof.hpp and its background rewrite as a state machine over their
    critical sections, and the object whose methods are those sections. */
module AofLog {
  import opened Bytes
  import opened Resp
  import opened Stream

  /** A logged command with its place in the order of appends. */
  datatype Logged = Logged(stamp: nat, command: Command)

  /** `file` is what the log file holds behind its compacted part, which a rewrite puts there and which
      stands for the first `compacted` appends; `replaced` is what was in the files that rewrites have
      replaced. `between` says that the background thread has swapped the buffers and not yet written;
      `dumped` is the number of appends before the dump of a rewrite under way. `appended` is the history
      of all appends. */
  datatype Writer = Writer(
    replaced: seq<Logged>, compacted: nat, file: seq<Logged>, flushing: seq<Logged>, active: seq<Logged>,
    between: bool, open: bool, dumped: Option<nat>, appended: seq<Logged>)

  /** Critical sections: append (under the buffer lock), the two halves of the background loop,
      flush_sync (under both locks), closing or reopening the file, and the rewrite: its dump, giving it
      up, and its switch of files (under both locks), after which the new file is open or not. */
  datatype Step =
    | Append(command: Command)
    | Swap
    | Write
    | Flush
    | SetOpen(open: bool)
    | Snapshot
    | Abandon
    | Switch(reopened: bool)

  predicate Enabled(w: Writer, s: Step) {
    match s
    case Swap => !w.between
    case Write => w.between
    case Snapshot => w.dumped.None?
    case Abandon => w.dumped.Some?
    case Switch(_) => w.dumped.Some?
    case _ => true
  }

  function Do(w: Writer, s: Step): Writer {
    match s
    case Append(c) =>
      var e := Logged(|w.appended|, c);
      w.(active := w.active + [e], appended := w.appended + [e])
    case Swap =>
      if w.active != [] then w.(flushing := w.active, active := w.flushing, between := true)
      else w.(between := true)
    case Write =>
      if w.flushing != [] && w.open then w.(file := w.file + w.flushing, flushing := [], between := false)
      else w.(between := false)
    case Flush =>
      if w.open then w.(file := w.file + w.active + w.flushing, active := [], flushing := []) else w
    case SetOpen(open) => w.(open := open)
    case Snapshot => w.(dumped := Some(|w.appended|))
    case Abandon => w.(dumped := None)
    case Switch(reopened) =>
      if w.dumped.None? then w
      else
        w.(replaced := w.replaced + w.file, compacted := w.dumped.value, file := Carried(w), flushing := [], active := [],
           open := reopened, dumped := None)
  }

  /** What the switch of files writes behind the compacted part: the buffers, flushing first. */
  function Carried(w: Writer): seq<Logged> { w.flushing + w.active }

  /** Any interleaving of the sections, by any number of threads. */
  ghost predicate Runs(w: Writer, steps: seq<Step>)
    decreases |steps|
  {
    steps == [] || (Enabled(w, steps[0]) && Runs(Do(w, steps[0]), steps[1..]))
  }

  function After(w: Writer, steps: seq<Step>): Writer
    decreases |steps|
  {
    if steps == [] then w else After(Do(w, steps[0]), steps[1..])
  }

  const START: Writer := Writer([], 0, [], [], [], false, true, None, [])

  /** All appends still on record: in the replaced files, in the file, in the buffers. */
  function Held(w: Writer): seq<Logged> { w.replaced + w.file + w.flushing + w.active }

  /** What has reached a file. */
  function Written(w: Writer): seq<Logged> { w.replaced + w.file }

  ghost predicate Stamped(w: Writer) {
    forall i :: 0 <= i < |w.appended| ==> w.appended[i].stamp == i
  }

  /** Nothing is lost and nothing is duplicated. */
  ghost predicate Conserved(w: Writer) {
    Stamped(w) && multiset(Held(w)) == multiset(w.appended)
  }

  /** Replaced files, file, flushing buffer and active buffer together are the append order. */
  ghost predicate Ordered(w: Writer) {
    Stamped(w) && Held(w) == w.appended && (!w.between ==> w.flushing == [])
  }

  lemma ConservedStep(w: Writer, s: Step)
    requires Conserved(w)
    ensures Conserved(Do(w, s))
  {
    StampedStep(w, s);
    HeldStep(w, s);
  }

  lemma HeldStep(w: Writer, s: Step)
    ensures multiset(Held(Do(w, s)))
         == multiset(Held(w)) + if s.Append? then multiset{Logged(|w.appended|, s.command)} else multiset{}
    ensures multiset(Do(w, s).appended)
         == multiset(w.appended) + if s.Append? then multiset{Logged(|w.appended|, s.command)} else multiset{}
  {
    hide Do, Held;
    match s
    case Append(c) => HeldAppend(w, c);
    case Swap => HeldSwap(w);
    case Flush => HeldFlush(w);
    case _ => HeldSame(w, s);
  }

  lemma HeldAppend(w: Writer, c: Command)
    ensures var e := Logged(|w.appended|, c);
            Held(Do(w, Append(c))) == Held(w) + [e] && Do(w, Append(c)).appended == w.appended + [e]
  {
  }

  lemma HeldSwap(w: Writer)
    ensures multiset(Held(Do(w, Swap))) == multiset(Held(w)) && Do(w, Swap).appended == w.appended
  {
    Exchanged(w.replaced + w.file, w.flushing, w.active);
  }

  lemma HeldFlush(w: Writer)
    ensures multiset(Held(Do(w, Flush))) == multiset(Held(w)) && Do(w, Flush).appended == w.appended
  {
    Exchanged(w.replaced + w.file, w.flushing, w.active);
    assert w.open ==> Held(Do(w, Flush)) == w.replaced + w.file + w.active + w.flushing;
  }

  lemma HeldSame(w: Writer, s: Step)
    requires !s.Append? && !s.Swap? && !s.Flush?
    ensures Held(Do(w, s)) == Held(w) && Do(w, s).appended == w.appended
  {
  }

  lemma Exchanged(f: seq<Logged>, g: seq<Logged>, a: seq<Logged>)
    ensures multiset(f + g + a) == multiset(f + a + g)
  {
    Union(f + g, a);
    Union(f, g);
    Union(f + a, g);
    Union(f, a);
  }

  lemma StampedStep(w: Writer, s: Step)
    requires Stamped(w)
    ensures Stamped(Do(w, s))
  {
  }

  lemma Union(a: seq<Logged>, b: seq<Logged>)
    ensures multiset(a + b) == multiset(a) + multiset(b)
  {
  }

  /** In every reachable state of every interleaving, whatever the policy, with the file closed in
      between and with rewrites, the files that were replaced, the file and the buffers hold each
      appended command exactly once. */
  lemma {:induction false} EveryRunConserves(w: Writer, steps: seq<Step>)
    requires Conserved(w)
    ensures Conserved(After(w, steps))
    decreases |steps|
  {
    hide Conserved, Do;
    if steps != [] {
      ConservedStep(w, steps[0]);
      EveryRunConserves(Do(w, steps[0]), steps[1..]);
    }
  }

  // ----- the order of appends

  /** The one section that can break the order is flush_sync: it writes the newer buffer first. */
  ghost predicate SafeFlush(w: Writer) { w.flushing == [] || w.active == [] }

  predicate Closes(s: Step) { s == SetOpen(false) || s == Switch(false) }

  lemma OrderedStep(w: Writer, s: Step)
    requires Ordered(w) && Enabled(w, s) && w.open && !Closes(s)
    requires s.Flush? ==> SafeFlush(w)
    ensures Ordered(Do(w, s)) && Do(w, s).open
  {
    match s
    case Append(c) =>
      var e := Logged(|w.appended|, c);
      assert Held(Do(w, s)) == Held(w) + [e];
    case _ => assert Held(Do(w, s)) == Held(w);
  }

  lemma StampsDistinct(w: Writer, i: nat, j: nat)
    requires Ordered(w) && i < |Held(w)| && j < |Held(w)|
    ensures Held(w)[i] == Held(w)[j] ==> i == j
  {
  }

  /** flush_sync keeps the append order exactly when one of the two buffers is empty. */
  lemma FlushKeepsOrderIff(w: Writer)
    requires Ordered(w) && w.open
    ensures Written(Do(w, Flush)) == w.appended <==> SafeFlush(w)
  {
    var t := Written(Do(w, Flush));
    if SafeFlush(w) {
      assert t == Held(w);
    } else {
      var i := |Written(w)|;
      assert t[i] == w.active[0] == Held(w)[i + |w.flushing|];
      StampsDistinct(w, i, i + |w.flushing|);
    }
  }

  /** Flush at a moment that is not safe really occurs under the policy `always`: a client appends
      while the background thread holds a swapped buffer, then flushes. */
  lemma AlwaysCanReorder(a: Command, b: Command)
    ensures var steps := [Append(a), Swap, Append(b), Flush];
            Runs(START, steps) && After(START, steps).file == [Logged(1, b), Logged(0, a)]
  {
    var w1 := Do(START, Append(a));
    var w2 := Do(w1, Swap);
    var w3 := Do(w2, Append(b));
    RunsOne(w3, Flush, []);
    RunsOne(w2, Append(b), [Flush]);
    RunsOne(w1, Swap, [Append(b), Flush]);
    RunsOne(START, Append(a), [Swap, Append(b), Flush]);
  }

  lemma RunsOne(w: Writer, s: Step, more: seq<Step>)
    ensures Runs(w, [s] + more) <==> Enabled(w, s) && Runs(Do(w, s), more)
    ensures After(w, [s] + more) == After(Do(w, s), more)
  {
    assert ([s] + more)[1..] == more;
  }

  /** With the file open, an append under `always` ends with nothing in the buffers, so everything
      appended is in a file; one round of the background loop brings the file up to the appends; and while
      the file is closed nothing reaches it. */
  lemma AlwaysWrites(w: Writer, c: Command)
    requires Conserved(w)
    ensures var t := Do(Do(w, Append(c)), Flush);
            w.open ==> t.flushing == t.active == [] && multiset(Written(t)) == multiset(t.appended)
    ensures !w.open ==> Written(Do(Do(w, Append(c)), Flush)) == Written(w)
  {
    ConservedStep(w, Append(c));
    var t := Do(Do(w, Append(c)), Flush);
    ConservedStep(Do(w, Append(c)), Flush);
    if w.open { assert Held(t) == Written(t); }
  }

  lemma LoopWrites(w: Writer)
    requires Ordered(w) && !w.between
    ensures w.open ==> Written(Do(Do(w, Swap), Write)) == w.appended
    ensures !w.open ==> Written(Do(Do(w, Swap), Write)) == Written(w)
  {
    if w.open && w.active == [] { assert Held(w) == Written(w); }
  }

  /** Every flush of the run happens at a safe moment. */
  ghost predicate SafeRun(w: Writer, steps: seq<Step>)
    decreases |steps|
  {
    steps == [] || ((steps[0].Flush? ==> SafeFlush(w)) && SafeRun(Do(w, steps[0]), steps[1..]))
  }

  ghost predicate StaysOpen(steps: seq<Step>) { forall i :: 0 <= i < |steps| ==> !Closes(steps[i]) }

  lemma {:induction false} SafeRunOrders(w: Writer, steps: seq<Step>)
    requires Ordered(w) && w.open && Runs(w, steps) && StaysOpen(steps) && SafeRun(w, steps)
    ensures Ordered(After(w, steps)) && After(w, steps).open
    decreases |steps|
  {
    hide Ordered, Do;
    if steps != [] {
      OrderedStep(w, steps[0]);
      SafeRunOrders(Do(w, steps[0]), steps[1..]);
    }
  }

  /** What reached the files out of order stays out of order. */
  ghost predicate Broken(w: Writer) { |Held(w)| == |w.appended| && !(Written(w) <= w.appended) }

  lemma BrokenStep(w: Writer, s: Step)
    requires Broken(w)
    ensures Broken(Do(w, s))
  {
    var t := Do(w, s);
    var n := |Written(w)|;
    assert n <= |Written(t)| && Written(t)[..n] == Written(w);
    assert |w.appended| <= |t.appended| && t.appended[..|w.appended|] == w.appended;
    var i :| 0 <= i < n && Written(w)[i] != w.appended[i];
    assert Written(t)[i] == Written(w)[i] && t.appended[i] == w.appended[i];
  }

  lemma {:induction false} BrokenForGood(w: Writer, steps: seq<Step>)
    requires Broken(w)
    ensures !Ordered(After(w, steps))
    decreases |steps|
  {
    hide Do, Broken, Ordered;
    if steps == [] {
      BrokenNotOrdered(w);
    } else {
      BrokenStep(w, steps[0]);
      BrokenForGood(Do(w, steps[0]), steps[1..]);
    }
  }

  lemma BrokenNotOrdered(w: Writer)
    ensures Broken(w) ==> !Ordered(w)
  {
    if Ordered(w) { assert Held(w)[..|Written(w)|] == Written(w); }
  }

  lemma UnsafeBreaks(w: Writer)
    requires Ordered(w) && w.open && !SafeFlush(w)
    ensures Broken(Do(w, Flush))
  {
    FlushKeepsOrderIff(w);
    var t := Do(w, Flush);
    assert |Written(t)| == |Held(w)| == |w.appended|;
    PrefixWhole(Written(t), t.appended);
  }

  lemma PrefixWhole(a: seq<Logged>, b: seq<Logged>)
    requires |a| == |b|
    ensures a <= b ==> a == b
  {
  }

  /** With the file open, an interleaving keeps the append order if and only if all its flushes are
      safe. */
  lemma {:induction false} EveryRunOrdersIffSafe(w: Writer, steps: seq<Step>)
    requires Ordered(w) && w.open && Runs(w, steps) && StaysOpen(steps)
    ensures Ordered(After(w, steps)) <==> SafeRun(w, steps)
    decreases |steps|
  {
    hide Ordered, Do, Broken, SafeFlush;
    if steps != [] {
      if steps[0].Flush? && !SafeFlush(w) {
        UnsafeBreaks(w);
        BrokenForGood(Do(w, Flush), steps[1..]);
      } else {
        OrderedStep(w, steps[0]);
        EveryRunOrdersIffSafe(Do(w, steps[0]), steps[1..]);
      }
    }
  }

  /** Under `everysec` and `no` the append path never flushes, so every run is safe. */
  lemma {:induction false} NoFlushIsSafe(w: Writer, steps: seq<Step>)
    requires forall i :: 0 <= i < |steps| ==> !steps[i].Flush?
    ensures SafeRun(w, steps)
    decreases |steps|
  {
    if steps != [] { NoFlushIsSafe(Do(w, steps[0]), steps[1..]); }
  }

  /** The flush of stop(), after the background thread has been joined, brings everything to the file in
      append order. */
  lemma ShutdownCompletes(w: Writer)
    requires Ordered(w) && w.open && !w.between
    ensures Written(Do(w, Flush)) == w.appended && Do(w, Flush).file == w.file + w.flushing + w.active
  {
    FlushKeepsOrderIff(w);
  }

  /** A run takes in no command of a file of old. */
  lemma {:induction false} FileKept(w: Writer, steps: seq<Step>)
    requires Runs(w, steps) && forall i :: 0 <= i < |steps| ==> !steps[i].Switch?
    ensures var e := After(w, steps); e.replaced == w.replaced && e.compacted == w.compacted && w.appended <= e.appended
    ensures (forall i :: 0 <= i < |steps| ==> !steps[i].Snapshot? && !steps[i].Abandon?) ==> After(w, steps).dumped == w.dumped
    decreases |steps|
  {
    if steps != [] { FileKept(Do(w, steps[0]), steps[1..]); }
  }

  // ----- BGREWRITEAOF

  /** perform_rewrite carries exactly the commands appended after its dump (which saw the first k of
      them) if and only if exactly those k had been written when the files were switched. Writing more
      loses commands, writing fewer repeats some. */
  lemma RewriteCarriesIff(w: Writer, k: nat)
    requires Ordered(w) && k <= |w.appended|
    ensures |Written(w)| <= |w.appended| && Carried(w) == w.appended[|Written(w)|..]
    ensures Carried(w) == w.appended[k..] <==> |Written(w)| == k
    ensures forall i :: k <= i < |Written(w)| ==> w.appended[i] !in Carried(w)
    ensures forall i :: |Written(w)| <= i < k ==> w.appended[i] in Carried(w)
  {
    CarriedIsTail(w);
    Tails(w.appended, |Written(w)|, k);
  }

  lemma Tails(a: seq<Logged>, n: nat, k: nat)
    requires forall i :: 0 <= i < |a| ==> a[i].stamp == i
    requires n <= |a| && k <= |a|
    ensures a[n..] == a[k..] <==> n == k
    ensures forall i :: k <= i < n ==> a[i] !in a[n..]
    ensures forall i :: n <= i < k ==> a[i] in a[n..]
  {
    if a[n..] == a[k..] { assert |a[n..]| == |a[k..]|; }
    forall i | n <= i < k ensures a[i] in a[n..] {
      assert a[n..][i - n] == a[i];
    }
  }

  lemma CarriedIsTail(w: Writer)
    requires Ordered(w)
    ensures |Written(w)| <= |w.appended| && Carried(w) == w.appended[|Written(w)|..]
  {
    assert Held(w) == Written(w) + Carried(w);
  }

  /** A run with one rewrite: its dump, what happens until the files are switched, and what follows. */
  function Rewriting(before: seq<Step>, during: seq<Step>, after: seq<Step>): seq<Step> {
    before + ([Snapshot] + (during + ([Switch(true)] + after)))
  }

  /** Up to the dump the run is arbitrary; the rewrite is not given up, and no other follows. */
  ghost predicate OneRewrite(before: seq<Step>, during: seq<Step>, after: seq<Step>) {
    var steps := Rewriting(before, during, after);
    Runs(START, steps) && StaysOpen(steps) && SafeRun(START, steps)
    && (forall i :: 0 <= i < |during| ==> !during[i].Snapshot? && !during[i].Abandon? && !during[i].Switch?)
    && (forall i :: 0 <= i < |after| ==> !after[i].Switch?)
  }

  function AtDump(before: seq<Step>): Writer { After(START, before) }

  function AtSwitch(before: seq<Step>, during: seq<Step>): Writer { After(Do(AtDump(before), Snapshot), during) }

  lemma {:induction false} Joined(w: Writer, a: seq<Step>, b: seq<Step>)
    ensures Runs(w, a + b) <==> Runs(w, a) && Runs(After(w, a), b)
    ensures SafeRun(w, a + b) <==> SafeRun(w, a) && SafeRun(After(w, a), b)
    ensures After(w, a + b) == After(After(w, a), b)
    decreases |a|
  {
    hide Do, Enabled, SafeFlush;
    if a == [] {
      assert a + b == b;
    } else {
      assert (a + b)[0] == a[0] && (a + b)[1..] == a[1..] + b;
      Joined(Do(w, a[0]), a[1..], b);
    }
  }

  lemma OpenParts(a: seq<Step>, b: seq<Step>)
    requires StaysOpen(a + b)
    ensures StaysOpen(a) && StaysOpen(b)
  {
    forall i | 0 <= i < |a| ensures !Closes(a[i]) { assert (a + b)[i] == a[i]; }
    forall i | 0 <= i < |b| ensures !Closes(b[i]) { assert (a + b)[|a| + i] == b[i]; }
  }

  /** The first part of an open, safe run ends in order. */
  lemma FirstPart(w: Writer, a: seq<Step>, b: seq<Step>) returns (x: Writer)
    requires Ordered(w) && w.open && Runs(w, a + b) && StaysOpen(a + b) && SafeRun(w, a + b)
    ensures x == After(w, a) && Ordered(x) && x.open && Runs(w, a)
    ensures Runs(x, b) && StaysOpen(b) && SafeRun(x, b) && After(w, a + b) == After(x, b)
  {
    hide Ordered, StaysOpen;
    Joined(w, a, b);
    OpenParts(a, b);
    SafeRunOrders(w, a);
    x := After(w, a);
  }

  lemma StartOrdered()
    ensures Ordered(START)
  {
  }

  /** The four states of such a run, each in order. */
  lemma RewriteStates(before: seq<Step>, during: seq<Step>, after: seq<Step>)
    requires OneRewrite(before, during, after)
    ensures var v, w, e := AtDump(before), AtSwitch(before, during), After(START, Rewriting(before, during, after));
            Ordered(v) && Ordered(w) && Ordered(e) && e.open
            && w.replaced == v.replaced && w.dumped == Some(|v.appended|) && v.appended <= w.appended <= e.appended
            && Runs(Do(v, Snapshot), during)
            && e.replaced == Written(w) && e.compacted == |v.appended|
  {
    hide Ordered, Runs, SafeRun, StaysOpen, After, Do, Enabled;
    StartOrdered();
    var v := FirstPart(START, before, [Snapshot] + (during + ([Switch(true)] + after)));
    var v' := FirstPart(v, [Snapshot], during + ([Switch(true)] + after));
    RunsStep(v, Snapshot);
    var w := FirstPart(v', during, [Switch(true)] + after);
    FileKept(v', during);
    var w' := FirstPart(w, [Switch(true)], after);
    RunsStep(w, Switch(true));
    SafeRunOrders(w', after);
    FileKept(w', after);
    Dumped(v);
    Switched(w);
  }

  lemma RunsStep(w: Writer, s: Step)
    ensures After(w, [s]) == Do(w, s)
  {
    RunsOne(w, s, []);
    assert [s] + [] == [s];
  }

  lemma Dumped(v: Writer)
    ensures Do(v, Snapshot) == v.(dumped := Some(|v.appended|))
  {
  }

  lemma Switched(w: Writer)
    requires w.dumped.Some?
    ensures var t := Do(w, Switch(true)); t.replaced == Written(w) && t.compacted == w.dumped.value && t.appended == w.appended
  {
  }

  /** A file whose compacted part stands for exactly what the rest leaves out. */
  ghost predicate Exact(w: Writer) {
    w.compacted <= |w.appended| && w.file + w.flushing + w.active == w.appended[w.compacted..]
  }

  lemma ExactIff(w: Writer)
    requires Ordered(w) && w.compacted <= |w.appended|
    ensures Exact(w) <==> |w.replaced| == w.compacted
  {
    assert Held(w) == w.replaced + (w.file + w.flushing + w.active);
    Tails(w.appended, |w.replaced|, w.compacted);
  }

  /** Over every run with a rewrite: whatever is appended later, file and buffers behind the compacted
      part are exactly the commands appended after the dump, if and only if as many commands reached the
      old file between dump and switch as were in the buffers at the dump. */
  lemma RewriteExactIff(before: seq<Step>, during: seq<Step>, after: seq<Step>)
    requires OneRewrite(before, during, after)
    ensures var v, w, e := AtDump(before), AtSwitch(before, during), After(START, Rewriting(before, during, after));
            e.compacted == |v.appended|
            && (Exact(e) <==> |w.file| - |v.file| == |v.flushing| + |v.active|)
  {
    hide Ordered, Exact, OneRewrite, AtDump, AtSwitch, Rewriting, After;
    RewriteStates(before, during, after);
    var v, w, e := AtDump(before), AtSwitch(before, during), After(START, Rewriting(before, during, after));
    ExactIff(e);
    Sizes(v);
  }

  lemma Sizes(v: Writer)
    requires Ordered(v)
    ensures |v.appended| == |v.replaced| + |v.file| + |v.flushing| + |v.active|
  {
  }

  lemma {:induction false} NothingArrives(w: Writer, steps: seq<Step>)
    requires Runs(w, steps) && w.flushing == [] && w.active == []
    requires forall i :: 0 <= i < |steps| ==> !steps[i].Append? && !steps[i].Switch?
    ensures After(w, steps).file == w.file
    decreases |steps|
  {
    if steps != [] { NothingArrives(Do(w, steps[0]), steps[1..]); }
  }

  /** So a rewrite that starts on empty buffers and encloses no append is exact. */
  lemma QuietRewriteExact(before: seq<Step>, during: seq<Step>, after: seq<Step>)
    requires OneRewrite(before, during, after)
    requires AtDump(before).flushing == [] && AtDump(before).active == []
    requires forall i :: 0 <= i < |during| ==> !during[i].Append?
    ensures Exact(After(START, Rewriting(before, during, after)))
  {
    hide Ordered, Exact, Rewriting, Do, Runs, After;
    RewriteStates(before, during, after);
    RewriteExactIff(before, during, after);
    var v := AtDump(before);
    Dumped(v);
    NothingArrives(Do(v, Snapshot), during);
  }

  /** Neither half of that can be spared: a command still buffered at the dump is written again behind
      the compacted part that has it already; */
  lemma RewriteRepeats(c: Command)
    ensures OneRewrite([Append(c)], [], [])
    ensures var e := After(START, Rewriting([Append(c)], [], []));
            e.compacted == 1 && e.appended == e.file == [Logged(0, c)]
  {
    var steps := Rewriting([Append(c)], [], []);
    var a := Do(START, Append(c));
    var b := Do(a, Snapshot);
    assert steps == [Append(c)] + ([Snapshot] + ([Switch(true)] + []));
    NoFlushIsSafe(START, steps);
    RunsOne(b, Switch(true), []);
    RunsOne(a, Snapshot, [Switch(true)] + []);
    RunsOne(START, Append(c), [Snapshot] + ([Switch(true)] + []));
  }

  /** and one appended and written between dump and switch is lost. */
  lemma RewriteLoses(c: Command)
    ensures OneRewrite([], [Append(c), Swap, Write], [])
    ensures var e := After(START, Rewriting([], [Append(c), Swap, Write], []));
            e.compacted == 0 && e.appended == [Logged(0, c)] && e.file == e.flushing == e.active == []
  {
    hide Runs, After, SafeRun, Do;
    var steps := Rewriting([], [Append(c), Swap, Write], []);
    assert steps == [Snapshot] + ([Append(c)] + ([Swap] + ([Write] + ([Switch(true)] + []))));
    NoFlushIsSafe(START, steps);
    LosingStates(c);
    var e := Logged(0, c);
    var d := START.(dumped := Some(0));
    var d1 := d.(active := [e], appended := [e]);
    var d2 := d1.(flushing := [e], active := [], between := true);
    var d3 := d2.(file := [e], flushing := [], between := false);
    var d4 := d3.(replaced := [e], file := [], dumped := None);
    RunsNone(d4);
    RunsOne(d3, Switch(true), []);
    RunsOne(d2, Write, [Switch(true)] + []);
    RunsOne(d1, Swap, [Write] + ([Switch(true)] + []));
    RunsOne(d, Append(c), [Swap] + ([Write] + ([Switch(true)] + [])));
    RunsOne(START, Snapshot, [Append(c)] + ([Swap] + ([Write] + ([Switch(true)] + []))));
  }

  lemma LosingStates(c: Command)
    ensures var e := Logged(0, c);
            var d := START.(dumped := Some(0));
            var d1 := d.(active := [e], appended := [e]);
            var d2 := d1.(flushing := [e], active := [], between := true);
            var d3 := d2.(file := [e], flushing := [], between := false);
            Do(START, Snapshot) == d && Do(d, Append(c)) == d1 && Do(d1, Swap) == d2 && Do(d2, Write) == d3
            && Do(d3, Switch(true)) == d3.(replaced := [e], file := [], dumped := None)
  {
  }

  lemma RunsNone(w: Writer)
    ensures Runs(w, []) && After(w, []) == w
  {
  }

  // ----- the object

  function Commands(entries: seq<Logged>): seq<Command> {
    seq(|entries|, i requires 0 <= i < |entries| => entries[i].command)
  }

  function LogText(entries: seq<Logged>): Str { PrintAll(Commands(entries)) }

  lemma TextConcat(a: seq<Logged>, b: seq<Logged>)
    ensures LogText(a + b) == LogText(a) + LogText(b)
  {
    assert Commands(a + b) == Commands(a) + Commands(b);
    PrintAllConcat(Commands(a), Commands(b));
  }

  lemma TextOne(e: Logged)
    ensures LogText([e]) == Print(e.command)
  {
    assert Commands([e]) == [e.command];
    PrintAllOne(e.command);
  }

  lemma TextEmptyIff(entries: seq<Logged>)
    ensures LogText(entries) == [] <==> entries == []
  {
    if entries != [] {
      PrintStartsWithAsterisk(entries[0].command);
      assert Commands(entries)[0] == entries[0].command;
    }
  }

  lemma CarriedText(compacted: Str, w: Writer)
    ensures compacted + LogText(Carried(w)) == compacted + LogText(w.flushing) + LogText(w.active)
    ensures compacted + [] == compacted && compacted + LogText(w.flushing) + [] == compacted + LogText(w.flushing)
  {
    hide LogText;
    TextConcat(w.flushing, w.active);
  }

  class AofManager {
    var enabled: bool
    var always: bool
    var file: Str
    var fileOpen: bool
    var activeBuffer: Str
    var flushingBuffer: Str
    var rewriteInProgress: bool
    ghost var base: Str
    ghost var writer: Writer

    /** The byte buffers hold the printed commands of the abstract writer; `base` is what the file
        holds before the first of them: what it held at the start, or the compacted part. */
    ghost predicate Valid()
      reads this
    {
      file == base + LogText(writer.file)
      && activeBuffer == LogText(writer.active)
      && flushingBuffer == LogText(writer.flushing)
      && fileOpen == writer.open
      && rewriteInProgress == writer.dumped.Some?
    }

    constructor (file: Str, enabled: bool, always: bool)
      ensures Valid() && writer == START && base == file && this.enabled == enabled && this.always == always
    {
      this.file, this.fileOpen, this.enabled, this.always := file, true, enabled, always;
      activeBuffer, flushingBuffer, rewriteInProgress, base, writer := [], [], false, file, START;
      new;
      assert file + LogText([]) == file;
    }

    /** append, aof.hpp. Under `always` the caller flushes at once. */
    method Append(args: Command)
      requires Valid()
      modifies this`activeBuffer, this`flushingBuffer, this`file, this`writer
      ensures Valid()
      ensures !enabled || args == [] ==> writer == old(writer)
      ensures enabled && args != [] ==>
                writer == (if always then Do(Do(old(writer), Step.Append(args)), Flush) else Do(old(writer), Step.Append(args)))
    {
      if !enabled || args == [] { return; }
      var serialized := Array(args);
      ghost var e := Logged(|writer.appended|, args);
      TextConcat(writer.active, [e]);
      TextOne(e);
      activeBuffer := activeBuffer + serialized;
      writer := Do(writer, Step.Append(args));
      if always { FlushSync(); }
    }

    /** The first half of background_writer_loop. */
    method BackgroundSwap()
      requires Valid() && !writer.between
      modifies this`activeBuffer, this`flushingBuffer, this`writer
      ensures Valid() && writer == Do(old(writer), Swap)
    {
      TextEmptyIff(writer.active);
      if activeBuffer != [] {
        flushingBuffer, activeBuffer := activeBuffer, flushingBuffer;
      }
      writer := Do(writer, Swap);
    }

    /** The second half of background_writer_loop. */
    method BackgroundWrite()
      requires Valid() && writer.between
      modifies this`flushingBuffer, this`file, this`writer
      ensures Valid() && writer == Do(old(writer), Write)
    {
      hide LogText;
      TextEmptyIff(writer.flushing);
      TextConcat(writer.file, writer.flushing);
      assert file + flushingBuffer == base + (LogText(writer.file) + LogText(writer.flushing));
      if flushingBuffer != [] && fileOpen {
        file := file + flushingBuffer;
        flushingBuffer := [];
        TextEmptyIff([]);
      }
      writer := Do(writer, Write);
    }

    /** flush_sync, aof.hpp. */
    method FlushSync()
      requires Valid()
      modifies this`activeBuffer, this`flushingBuffer, this`file, this`writer
      ensures Valid() && writer == Do(old(writer), Flush)
    {
      hide LogText;
      TextConcat(writer.file, writer.active);
      TextConcat(writer.file + writer.active, writer.flushing);
      assert file + activeBuffer + flushingBuffer
          == base + (LogText(writer.file) + LogText(writer.active) + LogText(writer.flushing));
      assert file + [] == file;
      TextEmptyIff([]);
      TextEmptyIff(writer.active);
      TextEmptyIff(writer.flushing);
      if activeBuffer != [] && fileOpen {
        file := file + activeBuffer;
        activeBuffer := [];
      }
      if flushingBuffer != [] && fileOpen {
        file := file + flushingBuffer;
        flushingBuffer := [];
      }
      writer := Do(writer, Flush);
    }

    /** rewrite_async as far as the log is concerned: one rewrite at a time, none when the manager is
        not running; the dump is taken here. */
    method RewriteAsync(running: bool) returns (started: bool)
      requires Valid()
      modifies this`rewriteInProgress, this`writer
      ensures Valid() && (started <==> enabled && !old(rewriteInProgress) && running)
      ensures started ==> Enabled(old(writer), Snapshot) && writer == Do(old(writer), Snapshot)
      ensures !started ==> writer == old(writer)
    {
      if !enabled || rewriteInProgress { return false; }
      if !running { return false; }
      rewriteInProgress := true;
      writer := Do(writer, Snapshot);
      started := true;
    }

    /** perform_rewrite when the new file cannot be opened or written. */
    method AbandonRewrite()
      requires Valid() && rewriteInProgress
      modifies this`rewriteInProgress, this`writer
      ensures Valid() && Enabled(old(writer), Abandon) && writer == Do(old(writer), Abandon)
    {
      rewriteInProgress := false;
      writer := Do(writer, Abandon);
    }

    /** The end of perform_rewrite: the buffers follow the compacted entries into the new file,
        which replaces the old one and is reopened. */
    method SwitchFiles(compacted: Str, reopened: bool)
      requires Valid() && rewriteInProgress
      modifies this
      ensures Valid() && Enabled(old(writer), Switch(reopened)) && writer == Do(old(writer), Switch(reopened))
      ensures base == compacted && file == compacted + LogText(Carried(old(writer)))
      ensures enabled == old(enabled) && always == old(always)
    {
      hide LogText;
      TextEmptyIff([]);
      var tmp := compacted;
      if flushingBuffer != [] {
        tmp := tmp + flushingBuffer;
        flushingBuffer := [];
      }
      if activeBuffer != [] {
        tmp := tmp + activeBuffer;
        activeBuffer := [];
      }
      CarriedText(compacted, writer);
      file, fileOpen, rewriteInProgress := tmp, reopened, false;
      base := compacted;
      writer := Do(writer, Switch(reopened));
    }
  }
}
