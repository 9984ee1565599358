/** Concurrent commands over the shard locks of store.hpp: every interleaving of their lock, access and
    unlock steps is equivalent to a serial order, and none gets stuck. */
module Locks {
  import opened Bytes
  import opened Keyspace
  import opened Sharding
  import ValueLoops

  /** What a read returns: the cell of a key, or all that the table of a shard holds. */
  datatype Seen = One(cell: Cell) | Table(part: Db)

  /** One step of a client. A write stores what the client makes of what it has read so far; None
      removes the key. */
  datatype Instr =
    | Acquire(lock: nat, exclusive: bool)
    | Release(lock: nat)
    | Read(key: Str)
    | Scan(shard: nat)
    | Write(key: Str, value: seq<Seen> -> Cell)

  type Program = seq<Instr>

  /** Locks 1 to 32 guard the shards; blocked_mutex_ comes before all of them. */
  const BLOCKED_MUTEX: nat := 0

  function ShardLock(shard: nat): nat { shard + 1 }

  function LockOf(key: Str): nat { ShardLock(ShardIndex(key)) }

  /** The locks a client holds after its first n steps, with their mode. */
  function Held(p: Program, n: nat): map<nat, bool>
    requires n <= |p|
  {
    if n == 0 then map[]
    else
      var before := Held(p, n - 1);
      match p[n - 1]
      case Acquire(r, x) => before[r := x]
      case Release(r) => before - {r}
      case _ => before
  }

  /** A client at step pc of its program, with the values its reads have returned. */
  datatype Client = Client(program: Program, pc: nat, results: seq<Seen>)

  /** `order` lists the clients that have passed their last acquisition, in that order; `seen` is
      the serial state each of them found there. They are bookkeeping: no step depends on them. */
  datatype World = World(clients: seq<Client>, store: Db, order: seq<nat>, seen: map<nat, Db>, initial: Db)

  predicate Wf(w: World) {
    (forall i :: 0 <= i < |w.clients| ==> w.clients[i].pc <= |w.clients[i].program|)
    && (forall k :: 0 <= k < |w.order| ==> w.order[k] < |w.clients|)
  }

  predicate Running(w: World, i: nat) {
    i < |w.clients| && w.clients[i].pc < |w.clients[i].program|
  }

  function HeldBy(w: World, i: nat): map<nat, bool>
    requires Wf(w) && i < |w.clients|
  {
    Held(w.clients[i].program, w.clients[i].pc)
  }

  function Next(w: World, i: nat): Instr
    requires Running(w, i)
  {
    w.clients[i].program[w.clients[i].pc]
  }

  /** std::shared_mutex: an exclusive owner excludes all others, shared owners exclude exclusive ones. */
  ghost predicate Free(w: World, i: nat, lock: nat, exclusive: bool)
    requires Wf(w)
  {
    forall j :: 0 <= j < |w.clients| && j != i && lock in HeldBy(w, j) ==> !exclusive && !HeldBy(w, j)[lock]
  }

  ghost predicate CanStep(w: World, i: nat)
    requires Wf(w)
  {
    Running(w, i) && (Next(w, i).Acquire? ==> Free(w, i, Next(w, i).lock, Next(w, i).exclusive))
  }

  predicate LastAcquire(p: Program, n: nat) {
    n < |p| && p[n].Acquire? && forall m :: n < m < |p| ==> !p[m].Acquire?
  }

  /** What a client works on: the store, and what it has read. */
  datatype Memory = Memory(store: Db, results: seq<Seen>)

  /** The table of one shard. */
  function Part(db: Db, shard: nat): (part: Db)
    ensures forall k :: k in part <==> k in db && ShardIndex(k) == shard
    ensures forall k :: k in part ==> part[k] == db[k]
  {
    db - set k | k in db && ShardIndex(k) != shard
  }

  lemma SamePart(a: Db, b: Db, shard: nat)
    requires forall k :: ShardIndex(k) == shard ==> Lookup(a, k) == Lookup(b, k)
    ensures Part(a, shard) == Part(b, shard)
  {
    hide ShardIndex;
    var x, y := Part(a, shard), Part(b, shard);
    forall k ensures (k in x <==> k in y) && (k in x ==> x[k] == y[k]) {
      if ShardIndex(k) == shard { assert Lookup(a, k) == Lookup(b, k); }
    }
  }

  function Access(i: Instr, m: Memory): Memory {
    match i
    case Read(k) => m.(results := m.results + [One(Lookup(m.store, k))])
    case Scan(shard) => m.(results := m.results + [Table(Part(m.store, shard))])
    case Write(k, value) => m.(store := Update(m.store, k, value(m.results)))
    case _ => m
  }

  /** The rest of a program from step n, as if run alone. */
  function Exec(p: Program, n: nat, m: Memory): Memory
    requires n <= |p|
    decreases |p| - n
  {
    if n == |p| then m else Exec(p, n + 1, Access(p[n], m))
  }

  function Whole(p: Program, s: Db): Memory { Exec(p, 0, Memory(s, [])) }

  /** The state after the clients of `order`, one whole command after the other. */
  function Serial(w: World, n: nat): Db
    requires Wf(w) && n <= |w.order|
  {
    if n == 0 then w.initial else Whole(w.clients[w.order[n - 1]].program, Serial(w, n - 1)).store
  }

  ghost function Step(w: World, i: nat): World
    requires Wf(w) && Running(w, i)
  {
    var c := w.clients[i];
    var moved := c.(pc := c.pc + 1);
    match Next(w, i)
    case Acquire(_, _) =>
      if LastAcquire(c.program, c.pc) then
        w.(clients := w.clients[i := moved], order := w.order + [i], seen := w.seen[i := Serial(w, |w.order|)])
      else w.(clients := w.clients[i := moved])
    case Release(_) => w.(clients := w.clients[i := moved])
    case Read(k) => w.(clients := w.clients[i := moved.(results := c.results + [One(Lookup(w.store, k))])])
    case Scan(shard) => w.(clients := w.clients[i := moved.(results := c.results + [Table(Part(w.store, shard))])])
    case Write(k, value) => w.(clients := w.clients[i := moved], store := Update(w.store, k, value(c.results)))
  }

  // ----- the discipline of the source

  /** Locks are taken in ascending order and none twice. */
  predicate Ordered(p: Program) {
    forall n :: 0 <= n < |p| && p[n].Acquire? ==> forall r :: r in Held(p, n) ==> r < p[n].lock
  }

  predicate IsAccess(i: Instr) { i.Read? || i.Scan? || i.Write? }

  /** The shard of an access, and the lock it needs. */
  function ShardFor(i: Instr): nat
    requires IsAccess(i)
  {
    if i.Scan? then i.shard else ShardIndex(i.key)
  }

  function LockFor(i: Instr): nat
    requires IsAccess(i)
  {
    ShardLock(ShardFor(i))
  }

  /** i reads the cell of k. */
  predicate Looks(i: Instr, k: Str) { (i.Read? && i.key == k) || (i.Scan? && i.shard == ShardIndex(k)) }

  /** Every access is made under the lock of its key, in the mode it needs, after the last
      acquisition; the last acquisition exists. */
  predicate TwoPhase(p: Program) {
    (forall n :: 0 <= n < |p| && IsAccess(p[n]) ==>
       LockFor(p[n]) in Held(p, n) && (p[n].Write? ==> Held(p, n)[LockFor(p[n])]))
    && (forall n, m :: 0 <= n < m < |p| && !p[n].Acquire? ==> !p[m].Acquire?)
    && |p| > 0 && p[0].Acquire?
  }

  predicate PastLastAcquire(c: Client) {
    c.pc > 0 && c.pc <= |c.program| && forall m :: c.pc <= m < |c.program| ==> !c.program[m].Acquire?
  }

  /** Keys a client has yet to write or read. */
  predicate WillWrite(c: Client, k: Str) {
    exists n :: c.pc <= n < |c.program| && c.program[n].Write? && c.program[n].key == k
  }

  predicate WillRead(c: Client, k: Str) {
    exists n :: c.pc <= n < |c.program| && Looks(c.program[n], k)
  }

  /** Once past the last acquisition a lock once gone does not come back, so a lock needed later is
      held now. */
  lemma {:induction false} HeldUntil(p: Program, a: nat, b: nat, r: nat)
    requires a <= b <= |p| && r in Held(p, b)
    requires forall m :: a <= m < b ==> !p[m].Acquire?
    ensures r in Held(p, a) && Held(p, a)[r] == Held(p, b)[r]
    decreases b - a
  {
    if a < b { HeldUntil(p, a, b - 1, r); }
  }

  lemma HoldsForWrite(c: Client, k: Str)
    requires TwoPhase(c.program) && PastLastAcquire(c) && WillWrite(c, k)
    ensures LockOf(k) in Held(c.program, c.pc) && Held(c.program, c.pc)[LockOf(k)]
  {
    hide Held;
    var n :| c.pc <= n < |c.program| && c.program[n].Write? && c.program[n].key == k;
    HeldUntil(c.program, c.pc, n, LockOf(k));
  }

  lemma HoldsForRead(c: Client, k: Str)
    requires TwoPhase(c.program) && PastLastAcquire(c) && WillRead(c, k)
    ensures LockOf(k) in Held(c.program, c.pc)
  {
    hide Held;
    var n :| c.pc <= n < |c.program| && Looks(c.program[n], k);
    HeldUntil(c.program, c.pc, n, LockOf(k));
  }

  // ----- the invariant

  /** No two clients hold a lock in conflicting modes. */
  ghost predicate Exclusion(w: World)
    requires Wf(w)
  {
    forall i, j, r ::
      0 <= i < |w.clients| && 0 <= j < |w.clients| && i != j && r in HeldBy(w, i) && r in HeldBy(w, j)
      ==> !HeldBy(w, i)[r] && !HeldBy(w, j)[r]
  }

  ghost predicate OrderOk(w: World) {
    Wf(w)
    && (forall a, b :: 0 <= a < b < |w.order| ==> w.order[a] != w.order[b])
    && (forall i :: 0 <= i < |w.clients| ==> (i in w.order <==> PastLastAcquire(w.clients[i])))
  }

  ghost predicate Disciplined(w: World) {
    Wf(w) && forall i :: 0 <= i < |w.clients| ==> TwoPhase(w.clients[i].program)
  }

  /** What client i makes of the store from where it stands. */
  function Ahead(w: World, i: nat): Memory
    requires Wf(w) && i < |w.clients|
  {
    Exec(w.clients[i].program, w.clients[i].pc, Memory(w.store, w.clients[i].results))
  }

  /** The serial state is the store with the pending writes of admitted clients carried out. */
  ghost predicate StoreOk(w: World)
    requires Disciplined(w) && OrderOk(w)
  {
    var s := Serial(w, |w.order|);
    (forall k :: (forall i :: i in w.order ==> !WillWrite(w.clients[i], k)) ==> Lookup(s, k) == Lookup(w.store, k))
    && (forall i, k :: i in w.order && WillWrite(w.clients[i], k) ==> Lookup(s, k) == Lookup(Ahead(w, i).store, k))
  }

  /** An admitted client will have read what it would have read running alone on the state it was
      admitted in; the others have read nothing. */
  ghost predicate ReadsOk(w: World)
    requires Disciplined(w) && OrderOk(w)
  {
    (forall n :: 0 <= n < |w.order| ==> w.order[n] in w.seen && w.seen[w.order[n]] == Serial(w, n))
    && (forall i :: i in w.order ==> Ahead(w, i).results == Whole(w.clients[i].program, w.seen[i]).results)
    && (forall i :: 0 <= i < |w.clients| && i !in w.order ==> w.clients[i].results == [])
  }

  ghost predicate Inv(w: World) {
    Disciplined(w) && Exclusion(w) && OrderOk(w) && StoreOk(w) && ReadsOk(w)
  }

  // ----- effects, key by key

  /** A program reads and leaves the same in two stores that agree on what it reads. */
  lemma {:induction false} ExecAgrees(p: Program, n: nat, s: Db, t: Db, results: seq<Seen>, k: Str)
    requires n <= |p| && forall m, x :: n <= m < |p| && Looks(p[m], x) ==> Lookup(s, x) == Lookup(t, x)
    ensures var x, y := Exec(p, n, Memory(s, results)), Exec(p, n, Memory(t, results));
            x.results == y.results && (Lookup(s, k) == Lookup(t, k) ==> Lookup(x.store, k) == Lookup(y.store, k))
    decreases |p| - n
  {
    hide ShardIndex, Looks, Part;
    if n < |p| {
      LooksAlike(p[n], s, t, results);
      var x, y := Access(p[n], Memory(s, results)), Access(p[n], Memory(t, results));
      forall m, z | n + 1 <= m < |p| && Looks(p[m], z) ensures Lookup(x.store, z) == Lookup(y.store, z) {
        StaysAlike(p[n], s, t, results, z);
      }
      StaysAlike(p[n], s, t, results, k);
      ExecAgrees(p, n + 1, x.store, y.store, x.results, k);
    }
  }

  lemma StaysAlike(i: Instr, s: Db, t: Db, results: seq<Seen>, k: Str)
    ensures var x, y := Access(i, Memory(s, results)), Access(i, Memory(t, results));
            Lookup(s, k) == Lookup(t, k) ==> Lookup(x.store, k) == Lookup(y.store, k)
  {
    hide Part;
  }

  lemma LooksAlike(i: Instr, s: Db, t: Db, results: seq<Seen>)
    requires forall x :: Looks(i, x) ==> Lookup(s, x) == Lookup(t, x)
    ensures Access(i, Memory(s, results)).results == Access(i, Memory(t, results)).results
  {
    hide ShardIndex, Lookup, Part;
    if i.Read? { assert Looks(i, i.key); }
    if i.Scan? {
      forall x | ShardIndex(x) == i.shard ensures Lookup(s, x) == Lookup(t, x) { assert Looks(i, x); }
      SamePart(s, t, i.shard);
    }
  }

  lemma {:induction false} ExecUntouched(p: Program, n: nat, m: Memory, k: Str)
    requires n <= |p| && forall j :: n <= j < |p| && p[j].Write? ==> p[j].key != k
    ensures Lookup(Exec(p, n, m).store, k) == Lookup(m.store, k)
    decreases |p| - n
  {
    if n < |p| { ExecUntouched(p, n + 1, Access(p[n], m), k); }
  }

  /** Acquisitions before the first access have no effect and return nothing. */
  lemma {:induction false} PrefixIdle(p: Program, n: nat, m: Memory)
    requires n <= |p| && forall j :: 0 <= j < n ==> p[j].Acquire?
    ensures Exec(p, 0, m) == Exec(p, n, m)
    decreases n
  {
    if n > 0 { PrefixIdle(p, n - 1, m); }
  }

  lemma {:induction false} SerialSame(w: World, v: World, n: nat)
    requires n <= |w.order| && n <= |v.order| && w.order[..n] == v.order[..n] && w.initial == v.initial
    requires |w.clients| == |v.clients|
    requires forall i :: 0 <= i < |w.clients| ==> w.clients[i].program == v.clients[i].program
    requires Wf(w) && Wf(v)
    ensures Serial(w, n) == Serial(v, n)
    decreases n
  {
    hide Whole;
    if n > 0 {
      assert w.order[..n - 1] == w.order[..n][..n - 1] == v.order[..n - 1];
      assert w.order[n - 1] == w.order[..n][n - 1] == v.order[n - 1];
      SerialSame(w, v, n - 1);
    }
  }

  // ----- the invariant is kept by every step

  lemma BasicsStep(w: World, i: nat)
    requires Disciplined(w) && Exclusion(w) && OrderOk(w) && CanStep(w, i)
    ensures var v := Step(w, i); Disciplined(v) && OrderOk(v)
  {
    hide Held, Free, Serial, Exclusion, ShardIndex, Part, Update, Lookup;
    var c := w.clients[i];
    var v := Step(w, i);
    var d := v.clients[i];
    assert d.program == c.program && d.pc == c.pc + 1;
    assert PastLastAcquire(d) <==> PastLastAcquire(c) || LastAcquire(c.program, c.pc);
    assert LastAcquire(c.program, c.pc) ==> !PastLastAcquire(c);
  }

  /** One more step adds at most the lock it acquires. */
  lemma HeldStep(p: Program, n: nat, r: nat)
    requires n < |p| && r in Held(p, n + 1)
    ensures (r in Held(p, n) && Held(p, n + 1)[r] == Held(p, n)[r]) || p[n] == Acquire(r, Held(p, n + 1)[r])
  {
  }

  lemma ExclusionAt(w: World, i: nat, j: nat, r: nat)
    requires Wf(w) && Exclusion(w) && i < |w.clients| && j < |w.clients| && i != j
    requires r in HeldBy(w, i) && r in HeldBy(w, j)
    ensures !HeldBy(w, i)[r] && !HeldBy(w, j)[r]
  {
  }

  lemma FreeAt(w: World, i: nat, j: nat, r: nat, x: bool)
    requires Wf(w) && Free(w, i, r, x) && j < |w.clients| && i != j && r in HeldBy(w, j)
    ensures !x && !HeldBy(w, j)[r]
  {
  }

  lemma ExclusionStep(w: World, i: nat)
    requires Disciplined(w) && Exclusion(w) && OrderOk(w) && CanStep(w, i)
    ensures Wf(Step(w, i)) && Exclusion(Step(w, i))
  {
    hide Serial, TwoPhase, LastAcquire, Held, PastLastAcquire;
    var v := Step(w, i);
    assert forall j :: 0 <= j < |w.clients| && j != i ==> v.clients[j] == w.clients[j];
    forall j, r | 0 <= j < |v.clients| && j != i && r in HeldBy(v, i) && r in HeldBy(v, j)
      ensures !HeldBy(v, i)[r] && !HeldBy(v, j)[r]
    {
      HeldStep(w.clients[i].program, w.clients[i].pc, r);
      assert HeldBy(v, j) == HeldBy(w, j);
      if r in HeldBy(w, i) && HeldBy(v, i)[r] == HeldBy(w, i)[r] {
        ExclusionAt(w, i, j, r);
      } else {
        FreeAt(w, i, j, r, HeldBy(v, i)[r]);
      }
    }
    forall a, b, r | 0 <= a < |v.clients| && 0 <= b < |v.clients| && a != b && r in HeldBy(v, a) && r in HeldBy(v, b)
      ensures !HeldBy(v, a)[r] && !HeldBy(v, b)[r]
    {
      if a != i && b != i { assert r in HeldBy(w, a) && r in HeldBy(w, b); }
    }
  }

  /** Two admitted clients never have conflicting accesses to one key ahead of them. */
  lemma NoConflict(w: World, i: nat, j: nat, k: Str)
    requires Disciplined(w) && Exclusion(w) && i < |w.clients| && j < |w.clients| && i != j
    requires PastLastAcquire(w.clients[i]) && PastLastAcquire(w.clients[j])
    requires WillWrite(w.clients[i], k)
    ensures !WillWrite(w.clients[j], k) && !WillRead(w.clients[j], k)
  {
    hide Held, TwoPhase, PastLastAcquire, WillWrite, WillRead;
    HoldsForWrite(w.clients[i], k);
    assert LockOf(k) in HeldBy(w, i) && HeldBy(w, i)[LockOf(k)];
    if WillWrite(w.clients[j], k) { HoldsForWrite(w.clients[j], k); ExclusionAt(w, i, j, LockOf(k)); }
    if WillRead(w.clients[j], k) { HoldsForRead(w.clients[j], k); ExclusionAt(w, i, j, LockOf(k)); }
  }

  /** A step that admits no client leaves the serial state alone. */
  lemma SerialKept(w: World, i: nat)
    requires Disciplined(w) && OrderOk(w) && CanStep(w, i)
    ensures var v := Step(w, i);
            Wf(v) && |w.order| <= |v.order| && (forall n :: 0 <= n <= |w.order| ==> Serial(v, n) == Serial(w, n))
  {
    hide Held, Free, Serial, TwoPhase, LastAcquire, PastLastAcquire;
    var v := Step(w, i);
    forall n | 0 <= n <= |w.order| ensures Serial(v, n) == Serial(w, n) {
      assert v.order[..n] == w.order[..n];
      SerialSame(v, w, n);
    }
  }

  ghost predicate Ready(w: World, i: nat) {
    Inv(w) && CanStep(w, i)
  }

  /** What a step that is no admission does to the accesses still ahead. */
  lemma AheadStep(w: World, i: nat, k: Str)
    requires Ready(w, i)
    ensures var v := Step(w, i); var c, d := w.clients[i], v.clients[i];
            (WillWrite(c, k) <==> WillWrite(d, k) || (Next(w, i).Write? && Next(w, i).key == k))
            && (WillRead(c, k) <==> WillRead(d, k) || Looks(Next(w, i), k))
  {
    hide Held, Free, Serial, TwoPhase, LastAcquire, PastLastAcquire, Exclusion, StoreOk, ReadsOk;
    var c, d := w.clients[i], Step(w, i).clients[i];
    assert d.program == c.program && d.pc == c.pc + 1;
    if WillWrite(c, k) {
      var n :| c.pc <= n < |c.program| && c.program[n].Write? && c.program[n].key == k;
      if n != c.pc { assert d.pc <= n; }
    }
    if WillRead(c, k) {
      var n :| c.pc <= n < |c.program| && Looks(c.program[n], k);
      if n != c.pc { assert d.pc <= n; }
    }
  }

  /** The parts of the world a step leaves alone. */
  lemma StepFrame(w: World, i: nat)
    requires Wf(w) && CanStep(w, i)
    ensures var v := Step(w, i);
            |v.clients| == |w.clients| && v.initial == w.initial
            && (forall j :: 0 <= j < |w.clients| && j != i ==> v.clients[j] == w.clients[j])
            && v.clients[i].program == w.clients[i].program && v.clients[i].pc == w.clients[i].pc + 1
            && (!Admits(w, i) ==> v.order == w.order && v.seen == w.seen)
            && (Next(w, i).Write? ==>
                  v.store == Update(w.store, Next(w, i).key, Next(w, i).value(w.clients[i].results)))
            && (!Next(w, i).Write? ==> v.store == w.store)
  {
    hide Held, Free, Serial;
  }

  ghost predicate Admits(w: World, i: nat)
    requires Wf(w) && Running(w, i)
  {
    LastAcquire(w.clients[i].program, w.clients[i].pc)
  }

  lemma StoreStep(w: World, i: nat)
    requires Ready(w, i) && !Admits(w, i)
    ensures var v := Step(w, i); Disciplined(v) && OrderOk(v) && StoreOk(v)
  {
    hide Exec, Part, ShardIndex, Lookup, Update, WillWrite, Ahead, Held, Step, Serial, Admits, Free, Exclusion, ReadsOk;
    BasicsStep(w, i);
    var v := Step(w, i);
    forall k
      ensures (forall j :: j in v.order ==> !WillWrite(v.clients[j], k)) ==> Lookup(Serial(v, |v.order|), k) == Lookup(v.store, k)
      ensures forall j :: j in v.order && WillWrite(v.clients[j], k) ==>
                Lookup(Serial(v, |v.order|), k) == Lookup(Ahead(v, j).store, k)
    {
      StoreAt(w, i, k);
    }
  }

  /** One key of it. */
  lemma StoreAt(w: World, i: nat, k: Str)
    requires Ready(w, i) && !Admits(w, i)
    ensures var v := Step(w, i);
            Disciplined(v) && OrderOk(v)
            && ((forall j :: j in v.order ==> !WillWrite(v.clients[j], k)) ==> Lookup(Serial(v, |v.order|), k) == Lookup(v.store, k))
            && (forall j :: j in v.order && WillWrite(v.clients[j], k) ==>
                  Lookup(Serial(v, |v.order|), k) == Lookup(Ahead(v, j).store, k))
  {
    hide Exec, Part, ShardIndex, Lookup, Update, WillWrite, Ahead, Held, Free, TwoPhase, LastAcquire, PastLastAcquire,
      Exclusion, ReadsOk;
    var v := Step(w, i);
    BasicsStep(w, i);
    SerialKept(w, i);
    assert v.order == w.order && Serial(v, |v.order|) == Serial(w, |w.order|);
    hide Serial;
    AheadStep(w, i, k);
    if forall j :: j in v.order ==> !WillWrite(v.clients[j], k) { Settled(w, i, k); }
    forall j | j in v.order && WillWrite(v.clients[j], k)
      ensures Lookup(Serial(v, |v.order|), k) == Lookup(Ahead(v, j).store, k)
    {
      StillPending(w, i, j, k);
    }
  }

  /** Only an admitted client writes. */
  lemma WriterAdmitted(w: World, i: nat)
    requires Ready(w, i) && IsAccess(Next(w, i))
    ensures i in w.order && PastLastAcquire(w.clients[i])
    ensures Next(w, i).Write? ==> WillWrite(w.clients[i], Next(w, i).key)
  {
    hide Held, Free, Serial, StoreOk, ReadsOk, Exclusion;
  }

  /** A key nobody has left to write after the step holds its serial value after the step. */
  lemma Settled(w: World, i: nat, k: Str)
    requires Ready(w, i) && !Admits(w, i)
    requires forall j :: j in w.order ==> j < |w.clients| && !WillWrite(Step(w, i).clients[j], k)
    ensures Lookup(Serial(w, |w.order|), k) == Lookup(Step(w, i).store, k)
  {
    hide Held, Free, Serial, TwoPhase, LastAcquire, ReadsOk, Exec;
    var v := Step(w, i);
    var c, d := w.clients[i], v.clients[i];
    StepFrame(w, i);
    AheadStep(w, i, k);
    if Next(w, i).Write? && Next(w, i).key == k {
      WriterAdmitted(w, i);
      OwnAhead(w, i);
      assert !WillWrite(d, k);
      ExecUntouched(d.program, d.pc, Memory(v.store, d.results), k);
    } else {
      assert forall j :: j in w.order ==> !WillWrite(w.clients[j], k);
    }
  }

  /** A key a client has left to write after the step still gets its serial value from it. */
  lemma StillPending(w: World, i: nat, j: nat, k: Str)
    requires Ready(w, i) && !Admits(w, i)
    requires j in w.order && j < |w.clients| && WillWrite(Step(w, i).clients[j], k)
    ensures var v := Step(w, i); Wf(v) && Lookup(Serial(w, |w.order|), k) == Lookup(Ahead(v, j).store, k)
  {
    hide Held, Free, Serial, TwoPhase, LastAcquire, ReadsOk, Step, WillRead, Exclusion, Exec;
    BasicsStep(w, i);
    StepFrame(w, i);
    AheadStep(w, i, k);
    assert WillWrite(w.clients[j], k);
    if j == i { OwnAhead(w, i); } else { OtherAhead(w, i, j, k); }
  }

  /** A client's own step leaves what it makes of the store the same. */
  lemma OwnAhead(w: World, i: nat)
    requires Ready(w, i)
    ensures var v := Step(w, i); Wf(v) && Ahead(v, i) == Ahead(w, i)
  {
    hide Held, Free, Serial, TwoPhase, LastAcquire, ReadsOk, WillRead, Exclusion, StoreOk;
    BasicsStep(w, i);
  }

  /** Another client's write touches nothing this client has still to read or write. */
  lemma OtherAhead(w: World, i: nat, j: nat, k: Str)
    requires Ready(w, i) && j != i && j in w.order && j < |w.clients|
    ensures var v := Step(w, i);
            Wf(v) && Ahead(v, j).results == Ahead(w, j).results
            && (WillWrite(w.clients[j], k) ==> Lookup(Ahead(v, j).store, k) == Lookup(Ahead(w, j).store, k))
  {
    hide Held, Free, Serial, TwoPhase, LastAcquire, ReadsOk, StoreOk, Exec, WillRead, WillWrite;
    BasicsStep(w, i);
    StepFrame(w, i);
    var c := w.clients[j];
    if Next(w, i).Write? {
      WriterAdmitted(w, i);
      NoConflict(w, i, j, Next(w, i).key);
      NotReading(c, Next(w, i).key);
    }
    ExecAgrees(c.program, c.pc, w.store, Step(w, i).store, c.results, k);
  }

  lemma NotReading(c: Client, k: Str)
    requires c.pc <= |c.program| && !WillRead(c, k)
    ensures forall m :: c.pc <= m < |c.program| ==> !Looks(c.program[m], k)
  {
  }

  // ----- admission: the last acquisition

  /** Before its admission a client has only acquired. */
  lemma BeforeAdmission(p: Program, n: nat)
    requires TwoPhase(p) && LastAcquire(p, n)
    ensures forall m :: 0 <= m < n + 1 ==> p[m].Acquire?
  {
    hide Held;
  }

  /** The newly admitted client conflicts with no client admitted before it. */
  lemma AdmissionNoConflict(w: World, i: nat, j: nat, k: Str)
    requires Ready(w, i) && Admits(w, i) && j in w.order && j < |w.clients|
    ensures j != i
    ensures var d := Step(w, i).clients[i];
            (WillWrite(d, k) ==> !WillWrite(w.clients[j], k) && !WillRead(w.clients[j], k))
            && (WillWrite(w.clients[j], k) ==> !WillWrite(d, k) && !WillRead(d, k))
  {
    hide Held, Free, Serial, StoreOk, ReadsOk, Exec;
    BasicsStep(w, i);
    ExclusionStep(w, i);
    var v := Step(w, i);
    assert v.clients[j] == w.clients[j] by { assert j != i; }
    assert PastLastAcquire(v.clients[i]) && PastLastAcquire(v.clients[j]);
    if WillWrite(v.clients[i], k) { NoConflict(v, i, j, k); }
    if WillWrite(v.clients[j], k) { NoConflict(v, j, i, k); }
  }

  /** The serial state after an admission, as the effect of the program from where it stands. */
  lemma AdmittedSerial(w: World, i: nat)
    requires Ready(w, i) && Admits(w, i)
    ensures var v := Step(w, i); var c := v.clients[i]; var s := Serial(w, |w.order|);
            Wf(v) && c.pc <= |c.program| && c.results == [] && i !in w.order
            && v.order == w.order + [i]
            && Serial(v, |w.order|) == s == v.seen[i]
            && Serial(v, |v.order|) == Exec(c.program, c.pc, Memory(s, [])).store
            && Whole(c.program, s) == Exec(c.program, c.pc, Memory(s, []))
  {
    hide Held, Free, StoreOk, TwoPhase, Exclusion, Exec;
    var v := Step(w, i);
    var c := v.clients[i];
    SerialKept(w, i);
    assert v.order == w.order + [i];
    assert v.order[|w.order|] == i;
    BeforeAdmission(w.clients[i].program, w.clients[i].pc);
    PrefixIdle(c.program, c.pc, Memory(Serial(w, |w.order|), []));
  }

  lemma NotWriting(c: Client, k: Str)
    requires c.pc <= |c.program| && !WillWrite(c, k)
    ensures forall m :: c.pc <= m < |c.program| && c.program[m].Write? ==> c.program[m].key != k
  {
  }

  lemma StoreAdmission(w: World, i: nat)
    requires Ready(w, i) && Admits(w, i)
    ensures var v := Step(w, i); Disciplined(v) && OrderOk(v) && StoreOk(v)
  {
    hide Exec;
    var v := Step(w, i);
    BasicsStep(w, i);
    var t := Serial(v, |v.order|);
    forall k | forall j :: j in v.order ==> !WillWrite(v.clients[j], k)
      ensures Lookup(t, k) == Lookup(v.store, k)
    {
      AdmittedSettled(w, i, k);
    }
    forall j, k | j in v.order && WillWrite(v.clients[j], k)
      ensures Lookup(t, k) == Lookup(Ahead(v, j).store, k)
    {
      AdmittedPending(w, i, j, k);
    }
  }

  lemma AdmittedSettled(w: World, i: nat, k: Str)
    requires Ready(w, i) && Admits(w, i)
    requires forall j :: j in Step(w, i).order ==> j < |w.clients| && !WillWrite(Step(w, i).clients[j], k)
    ensures var v := Step(w, i); Wf(v) && Lookup(Serial(v, |v.order|), k) == Lookup(v.store, k)
  {
    hide Held, Free, Serial, TwoPhase, LastAcquire, PastLastAcquire, Exclusion, ReadsOk, Exec, WillWrite;
    AdmittedSerial(w, i);
    var v := Step(w, i);
    var d := v.clients[i];
    assert i in v.order;
    forall j | j in w.order ensures !WillWrite(w.clients[j], k) {
      assert j in v.order && v.clients[j] == w.clients[j];
    }
    NotWriting(d, k);
    ExecUntouched(d.program, d.pc, Memory(Serial(w, |w.order|), []), k);
  }

  /** What the newly admitted client is going to read or write has its serial value in the store. */
  lemma AdmittedClean(w: World, i: nat, k: Str)
    requires Ready(w, i) && Admits(w, i) && (WillRead(Step(w, i).clients[i], k) || WillWrite(Step(w, i).clients[i], k))
    ensures Lookup(Serial(w, |w.order|), k) == Lookup(w.store, k)
  {
    hide Held, Free, Serial, TwoPhase, LastAcquire, PastLastAcquire, Exclusion, ReadsOk, Exec, WillWrite, WillRead;
    forall b | b in w.order ensures !WillWrite(w.clients[b], k) { AdmissionNoConflict(w, i, b, k); }
  }

  /** So it makes of the store what it would make of the serial state. */
  lemma AdmittedAhead(w: World, i: nat, k: Str)
    requires Ready(w, i) && Admits(w, i)
    ensures var v := Step(w, i); var s := Serial(w, |w.order|);
            Wf(v) && Ahead(v, i).results == Whole(v.clients[i].program, s).results
            && (WillWrite(v.clients[i], k) ==> Lookup(Ahead(v, i).store, k) == Lookup(Whole(v.clients[i].program, s).store, k))
  {
    hide Held, Free, Serial, TwoPhase, LastAcquire, PastLastAcquire, Exclusion, ReadsOk, StoreOk, Exec, Whole, WillWrite, Step;
    AdmittedSerial(w, i);
    StepFrame(w, i);
    AdmitsNoWrite(w, i);
    var d := Step(w, i).clients[i];
    var s := Serial(w, |w.order|);
    forall m, x | d.pc <= m < |d.program| && Looks(d.program[m], x)
      ensures Lookup(s, x) == Lookup(w.store, x)
    {
      ReadAhead(d, m, x);
      AdmittedClean(w, i, x);
    }
    if WillWrite(d, k) { AdmittedClean(w, i, k); }
    ExecAgrees(d.program, d.pc, s, w.store, [], k);
  }

  lemma ReadAhead(c: Client, m: nat, k: Str)
    requires c.pc <= m < |c.program| && Looks(c.program[m], k)
    ensures WillRead(c, k)
  {
  }

  lemma AdmitsNoWrite(w: World, i: nat)
    requires Wf(w) && CanStep(w, i) && Admits(w, i)
    ensures !Next(w, i).Write?
  {
  }

  lemma AdmittedPending(w: World, i: nat, j: nat, k: Str)
    requires Ready(w, i) && Admits(w, i)
    requires j in Step(w, i).order && j < |w.clients| && WillWrite(Step(w, i).clients[j], k)
    ensures var v := Step(w, i); Wf(v) && Lookup(Serial(v, |v.order|), k) == Lookup(Ahead(v, j).store, k)
  {
    hide Held, Free, Serial, TwoPhase, LastAcquire, PastLastAcquire, Exclusion, ReadsOk, Exec, Whole, WillWrite, WillRead, Step;
    AdmittedSerial(w, i);
    StepFrame(w, i);
    AdmitsNoWrite(w, i);
    var v := Step(w, i);
    var d := v.clients[i];
    if j == i {
      AdmittedAhead(w, i, k);
    } else {
      assert j in w.order && v.clients[j] == w.clients[j];
      AdmissionNoConflict(w, i, j, k);
      NotWriting(d, k);
      ExecUntouched(d.program, d.pc, Memory(Serial(w, |w.order|), []), k);
    }
  }

  // ----- reads

  lemma ReadsStep(w: World, i: nat)
    requires Ready(w, i) && !Admits(w, i)
    ensures var v := Step(w, i); Disciplined(v) && OrderOk(v) && ReadsOk(v)
  {
    hide Held, Free, Serial, TwoPhase, LastAcquire, PastLastAcquire, Exclusion, Exec, Whole, Step, StoreOk, WillWrite, WillRead,
      Lookup;
    var v := Step(w, i);
    BasicsStep(w, i);
    SerialKept(w, i);
    StepFrame(w, i);
    forall j | j in v.order
      ensures Ahead(v, j).results == Whole(v.clients[j].program, v.seen[j]).results
    {
      if j == i { OwnAhead(w, i); } else { OtherAhead(w, i, j, []); }
    }
    forall j | 0 <= j < |v.clients| && j !in v.order ensures v.clients[j].results == [] {
      if j == i { NotYetRead(w, i); }
    }
  }

  /** A client that is not admitted does not read. */
  lemma NotYetRead(w: World, i: nat)
    requires Ready(w, i) && !Admits(w, i) && i !in w.order
    ensures Step(w, i).clients[i].results == []
  {
    hide Held, Free, Serial, TwoPhase, LastAcquire, PastLastAcquire, Exclusion, Exec, Whole, StoreOk, WillWrite, WillRead;
    if IsAccess(Next(w, i)) { WriterAdmitted(w, i); }
  }

  lemma ReadsAdmission(w: World, i: nat)
    requires Ready(w, i) && Admits(w, i)
    ensures var v := Step(w, i); Disciplined(v) && OrderOk(v) && ReadsOk(v)
  {
    hide Held, Free, Serial, LastAcquire, PastLastAcquire, Exclusion, Exec, Whole, StoreOk, TwoPhase, WillWrite, WillRead, Lookup;
    var v := Step(w, i);
    BasicsStep(w, i);
    SerialKept(w, i);
    AdmittedSerial(w, i);
    StepFrame(w, i);
    forall n | 0 <= n < |v.order| ensures v.order[n] in v.seen && v.seen[v.order[n]] == Serial(v, n) {
      if n < |w.order| { assert v.order[n] == w.order[n] && w.order[n] in w.order; }
    }
    forall j | j in v.order
      ensures Ahead(v, j).results == Whole(v.clients[j].program, v.seen[j]).results
    {
      if j == i { AdmittedAhead(w, i, []); } else { assert j in w.order && v.store == w.store; }
    }
  }

  // ----- runs

  /** Every step of every client keeps the invariant. */
  lemma InvStep(w: World, i: nat)
    requires Ready(w, i)
    ensures Inv(Step(w, i))
  {
    hide Held, Free, Serial, TwoPhase, LastAcquire, PastLastAcquire, Exec, StoreOk, ReadsOk;
    BasicsStep(w, i);
    ExclusionStep(w, i);
    if Admits(w, i) {
      StoreAdmission(w, i);
      ReadsAdmission(w, i);
    } else {
      StoreStep(w, i);
      ReadsStep(w, i);
    }
  }

  function Start(programs: seq<Program>, initial: Db): World {
    World(seq(|programs|, i requires 0 <= i < |programs| => Client(programs[i], 0, [])), initial, [], map[], initial)
  }

  /** A schedule names the client that moves at each step; it is possible if that client can. */
  ghost predicate Possible(w: World, schedule: seq<nat>)
    decreases |schedule|
  {
    schedule == []
    || (Wf(w) && CanStep(w, schedule[0]) && Possible(Step(w, schedule[0]), schedule[1..]))
  }

  ghost function After(w: World, schedule: seq<nat>): World
    requires Possible(w, schedule)
    decreases |schedule|
  {
    if schedule == [] then w else After(Step(w, schedule[0]), schedule[1..])
  }

  lemma StartInv(programs: seq<Program>, initial: Db)
    requires forall i :: 0 <= i < |programs| ==> TwoPhase(programs[i])
    ensures Inv(Start(programs, initial))
  {
  }

  lemma {:induction false} RunInv(w: World, schedule: seq<nat>)
    requires Inv(w) && Possible(w, schedule)
    ensures Inv(After(w, schedule))
    decreases |schedule|
  {
    hide Disciplined, Exclusion, OrderOk, StoreOk, ReadsOk, Step, Free;
    if schedule != [] {
      InvStep(w, schedule[0]);
      RunInv(Step(w, schedule[0]), schedule[1..]);
    }
  }

  predicate Finished(w: World, i: nat) {
    i < |w.clients| && w.clients[i].pc == |w.clients[i].program|
  }

  /** Client i is the n-th in the serial order and has read the values of the state before it. */
  predicate ReadAt(w: World, i: nat, n: nat)
    requires Wf(w) && i < |w.clients| && n < |w.order|
  {
    w.order[n] == i
    && w.clients[i].results == Whole(w.clients[i].program, Serial(w, n)).results
  }

  /** Serializability: after any interleaving, every finished command has read the values of one
      state that lies between whole commands, namely after those admitted before it; and once all
      are finished the store is what running them one after the other leaves. */
  lemma Serializable(programs: seq<Program>, initial: Db, schedule: seq<nat>)
    requires forall i :: 0 <= i < |programs| ==> TwoPhase(programs[i])
    requires Possible(Start(programs, initial), schedule)
    ensures var w := After(Start(programs, initial), schedule);
            Wf(w)
            && (forall i: nat :: Finished(w, i) ==> exists n: nat :: n < |w.order| && ReadAt(w, i, n))
            && ((forall i :: 0 <= i < |w.clients| ==> Finished(w, i)) ==> w.store == Serial(w, |w.order|))
  {
    StartInv(programs, initial);
    RunInv(Start(programs, initial), schedule);
    var w := After(Start(programs, initial), schedule);
    hide Held, Exclusion, After, Possible, Start, Serial, Whole;
    forall i: nat | Finished(w, i)
      ensures exists n: nat :: n < |w.order| && ReadAt(w, i, n)
    {
      assert PastLastAcquire(w.clients[i]);
      var n: nat :| n < |w.order| && w.order[n] == i;
      assert ReadAt(w, i, n);
    }
    if forall i :: 0 <= i < |w.clients| ==> Finished(w, i) {
      forall k ensures Lookup(w.store, k) == Lookup(Serial(w, |w.order|), k) {
        forall i | i in w.order ensures !WillWrite(w.clients[i], k) {
          assert Finished(w, i);
        }
      }
      SameStore(w.store, Serial(w, |w.order|));
    }
  }

  lemma SameStore(s: Db, t: Db)
    requires forall k :: Lookup(s, k) == Lookup(t, k)
    ensures s == t
  {
    forall k ensures (k in s <==> k in t) && (k in s ==> s[k] == t[k]) {
      assert Lookup(s, k) == Lookup(t, k);
    }
  }

  /** The serial order respects real time: clients are only ever added at its end. */
  lemma {:induction false} OrderGrows(w: World, schedule: seq<nat>)
    requires Possible(w, schedule)
    ensures |w.order| <= |After(w, schedule).order| && After(w, schedule).order[..|w.order|] == w.order
    decreases |schedule|
  {
    if schedule != [] {
      var v := Step(w, schedule[0]);
      hide Possible, After, Held, Serial, Free;
      assert v.order == w.order || v.order == w.order + [schedule[0]];
      OrderUnfold(w, schedule);
      OrderGrows(v, schedule[1..]);
      assert v.order[..|w.order|] == w.order;
      assert After(w, schedule).order[..|w.order|] == After(w, schedule).order[..|v.order|][..|w.order|];
    }
  }

  lemma OrderUnfold(w: World, schedule: seq<nat>)
    requires schedule != [] && Possible(w, schedule)
    ensures Wf(w) && CanStep(w, schedule[0]) && Possible(Step(w, schedule[0]), schedule[1..])
    ensures After(w, schedule) == After(Step(w, schedule[0]), schedule[1..])
  {
  }

  // ----- no deadlock

  /** All locks are given back by the end. */
  predicate Balanced(p: Program) { Held(p, |p|) == map[] }

  predicate Waiting(w: World, i: nat) { Running(w, i) && Next(w, i).Acquire? }

  /** A shared_mutex may also make readers queue behind a waiting writer; progress is shown under
      that stricter rule. */
  ghost predicate CanStepBehindWriters(w: World, i: nat)
    requires Wf(w)
  {
    CanStep(w, i)
    && (Waiting(w, i) && !Next(w, i).exclusive ==>
          forall j :: Waiting(w, j) && Next(w, j).lock == Next(w, i).lock ==> !Next(w, j).exclusive)
  }

  /** Higher locks first, writers before readers. */
  function Urgency(w: World, i: nat): nat
    requires Waiting(w, i)
  {
    2 * Next(w, i).lock + if Next(w, i).exclusive then 1 else 0
  }

  lemma {:induction false} MostUrgent(w: World, n: nat) returns (best: nat)
    requires n <= |w.clients| && exists i: nat :: i < n && Waiting(w, i)
    ensures best < n && Waiting(w, best)
    ensures forall j: nat :: j < n && Waiting(w, j) ==> Urgency(w, j) <= Urgency(w, best)
    decreases n
  {
    if exists i: nat :: i < n - 1 && Waiting(w, i) {
      best := MostUrgent(w, n - 1);
      if Waiting(w, n - 1) && Urgency(w, n - 1) > Urgency(w, best) { best := n - 1; }
    } else {
      best := n - 1;
    }
  }

  /** A client holding the lock another waits for waits, if at all, for a higher one. */
  lemma HolderMoreUrgent(w: World, i: nat, j: nat)
    requires Wf(w) && Waiting(w, i) && j < |w.clients| && Next(w, i).lock in HeldBy(w, j)
    requires Ordered(w.clients[j].program) && Balanced(w.clients[j].program)
    ensures Running(w, j) && (Waiting(w, j) ==> Urgency(w, i) < Urgency(w, j))
  {
    hide Held;
  }

  /** In no reachable state, whatever the clients and their number, are all unfinished clients
      stuck. */
  lemma NoDeadlock(w: World)
    requires Wf(w)
    requires forall i :: 0 <= i < |w.clients| ==> Ordered(w.clients[i].program) && Balanced(w.clients[i].program)
    requires exists i: nat :: Running(w, i)
    ensures exists i: nat :: CanStepBehindWriters(w, i)
  {
    hide Held;
    var i0: nat :| Running(w, i0);
    if forall i: nat :: Running(w, i) ==> Waiting(w, i) {
      assert Waiting(w, i0);
      var best := MostUrgent(w, |w.clients|);
      var r := Next(w, best).lock;
      forall j | 0 <= j < |w.clients| && j != best
        ensures r !in HeldBy(w, j)
      {
        if r in HeldBy(w, j) { HolderMoreUrgent(w, best, j); }
      }
      assert Free(w, best, r, Next(w, best).exclusive);
      assert CanStepBehindWriters(w, best);
    } else {
      var i: nat :| Running(w, i) && !Waiting(w, i);
      assert CanStepBehindWriters(w, i);
    }
  }

  // ----- the programs of the source

  function Acquires(shards: seq<nat>, exclusive: bool): Program {
    seq(|shards|, i requires 0 <= i < |shards| => Acquire(ShardLock(shards[i]), exclusive))
  }

  function Releases(shards: seq<nat>): Program {
    seq(|shards|, i requires 0 <= i < |shards| => Release(ShardLock(shards[i])))
  }

  /** Lock the shards in ascending order, make the accesses, let go. */
  function Transaction(shards: seq<nat>, exclusive: bool, accesses: Program): Program {
    Acquires(shards, exclusive) + accesses + Releases(shards)
  }

  function Stored(text: Str): Cell { Some(Item(StringV(text), 0)) }

  function Keys(pairs: seq<(Str, Str)>): seq<Str> { seq(|pairs|, i requires 0 <= i < |pairs| => pairs[i].0) }

  /** A value that does not depend on what was read. */
  function Always(cell: Cell): seq<Seen> -> Cell { _ => cell }

  /** A value made of the cell read last. */
  function FromLast(act: Cell -> Cell): seq<Seen> -> Cell {
    (results: seq<Seen>) =>
      if results != [] && results[|results| - 1].One? then act(results[|results| - 1].cell) else None
  }

  function Writes(pairs: seq<(Str, Str)>): Program {
    seq(|pairs|, i requires 0 <= i < |pairs| => Write(pairs[i].0, Always(Stored(pairs[i].1))))
  }

  function Reads(keys: seq<Str>): Program { seq(|keys|, i requires 0 <= i < |keys| => Read(keys[i])) }

  /** Look a key up, which is what counts it, and erase it. */
  function Erasures(keys: seq<Str>): Program {
    seq(2 * |keys|, i requires 0 <= i < 2 * |keys| => if i % 2 == 0 then Read(keys[i / 2]) else Write(keys[i / 2], Always(None)))
  }

  /** mset: exclusive locks on the involved shards. */
  function Mset(pairs: seq<(Str, Str)>): Program { Transaction(Involved(Keys(pairs)), true, Writes(pairs)) }

  /** del of several keys. */
  function Del(keys: seq<Str>): Program { Transaction(Involved(keys), true, Erasures(keys)) }

  /** mget and exists: shared locks on the involved shards. */
  function Mget(keys: seq<Str>): Program { Transaction(Involved(keys), false, Reads(keys)) }

  /** Read whatever the first n tables hold. */
  function Scans(n: nat): Program { seq(n, i requires 0 <= i < n => Scan(i)) }

  /** get_all_entries: shared locks on all shards, then all the tables. */
  function Dump(): Program { Transaction(seq(NUM_SHARDS, i => i), false, Scans(NUM_SHARDS)) }

  /** A command on one key, which reads its cell and makes another of it, under the exclusive lock of its
      shard: INCRBY, HSET, a push, a pop, an expiry, the erasure of an expired key. */
  function Section(key: Str, act: Cell -> Cell): Program {
    [Acquire(LockOf(key), true), Read(key), Write(key, FromLast(act)), Release(LockOf(key))]
  }

  /** What mget and exists do to an expired key, after their shared locks are gone. */
  function Expired(now: nat): Cell -> Cell {
    (cell: Cell) => if cell.Some? && !Alive(cell.value.expireAt, now) then None else cell
  }

  predicate AscendingShards(shards: seq<nat>) { forall i, j :: 0 <= i < j < |shards| ==> shards[i] < shards[j] }

  function LocksOf(shards: seq<nat>, exclusive: bool): map<nat, bool> {
    if shards == [] then map[]
    else LocksOf(shards[..|shards| - 1], exclusive)[ShardLock(shards[|shards| - 1]) := exclusive]
  }

  lemma {:induction false} LocksOfDomain(shards: seq<nat>, exclusive: bool, r: nat)
    ensures r in LocksOf(shards, exclusive) <==> exists i :: 0 <= i < |shards| && ShardLock(shards[i]) == r
    ensures r in LocksOf(shards, exclusive) ==> LocksOf(shards, exclusive)[r] == exclusive
  {
    if shards != [] {
      var n := |shards| - 1;
      LocksOfDomain(shards[..n], exclusive, r);
      if exists i :: 0 <= i < |shards| && ShardLock(shards[i]) == r {
        var i :| 0 <= i < |shards| && ShardLock(shards[i]) == r;
        if i < n { assert ShardLock(shards[..n][i]) == r; }
      }
    }
  }

  lemma {:induction false} HeldWhileAcquiring(shards: seq<nat>, x: bool, p: Program, n: nat)
    requires n <= |shards| && |shards| <= |p| && p[..|shards|] == Acquires(shards, x)
    ensures Held(p, n) == LocksOf(shards[..n], x)
    decreases n
  {
    if n > 0 {
      HeldWhileAcquiring(shards, x, p, n - 1);
      assert p[n - 1] == p[..|shards|][n - 1] == Acquire(ShardLock(shards[n - 1]), x);
      assert shards[..n][..n - 1] == shards[..n - 1];
    }
  }

  lemma {:induction false} HeldWhileAccessing(p: Program, a: nat, b: nat)
    requires a <= b <= |p| && forall m :: a <= m < b ==> IsAccess(p[m])
    ensures Held(p, b) == Held(p, a)
    decreases b - a
  {
    if a < b { HeldWhileAccessing(p, a, b - 1); }
  }

  /** The releases drop the locks in the order they were taken. */
  lemma {:induction false} HeldWhileReleasing(shards: seq<nat>, p: Program, a: nat, n: nat, r: nat)
    requires a + n <= |p| && n <= |shards|
    requires forall m :: 0 <= m < n ==> p[a + m] == Release(ShardLock(shards[m]))
    ensures r in Held(p, a + n) <==> r in Held(p, a) && forall m :: 0 <= m < n ==> ShardLock(shards[m]) != r
    decreases n
  {
    if n > 0 {
      HeldWhileReleasing(shards, p, a, n - 1, r);
      assert p[a + (n - 1)] == Release(ShardLock(shards[n - 1]));
    }
  }

  /** The three parts of a transaction. */
  lemma TransactionParts(shards: seq<nat>, x: bool, accesses: Program)
    ensures var p := Transaction(shards, x, accesses); var a, b := |shards|, |shards| + |accesses|;
            |p| == b + |shards| && p[..a] == Acquires(shards, x)
            && (forall n :: 0 <= n < a ==> p[n] == Acquire(ShardLock(shards[n]), x))
            && (forall n :: a <= n < b ==> p[n] == accesses[n - a])
            && (forall m :: 0 <= m < |shards| ==> p[b + m] == Release(ShardLock(shards[m])))
            && (forall n :: b <= n < |p| ==> p[n].Release?)
  {
    var p := Transaction(shards, x, accesses);
    var b := |shards| + |accesses|;
    forall n | b <= n < |p| ensures p[n] == Release(ShardLock(shards[n - b])) {}
    assert forall m :: 0 <= m < |shards| ==> p[b + m] == Releases(shards)[m];
  }

  predicate Suits(shards: seq<nat>, x: bool, accesses: Program) {
    AscendingShards(shards) && |shards| > 0
    && (forall m :: 0 <= m < |accesses| ==> IsAccess(accesses[m]) && (accesses[m].Write? ==> x))
    && (forall m :: 0 <= m < |accesses| && IsAccess(accesses[m]) ==> ShardFor(accesses[m]) in shards)
  }

  lemma TransactionOrdered(shards: seq<nat>, x: bool, accesses: Program)
    requires Suits(shards, x, accesses)
    ensures Ordered(Transaction(shards, x, accesses))
  {
    hide Held, ShardIndex, Transaction, LocksOf, Acquires, Releases;
    var p := Transaction(shards, x, accesses);
    TransactionParts(shards, x, accesses);
    forall n, r | 0 <= n < |p| && p[n].Acquire? && r in Held(p, n)
      ensures r < p[n].lock
    {
      assert n < |shards|;
      HeldWhileAcquiring(shards, x, p, n);
      LocksOfDomain(shards[..n], x, r);
    }
  }

  lemma HeldByAccess(shards: seq<nat>, x: bool, accesses: Program, n: nat)
    requires Suits(shards, x, accesses) && |shards| <= n < |shards| + |accesses|
    ensures var p := Transaction(shards, x, accesses);
            n < |p| && IsAccess(p[n]) && LockFor(p[n]) in Held(p, n) && (p[n].Write? ==> Held(p, n)[LockFor(p[n])])
  {
    hide Held, ShardIndex, Transaction, LocksOf, Acquires, Releases;
    var p := Transaction(shards, x, accesses);
    TransactionParts(shards, x, accesses);
    HeldWhileAcquiring(shards, x, p, |shards|);
    assert shards[..|shards|] == shards;
    HeldWhileAccessing(p, |shards|, n);
    var shard := ShardFor(p[n]);
    assert shard in shards;
    LocksOfDomain(shards, x, ShardLock(shard));
  }

  lemma TransactionTwoPhase(shards: seq<nat>, x: bool, accesses: Program)
    requires Suits(shards, x, accesses)
    ensures TwoPhase(Transaction(shards, x, accesses))
  {
    hide Held, ShardIndex, Transaction, LocksOf, Acquires, Releases;
    var p := Transaction(shards, x, accesses);
    TransactionParts(shards, x, accesses);
    forall n | 0 <= n < |p| && IsAccess(p[n])
      ensures LockFor(p[n]) in Held(p, n) && (p[n].Write? ==> Held(p, n)[LockFor(p[n])])
    {
      assert |shards| <= n < |shards| + |accesses|;
      HeldByAccess(shards, x, accesses, n);
    }
  }

  lemma TransactionBalanced(shards: seq<nat>, x: bool, accesses: Program)
    requires Suits(shards, x, accesses)
    ensures Balanced(Transaction(shards, x, accesses))
  {
    hide Held, ShardIndex, Transaction, LocksOf, Acquires, Releases;
    var p := Transaction(shards, x, accesses);
    TransactionParts(shards, x, accesses);
    var b := |shards| + |accesses|;
    HeldWhileAcquiring(shards, x, p, |shards|);
    assert shards[..|shards|] == shards;
    HeldWhileAccessing(p, |shards|, b);
    forall r ensures r !in Held(p, |p|) {
      HeldWhileReleasing(shards, p, b, |shards|, r);
      LocksOfDomain(shards, x, r);
    }
  }

  /** Any transaction whose accesses fall into its shards is two-phase, ordered and balanced. */
  lemma TransactionDisciplined(shards: seq<nat>, x: bool, accesses: Program)
    requires Suits(shards, x, accesses)
    ensures TwoPhase(Transaction(shards, x, accesses))
    ensures Ordered(Transaction(shards, x, accesses))
    ensures Balanced(Transaction(shards, x, accesses))
  {
    TransactionTwoPhase(shards, x, accesses);
    TransactionOrdered(shards, x, accesses);
    TransactionBalanced(shards, x, accesses);
  }

  /** MSET, MGET, EXISTS, DEL, the dump and every command on one key keep the discipline, so Serializable
      and NoDeadlock apply to any mixture of them. */
  lemma SourceDisciplined(pairs: seq<(Str, Str)>, keys: seq<Str>, key: Str, act: Cell -> Cell)
    requires pairs != [] && keys != []
    ensures forall p :: p in [Mset(pairs), Del(keys), Mget(keys), Dump(), Section(key, act)] ==>
              TwoPhase(p) && Ordered(p) && Balanced(p)
  {
    hide TwoPhase, Ordered, Balanced, ShardIndex, Transaction, Involved, Section;
    var names := Keys(pairs);
    assert names[0] in names && keys[0] in keys;
    assert forall i :: 0 <= i < |pairs| ==> pairs[i].0 == names[i];
    TransactionDisciplined(Involved(names), true, Writes(pairs));
    TransactionDisciplined(Involved(keys), true, Erasures(keys));
    TransactionDisciplined(Involved(keys), false, Reads(keys));
    var all := seq(NUM_SHARDS, i => i);
    forall i | 0 <= i < NUM_SHARDS ensures i in all { assert all[i] == i; }
    TransactionDisciplined(all, false, Scans(NUM_SHARDS));
    SectionDisciplined(key, act);
  }

  lemma SectionDisciplined(key: Str, act: Cell -> Cell)
    ensures TwoPhase(Section(key, act)) && Ordered(Section(key, act)) && Balanced(Section(key, act))
  {
    hide TwoPhase, Ordered, Balanced, ShardIndex;
    var shards := [ShardIndex(key)];
    var p := Section(key, act);
    TransactionDisciplined(shards, true, p[1..3]);
    TransactionParts(shards, true, p[1..3]);
    assert Transaction(shards, true, p[1..3]) == p;
  }

  // ----- a whole command is an operation of the specification

  /** The accesses are all that matters. */
  lemma TransactionIs(shards: seq<nat>, x: bool, accesses: Program, s: Db)
    requires forall m :: 0 <= m < |accesses| ==> IsAccess(accesses[m])
    ensures Whole(Transaction(shards, x, accesses), s) == Whole(accesses, s)
  {
    hide Exec, Transaction;
    var p := Transaction(shards, x, accesses);
    TransactionParts(shards, x, accesses);
    PrefixIdle(p, |shards|, Memory(s, []));
    Middle(p, |shards|, accesses, 0, Memory(s, []));
  }

  lemma {:induction false} Middle(p: Program, a: nat, accesses: Program, n: nat, m: Memory)
    requires a + |accesses| <= |p| && n <= |accesses|
    requires forall i :: 0 <= i < |accesses| ==> p[a + i] == accesses[i]
    requires forall i :: a + |accesses| <= i < |p| ==> p[i].Release?
    ensures Exec(p, a + n, m) == Exec(accesses, n, m)
    decreases |accesses| - n
  {
    if n < |accesses| {
      assert p[a + n] == accesses[n];
      Middle(p, a, accesses, n + 1, Access(accesses[n], m));
    } else {
      SuffixIdle(p, a + n, m);
    }
  }

  lemma {:induction false} SuffixIdle(p: Program, n: nat, m: Memory)
    requires n <= |p| && forall i :: n <= i < |p| ==> p[i].Release?
    ensures Exec(p, n, m) == m
    decreases |p| - n
  {
    if n < |p| { SuffixIdle(p, n + 1, m); }
  }

  /** The last access of a program. */
  lemma {:induction false} ExecSnoc(p: Program, i: Instr, n: nat, m: Memory)
    requires n <= |p|
    ensures Exec(p + [i], n, m) == Access(i, Exec(p, n, m))
    decreases |p| - n
  {
    if n < |p| {
      assert (p + [i])[n] == p[n];
      ExecSnoc(p, i, n + 1, Access(p[n], m));
    } else {
      assert (p + [i])[n] == i;
      assert Exec(p + [i], n + 1, Access(i, m)) == Access(i, m);
    }
  }

  lemma {:induction false} WritesAre(pairs: seq<(Str, Str)>, s: Db)
    ensures Whole(Writes(pairs), s).store == MsetDb(s, pairs)
  {
    hide Exec;
    if pairs == [] {
      SuffixIdle(Writes(pairs), 0, Memory(s, []));
    } else {
      var n := |pairs| - 1;
      var last := Write(pairs[n].0, Always(Stored(pairs[n].1)));
      WritesAre(pairs[..n], s);
      assert Writes(pairs) == Writes(pairs[..n]) + [last];
      ExecSnoc(Writes(pairs[..n]), last, 0, Memory(s, []));
    }
  }

  function Cells(s: Db, keys: seq<Str>): seq<Seen> { seq(|keys|, i requires 0 <= i < |keys| => One(Lookup(s, keys[i]))) }

  function Tables(s: Db, n: nat): seq<Seen> { seq(n, i requires 0 <= i < n => Table(Part(s, i))) }

  lemma {:induction false} ReadsAre(keys: seq<Str>, s: Db)
    ensures Whole(Reads(keys), s) == Memory(s, Cells(s, keys))
  {
    hide Exec;
    if keys == [] {
      SuffixIdle(Reads(keys), 0, Memory(s, []));
    } else {
      var n := |keys| - 1;
      ReadsAre(keys[..n], s);
      assert Reads(keys) == Reads(keys[..n]) + [Read(keys[n])];
      ExecSnoc(Reads(keys[..n]), Read(keys[n]), 0, Memory(s, []));
      assert Cells(s, keys) == Cells(s, keys[..n]) + [One(Lookup(s, keys[n]))];
    }
  }

  lemma {:induction false} ScansAre(n: nat, s: Db)
    ensures Whole(Scans(n), s) == Memory(s, Tables(s, n))
  {
    hide Exec, Part;
    if n == 0 {
      SuffixIdle(Scans(0), 0, Memory(s, []));
    } else {
      ScansAre(n - 1, s);
      assert Scans(n) == Scans(n - 1) + [Scan(n - 1)];
      ExecSnoc(Scans(n - 1), Scan(n - 1), 0, Memory(s, []));
      assert Tables(s, n) == Tables(s, n - 1) + [Table(Part(s, n - 1))];
    }
  }

  /** All that was read of the tables, together. */
  function Joined(results: seq<Seen>): Db
    requires forall i :: 0 <= i < |results| ==> results[i].Table?
  {
    if results == [] then map[] else Joined(results[..|results| - 1]) + results[|results| - 1].part
  }

  lemma {:induction false} JoinedTables(s: Db, n: nat)
    ensures var d := Joined(Tables(s, n));
            forall k :: (k in d <==> k in s && ShardIndex(k) < n) && (k in d ==> d[k] == s[k])
  {
    hide ShardIndex, Part;
    if n > 0 {
      JoinedTables(s, n - 1);
      assert Tables(s, n)[..n - 1] == Tables(s, n - 1);
    }
  }

  /** How many of the cells read were there. */
  function Found(results: seq<Seen>): nat {
    if results == [] then 0
    else
      var last := results[|results| - 1];
      Found(results[..|results| - 1]) + if last.One? && last.cell.Some? then 1 else 0
  }

  lemma {:induction false} ErasuresAre(keys: seq<Str>, s: Db)
    ensures var m := Whole(Erasures(keys), s); m.store == DelDb(s, keys) && Found(m.results) == DelCount(s, keys)
  {
    hide Exec, Members, Found, DelDb, DelCount, Access, Erasures;
    if keys == [] {
      NothingErased(s);
    } else {
      var n := |keys| - 1;
      var before := Erasures(keys[..n]);
      ErasuresAre(keys[..n], s);
      ErasuresGrow(keys);
      ExecSnoc(before, Read(keys[n]), 0, Memory(s, []));
      ExecSnoc(before + [Read(keys[n])], Write(keys[n], Always(None)), 0, Memory(s, []));
      ErasureStep(Whole(before, s), keys[n]);
      OneMore(s, keys);
    }
  }

  lemma NothingErased(s: Db)
    ensures Whole(Erasures([]), s) == Memory(s, []) && Found([]) == 0 && DelDb(s, []) == s && DelCount(s, []) == 0
  {
    ValueLoops.NoMembers(s.Keys);
  }

  lemma ErasureStep(m: Memory, k: Str)
    ensures var t := Access(Write(k, Always(None)), Access(Read(k), m));
            t.store == m.store - {k} && Found(t.results) == Found(m.results) + if k in m.store then 1 else 0
  {
    assert (m.results + [One(Lookup(m.store, k))])[..|m.results|] == m.results;
  }

  lemma ErasuresGrow(keys: seq<Str>)
    requires keys != []
    ensures var n := |keys| - 1; Erasures(keys) == Erasures(keys[..n]) + [Read(keys[n])] + [Write(keys[n], Always(None))]
  {
  }

  lemma OneMore(s: Db, keys: seq<Str>)
    requires keys != []
    ensures var n := |keys| - 1; var d := DelDb(s, keys[..n]);
            DelDb(s, keys) == d - {keys[n]} && DelCount(s, keys) == DelCount(s, keys[..n]) + if keys[n] in d then 1 else 0
  {
    hide Members;
    var n := |keys| - 1;
    OneMoreMember(keys);
    OneMoreCounted(s.Keys, Members(keys[..n]), keys[n]);
  }

  lemma OneMoreMember(keys: seq<Str>)
    requires keys != []
    ensures var n := |keys| - 1; Members(keys) == Members(keys[..n]) + {keys[n]}
  {
    var n := |keys| - 1;
    assert keys == keys[..n] + [keys[n]];
  }

  lemma OneMoreCounted(s: set<Str>, a: set<Str>, k: Str)
    ensures |s * (a + {k})| == |s * a| + if k in s && k !in a then 1 else 0
  {
    if k in s && k !in a {
      assert s * (a + {k}) == s * a + {k};
    } else {
      assert s * (a + {k}) == s * a;
    }
  }

  /** Alone, each of these commands does to the flat map what its operation does, and its answer is made
      of what it reads: MSET, DEL with its count, MGET, EXISTS and the dump, and any operation on one
      key. */
  lemma CommandsAreOperations(pairs: seq<(Str, Str)>, keys: seq<Str>, key: Str, act: Cell -> Cell, s: Db)
    ensures Whole(Mset(pairs), s).store == MsetDb(s, pairs)
    ensures var m := Whole(Del(keys), s); m.store == DelDb(s, keys) && Found(m.results) == DelCount(s, keys)
    ensures Whole(Mget(keys), s) == Memory(s, Cells(s, keys))
    ensures Whole(Dump(), s) == Memory(s, Tables(s, NUM_SHARDS)) && Joined(Tables(s, NUM_SHARDS)) == s
    ensures Whole(Section(key, act), s) == Memory(Update(s, key, act(Lookup(s, key))), [One(Lookup(s, key))])
  {
    hide Whole, Transaction, Involved, Section;
    TransactionIs(Involved(Keys(pairs)), true, Writes(pairs), s);
    TransactionIs(Involved(keys), true, Erasures(keys), s);
    TransactionIs(Involved(keys), false, Reads(keys), s);
    TransactionIs(seq(NUM_SHARDS, i => i), false, Scans(NUM_SHARDS), s);
    WritesAre(pairs, s);
    ErasuresAre(keys, s);
    ReadsAre(keys, s);
    ScansAre(NUM_SHARDS, s);
    JoinedTables(s, NUM_SHARDS);
    SectionIs(key, act, s);
  }

  lemma SectionIs(key: Str, act: Cell -> Cell, s: Db)
    ensures Whole(Section(key, act), s) == Memory(Update(s, key, act(Lookup(s, key))), [One(Lookup(s, key))])
  {
    hide ShardIndex, Lookup, Update;
    var p := Section(key, act);
    var a := Access(p[1], Memory(s, []));
    var b := Access(p[2], a);
    SuffixIdle(p, 3, b);
    assert Exec(p, 2, a) == b && Exec(p, 1, Memory(s, [])) == b;
  }

  /** Two readers of a key may both be inside; a writer and another client may not, whoever came first;
      and writers of keys in different shards do not wait for each other. */
  lemma Sharing(key: Str, other: Str, act: Cell -> Cell, s: Db)
    ensures Possible(Start([Mget([key]), Mget([key])], s), [0, 1])
    ensures Possible(Start([Section(key, act), Mget([key])], s), [0]) && !Possible(Start([Section(key, act), Mget([key])], s), [0, 1])
    ensures Possible(Start([Mget([key]), Section(key, act)], s), [0]) && !Possible(Start([Mget([key]), Section(key, act)], s), [0, 1])
    ensures Possible(Start([Section(key, act), Section(other, act)], s), [0, 1]) <==> ShardIndex(key) != ShardIndex(other)
  {
    hide ShardIndex, Mget, Section, Possible, Start;
    OneReader(key);
    FirstOf(key, act);
    FirstOf(other, act);
    TwoFirst(Mget([key]), Mget([key]), LockOf(key), false, LockOf(key), false, s);
    TwoFirst(Section(key, act), Mget([key]), LockOf(key), true, LockOf(key), false, s);
    TwoFirst(Mget([key]), Section(key, act), LockOf(key), false, LockOf(key), true, s);
    TwoFirst(Section(key, act), Section(other, act), LockOf(key), true, LockOf(other), true, s);
  }

  lemma FirstOf(key: Str, act: Cell -> Cell)
    ensures Section(key, act) != [] && Section(key, act)[0] == Acquire(LockOf(key), true)
  {
  }

  lemma OneReader(key: Str)
    ensures Mget([key]) != [] && Mget([key])[0] == Acquire(LockOf(key), false)
  {
    hide ShardIndex;
    var shards := Involved([key]);
    assert key in [key];
    assert forall x :: x in shards ==> x == ShardIndex(key);
    assert shards[0] in shards;
    assert Mget([key])[0] == Acquires(shards, false)[0];
  }

  /** Two clients that each begin by taking a lock. */
  lemma TwoFirst(p: Program, q: Program, a: nat, x: bool, b: nat, y: bool, s: Db)
    requires p != [] && q != [] && p[0] == Acquire(a, x) && q[0] == Acquire(b, y)
    ensures Possible(Start([p, q], s), [0])
    ensures Possible(Start([p, q], s), [0, 1]) <==> a != b || (!x && !y)
  {
    var w := Start([p, q], s);
    assert w.clients == [Client(p, 0, []), Client(q, 0, [])];
    assert Held(p, 0) == map[] && Held(q, 0) == map[];
    assert CanStep(w, 0);
    var v := Step(w, 0);
    assert v.clients[0].pc == 1 && v.clients[1] == w.clients[1];
    assert Held(p, 1) == map[a := x] by { assert Held(p, 1) == Held(p, 0)[a := x]; }
    assert HeldBy(v, 0) == map[a := x] && HeldBy(v, 1) == map[];
    assert Wf(v);
    assert CanStep(v, 1) <==> a != b || (!x && !y);
    assert [0][1..] == [] && [0, 1][1..] == [1] && [1][1..] == [];
  }

  /** Erasing an expired key changes nothing anyone can see. */
  lemma ErasureUnobservable(s: Db, key: Str, now: nat)
    ensures LiveItems(Whole(Section(key, Expired(now)), s).store, now) == LiveItems(s, now)
  {
    hide Whole;
    SectionIs(key, Expired(now), s);
  }

  // ----- clients that lock more than once

  function Sections(keys: seq<Str>, act: Cell -> Cell): Program
    decreases |keys|
  {
    if keys == [] then [] else Sections(keys[..|keys| - 1], act) + Section(keys[|keys| - 1], act)
  }

  /** A push: change the list under its shard lock, let go, then take blocked_mutex_ and, inside it,
      one shard lock after the other for the keys a waiter watches. */
  function Push(key: Str, watched: seq<Str>, push: Cell -> Cell, pop: Cell -> Cell): Program {
    Section(key, push) + [Acquire(BLOCKED_MUTEX, true)] + Sections(watched, pop) + [Release(BLOCKED_MUTEX)]
  }

  /** mget and exists with the erasure of the expired keys they met, one lock at a time. */
  function MgetErasing(keys: seq<Str>, expired: seq<Str>, now: nat): Program { Mget(keys) + Sections(expired, Expired(now)) }

  lemma {:induction false} HeldPrefix(p: Program, q: Program, n: nat)
    requires n <= |p|
    ensures Held(p + q, n) == Held(p, n)
    decreases n
  {
    if n > 0 { HeldPrefix(p, q, n - 1); }
  }

  predicate OrderedUpTo(p: Program, held: map<nat, bool>) {
    Ordered(p) && Held(p, |p|) == held
  }

  lemma AppendInstr(p: Program, i: Instr, held: map<nat, bool>)
    requires OrderedUpTo(p, held)
    requires i.Acquire? ==> forall r :: r in held ==> r < i.lock
    ensures OrderedUpTo(p + [i], match i case Acquire(r, x) => held[r := x] case Release(r) => held - {r} case _ => held)
  {
    var q := p + [i];
    forall n | 0 <= n <= |p| ensures Held(q, n) == Held(p, n) { HeldPrefix(p, [i], n); }
    assert forall n :: 0 <= n < |p| ==> q[n] == p[n];
  }

  lemma AppendSection(p: Program, key: Str, act: Cell -> Cell, held: map<nat, bool>)
    requires OrderedUpTo(p, held) && forall r :: r in held ==> r == BLOCKED_MUTEX
    ensures OrderedUpTo(p + Section(key, act), held)
  {
    hide OrderedUpTo, ShardIndex, FromLast;
    var l := LockOf(key);
    AppendInstr(p, Acquire(l, true), held);
    var p1 := p + [Acquire(l, true)];
    AppendInstr(p1, Read(key), held[l := true]);
    AppendInstr(p1 + [Read(key)], Write(key, FromLast(act)), held[l := true]);
    AppendInstr(p1 + [Read(key)] + [Write(key, FromLast(act))], Release(l), held[l := true]);
    assert held[l := true] - {l} == held;
    assert p1 + [Read(key)] + [Write(key, FromLast(act))] + [Release(l)] == p + Section(key, act);
  }

  lemma {:induction false} AppendSections(p: Program, keys: seq<Str>, act: Cell -> Cell, held: map<nat, bool>)
    requires OrderedUpTo(p, held) && forall r :: r in held ==> r == BLOCKED_MUTEX
    ensures OrderedUpTo(p + Sections(keys, act), held)
    decreases |keys|
  {
    hide OrderedUpTo, Section;
    if keys == [] {
      assert p + Sections(keys, act) == p;
    } else {
      var n := |keys| - 1;
      AppendSections(p, keys[..n], act, held);
      AppendSection(p + Sections(keys[..n], act), keys[n], act, held);
      assert p + Sections(keys, act) == p + Sections(keys[..n], act) + Section(keys[n], act);
    }
  }

  /** Pushes with their waiter notification, and MGET and EXISTS with the erasure that follows, keep the
      lock order too, so they may join the clients of NoDeadlock. */
  lemma LongerClientsOrdered(key: Str, watched: seq<Str>, push: Cell -> Cell, pop: Cell -> Cell,
                             keys: seq<Str>, expired: seq<Str>, now: nat)
    requires keys != []
    ensures Ordered(Push(key, watched, push, pop)) && Balanced(Push(key, watched, push, pop))
    ensures Ordered(MgetErasing(keys, expired, now)) && Balanced(MgetErasing(keys, expired, now))
  {
    hide Sections, Section, Mget, Held, TwoPhase;
    var none: map<nat, bool> := map[];
    NothingHeld();
    AppendSection([], key, push, none);
    assert [] + Section(key, push) == Section(key, push);
    AppendInstr(Section(key, push), Acquire(BLOCKED_MUTEX, true), none);
    var p := Section(key, push) + [Acquire(BLOCKED_MUTEX, true)];
    AppendSections(p, watched, pop, none[BLOCKED_MUTEX := true]);
    AppendInstr(p + Sections(watched, pop), Release(BLOCKED_MUTEX), none[BLOCKED_MUTEX := true]);
    assert none[BLOCKED_MUTEX := true] - {BLOCKED_MUTEX} == none;
    SourceDisciplined([(key, key)], keys, key, pop);
    assert Mget(keys) in [Mset([(key, key)]), Del(keys), Mget(keys), Dump(), Section(key, pop)];
    AppendSections(Mget(keys), expired, Expired(now), none);
  }

  lemma NothingHeld()
    ensures OrderedUpTo([], map[])
  {
  }
}
