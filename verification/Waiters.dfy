/** Blocking pops (store.hpp): the queue of waiting clients beside the lists. Every pushed element is
    in a list, popped, or handed to a waiter; every registration is answered at most once; and a push
    serves the earliest watcher that can be served. */
module Waiters {
  import opened Bytes
  import opened Keyspace
  import opened StoreModel
  import Memory
  import Runs

  /** A client waiting on some lists. ticket numbers the registrations. */
  datatype Waiter = Waiter(client: nat, keys: seq<Str>, deadline: Option<nat>, ticket: nat)

  datatype Answer = Value(key: Str, element: Str) | TimedOut

  datatype Delivery = Delivery(client: nat, ticket: nat, answer: Answer)

  // ----- try_pop_keys

  datatype Attempt = Success(key: Str, element: Str) | Refused | Nothing

  datatype Tried = Tried(attempt: Attempt, db: Db)

  /** Pops from the first of the lists that has an element; a key of another type ends the attempt. */
  function TryPop(db: Db, keys: seq<Str>): Tried
    decreases |keys|
  {
    if keys == [] then Tried(Nothing, db)
    else
      var e := PopAct(Lookup(db, keys[0]), 1, false);
      if e.reply.WrongType? then Tried(Refused, db)
      else if e.reply.Popped? && e.reply.popped != [] then
        Tried(Success(keys[0], e.reply.popped[0]), Update(db, keys[0], e.cell))
      else TryPop(db, keys[1..])
  }

  /** The keys before the one served are absent. */
  lemma {:induction false} TryPopSkipsAbsent(db: Db, keys: seq<Str>)
    requires NoEmptyIn(db)
    ensures var t := TryPop(db, keys);
            (t.attempt.Nothing? <==> forall k :: k in keys ==> k !in db)
            && (!t.attempt.Success? ==> t.db == db)
            && (t.attempt.Success? ==> t.attempt.key in keys && t.attempt.key in db && db[t.attempt.key].value.ListV?)
    decreases |keys|
  {
    hide Update;
    if keys != [] {
      TryPopSkipsAbsent(db, keys[1..]);
      assert keys == [keys[0]] + keys[1..];
    }
  }

  /** The first of the keys that is present holds a list. */
  predicate FindsList(db: Db, keys: seq<Str>)
    decreases |keys|
  {
    keys != [] && if keys[0] in db then db[keys[0]].value.ListV? else FindsList(db, keys[1..])
  }

  /** An attempt succeeds exactly there. */
  lemma {:induction false} TryPopFindsList(db: Db, keys: seq<Str>)
    requires NoEmptyIn(db)
    ensures TryPop(db, keys).attempt.Success? <==> FindsList(db, keys)
    decreases |keys|
  {
    hide Update;
    if keys != [] { TryPopFindsList(db, keys[1..]); }
  }

  /** The waiter a push on key serves, or |waiters|. */
  function Served(waiters: seq<Waiter>, key: Str, db: Db, from: nat): (i: nat)
    requires from <= |waiters|
    ensures from <= i <= |waiters|
    ensures i < |waiters| ==> key in waiters[i].keys && TryPop(db, waiters[i].keys).attempt.Success?
    ensures forall j :: from <= j < i ==> key !in waiters[j].keys || !TryPop(db, waiters[j].keys).attempt.Success?
    decreases |waiters| - from
  {
    if from == |waiters| then from
    else if key in waiters[from].keys && TryPop(db, waiters[from].keys).attempt.Success? then from
    else Served(waiters, key, db, from + 1)
  }

  datatype Notified = Notified(waiters: seq<Waiter>, delivered: seq<Delivery>, db: Db)

  /** The queue, the answers and the lists after a notification for key. */
  function Notifying(waiters: seq<Waiter>, delivered: seq<Delivery>, key: Str, db: Db): Notified {
    var i := Served(waiters, key, db, 0);
    if i == |waiters| then Notified(waiters, delivered, db)
    else
      var t := TryPop(db, waiters[i].keys);
      Notified(waiters[..i] + waiters[i + 1..],
               delivered + [Delivery(waiters[i].client, waiters[i].ticket, Value(t.attempt.key, t.attempt.element))], t.db)
  }

  function Without(waiters: seq<Waiter>, client: nat): seq<Waiter> {
    if waiters == [] then []
    else
      var n := |waiters| - 1;
      if waiters[n].client == client then Without(waiters[..n], client) else Without(waiters[..n], client) + [waiters[n]]
  }

  /** The queue after a registration: the client's older one is dropped unanswered. */
  function Registered(waiters: seq<Waiter>, client: nat, keys: seq<Str>, timeoutSeconds: nat, now: nat, ticket: nat): seq<Waiter> {
    Without(waiters, client)
    + [Waiter(client, keys, if timeoutSeconds > 0 then Some(now + 1000 * timeoutSeconds) else None, ticket)]
  }

  predicate Late(w: Waiter, now: nat) { w.deadline.Some? && now >= w.deadline.value }

  /** The waiters whose time is up, in order, and the others. */
  function Expiring(waiters: seq<Waiter>, now: nat): seq<Delivery> {
    if waiters == [] then []
    else
      var n := |waiters| - 1;
      var w := waiters[n];
      if Late(w, now) then Expiring(waiters[..n], now) + [Delivery(w.client, w.ticket, TimedOut)] else Expiring(waiters[..n], now)
  }

  function Staying(waiters: seq<Waiter>, now: nat): seq<Waiter> {
    if waiters == [] then []
    else
      var n := |waiters| - 1;
      if Late(waiters[n], now) then Staying(waiters[..n], now) else Staying(waiters[..n], now) + [waiters[n]]
  }

  lemma NothingChecked(waiters: seq<Waiter>, now: nat)
    ensures Staying(waiters[..0], now) == [] && Expiring(waiters[..0], now) == []
  {
  }

  lemma CheckedOne(waiters: seq<Waiter>, p: nat, now: nat)
    requires p < |waiters|
    ensures var w := waiters[p]; var staying, expiring := Staying(waiters[..p], now), Expiring(waiters[..p], now);
            Staying(waiters[..p + 1], now) == (if Late(w, now) then staying else staying + [w])
            && Expiring(waiters[..p + 1], now) == (if Late(w, now) then expiring + [Delivery(w.client, w.ticket, TimedOut)] else expiring)
  {
    assert waiters[..p + 1][..p] == waiters[..p];
  }

  lemma Shifted(s: seq<Waiter>, i: nat)
    requires i < |s|
    ensures (s[..i] + s[i + 1..])[..i] == s[..i] && (s[..i] + s[i + 1..])[i..] == s[i..][1..]
    ensures s[..i + 1] == s[..i] + [s[i]] && s[i + 1..] == s[i..][1..]
  {
  }

  // ----- the bookkeeping of registrations

  /** One waiter a client, one number a registration, and no registration both waiting and answered or
      answered twice. */
  ghost predicate Orderly(waiters: seq<Waiter>, delivered: seq<Delivery>, registered: nat) {
    (forall i, j :: 0 <= i < j < |waiters| ==> waiters[i].client != waiters[j].client && waiters[i].ticket != waiters[j].ticket)
    && (forall i :: 0 <= i < |waiters| ==> waiters[i].ticket < registered)
    && (forall i :: 0 <= i < |delivered| ==> delivered[i].ticket < registered)
    && (forall i, j :: 0 <= i < j < |delivered| ==> delivered[i].ticket != delivered[j].ticket)
    && (forall i, j :: 0 <= i < |waiters| && 0 <= j < |delivered| ==> waiters[i].ticket != delivered[j].ticket)
  }

  lemma RegisterKeeps(waiters: seq<Waiter>, delivered: seq<Delivery>, registered: nat, w: Waiter)
    requires Orderly(waiters, delivered, registered) && w.ticket == registered
    requires forall i :: 0 <= i < |waiters| ==> waiters[i].client != w.client
    ensures Orderly(waiters + [w], delivered, registered + 1)
  {
  }

  lemma RemoveKeeps(waiters: seq<Waiter>, delivered: seq<Delivery>, registered: nat, i: nat)
    requires Orderly(waiters, delivered, registered) && i < |waiters|
    ensures Orderly(waiters[..i] + waiters[i + 1..], delivered, registered)
  {
  }

  /** Answering a waiting registration moves its number from one side to the other. */
  lemma AnswerKeeps(waiters: seq<Waiter>, delivered: seq<Delivery>, registered: nat, i: nat, answer: Answer)
    requires Orderly(waiters, delivered, registered) && i < |waiters|
    ensures Orderly(waiters[..i] + waiters[i + 1..],
                    delivered + [Delivery(waiters[i].client, waiters[i].ticket, answer)], registered)
  {
  }

  lemma {:induction false} WithoutClient(waiters: seq<Waiter>, client: nat)
    ensures forall i :: 0 <= i < |Without(waiters, client)| ==> Without(waiters, client)[i].client != client
  {
    if waiters != [] { WithoutClient(waiters[..|waiters| - 1], client); }
  }

  // ----- the elements of all lists

  function ListElements(v: Value): multiset<Str> { if v.ListV? then multiset(v.elements) else multiset{} }

  function CellElements(cell: Cell): multiset<Str> { if cell.Some? then ListElements(cell.value.value) else multiset{} }

  ghost function Elements(db: Db): multiset<Str>
    decreases |db|
  {
    if db == map[] then multiset{}
    else
      var k := Memory.Pick(db.Keys);
      Memory.Smaller(db, k);
      ListElements(db[k].value) + Elements(db - {k})
  }

  lemma ElementsPicked(db: Db)
    requires db != map[]
    ensures var k := Memory.Pick(db.Keys); k in db && Elements(db) == ListElements(db[k].value) + Elements(db - {k})
  {
  }

  lemma Exchange(a: multiset<Str>, b: multiset<Str>, rest: multiset<Str>)
    ensures a + (b + rest) == b + (a + rest)
  {
  }

  lemma {:induction false} ElementsWithout(db: Db, key: Str)
    requires key in db
    ensures Elements(db) == ListElements(db[key].value) + Elements(db - {key})
    decreases |db|
  {
    hide ListElements, Elements;
    Memory.Smaller(db, key);
    ElementsPicked(db);
    var c := Memory.Pick(db.Keys);
    Memory.Smaller(db, c);
    if c != key {
      ElementsWithout(db - {c}, key);
      ElementsWithout(db - {key}, c);
      assert db - {c} - {key} == db - {key} - {c};
      Exchange(ListElements(db[c].value), ListElements(db[key].value), Elements(db - {c} - {key}));
    }
  }

  lemma ElementsErase(db: Db, key: Str)
    ensures Elements(db) == CellElements(Lookup(db, key)) + Elements(db - {key})
  {
    hide ListElements, Elements;
    if key in db { ElementsWithout(db, key); } else { assert db - {key} == db; }
  }

  lemma ElementsUpdate(db: Db, key: Str, cell: Cell)
    ensures Elements(Update(db, key, cell)) + CellElements(Lookup(db, key)) == Elements(db) + CellElements(cell)
  {
    hide Elements;
    var after := Update(db, key, cell);
    ElementsErase(db, key);
    ElementsErase(after, key);
    assert after - {key} == db - {key};
    assert Lookup(after, key) == cell;
  }

  lemma {:induction false} ReversedElements(s: seq<Str>)
    ensures multiset(Reversed(s)) == multiset(s)
  {
    if s != [] {
      var n := |s| - 1;
      ReversedElements(s[..n]);
      assert s == s[..n] + [s[n]];
    }
  }

  /** A push adds exactly the pushed elements to the list. */
  lemma PushElements(cell: Cell, values: seq<Str>, left: bool)
    ensures var e := PushAct(cell, values, left);
            CellElements(e.cell) == CellElements(cell) + if e.reply.Count? then multiset(values) else multiset{}
  {
    hide Reversed;
    ReversedElements(values);
  }

  lemma Parts(l: seq<Str>, a: seq<Str>, b: seq<Str>)
    requires l == a + b
    ensures multiset(l) == multiset(a) + multiset(b)
  {
  }

  /** The elements a pop takes, in pop order, and those it leaves. */
  function Taken(l: seq<Str>, n: nat, left: bool): seq<Str>
    requires n <= |l|
  {
    if left then l[..n] else Reversed(l[|l| - n..])
  }

  function Kept(l: seq<Str>, n: nat, left: bool): seq<Str>
    requires n <= |l|
  {
    if left then l[n..] else l[..|l| - n]
  }

  lemma PopParts(l: seq<Str>, n: nat, left: bool)
    requires n <= |l|
    ensures multiset(l) == multiset(Kept(l, n, left)) + multiset(Taken(l, n, left))
  {
    hide Reversed;
    if left {
      Parts(l, l[..n], l[n..]);
    } else {
      ReversedElements(l[|l| - n..]);
      Parts(l, l[..|l| - n], l[|l| - n..]);
    }
  }

  /** What is left of a list, as a cell. */
  function Rest(item: Item, rest: seq<Str>): Cell { if rest == [] then None else Some(item.(value := ListV(rest))) }

  lemma RestElements(item: Item, rest: seq<Str>)
    ensures CellElements(Rest(item, rest)) == multiset(rest)
  {
  }

  lemma PopSplits(item: Item, count: nat, left: bool)
    requires item.value.ListV? && item.value.elements != []
    ensures var l := item.value.elements; var n := Min(count, |l|);
            PopAct(Some(item), count, left) == Effect(Rest(item, Kept(l, n, left)), Popped(Taken(l, n, left)))
  {
    hide Reversed;
  }

  lemma NothingToPop(cell: Cell, count: nat, left: bool)
    requires cell.None? || !cell.value.value.ListV? || cell.value.value.elements == []
    ensures var e := PopAct(cell, count, left); !e.reply.Popped? && CellElements(e.cell) == CellElements(cell)
  {
  }

  /** A pop takes exactly the popped elements out of it. */
  lemma PopElements(cell: Cell, count: nat, left: bool)
    ensures var e := PopAct(cell, count, left);
            CellElements(cell) == CellElements(e.cell) + if e.reply.Popped? then multiset(e.reply.popped) else multiset{}
  {
    hide PopAct, Rest, Kept, Taken;
    if cell.Some? && cell.value.value.ListV? && cell.value.value.elements != [] {
      var l := cell.value.value.elements;
      var n := Min(count, |l|);
      PopSplits(cell.value, count, left);
      RestElements(cell.value, Kept(l, n, left));
      PopParts(l, n, left);
    } else {
      NothingToPop(cell, count, left);
    }
  }

  function AnswerElements(a: Answer): multiset<Str> { if a.Value? then multiset{a.element} else multiset{} }

  /** The elements handed to waiters. */
  function Handed(delivered: seq<Delivery>): multiset<Str> {
    if delivered == [] then multiset{}
    else Handed(delivered[..|delivered| - 1]) + AnswerElements(delivered[|delivered| - 1].answer)
  }

  lemma HandedOne(delivered: seq<Delivery>, d: Delivery)
    ensures Handed(delivered + [d]) == Handed(delivered) + AnswerElements(d.answer)
  {
    assert (delivered + [d])[..|delivered|] == delivered;
  }

  predicate Timeless(db: Db) { forall k :: k in db ==> db[k].expireAt == 0 }

  lemma TimelessUpdate(db: Db, key: Str, count: nat)
    requires Timeless(db)
    ensures Timeless(Update(db, key, PopAct(Lookup(db, key), count, false).cell))
  {
  }

  /** One successful pop moves one element out of the lists. */
  lemma OneTaken(db: Db, key: Str)
    requires PopAct(Lookup(db, key), 1, false).reply.Popped?
    ensures var e := PopAct(Lookup(db, key), 1, false);
            |e.reply.popped| == 1 && Elements(db) == Elements(Update(db, key, e.cell)) + multiset{e.reply.popped[0]}
  {
    hide Elements, PopAct, CellElements, Update, Lookup;
    var e := PopAct(Lookup(db, key), 1, false);
    PopElements(Lookup(db, key), 1, false);
    ElementsUpdate(db, key, e.cell);
    OnePopped(Lookup(db, key));
    Balance(Elements(Update(db, key, e.cell)), CellElements(Lookup(db, key)), Elements(db), CellElements(e.cell),
            multiset(e.reply.popped));
  }

  lemma TryPopUnfold(db: Db, keys: seq<Str>)
    requires keys != []
    ensures var e := PopAct(Lookup(db, keys[0]), 1, false);
            if e.reply.WrongType? then TryPop(db, keys) == Tried(Refused, db)
            else if e.reply.Popped? && e.reply.popped != [] then
              TryPop(db, keys) == Tried(Success(keys[0], e.reply.popped[0]), Update(db, keys[0], e.cell))
            else TryPop(db, keys) == TryPop(db, keys[1..])
  {
    hide PopAct, Lookup, Update;
  }

  lemma {:induction false} TryPopElements(db: Db, keys: seq<Str>)
    requires NoEmptyIn(db) && Timeless(db)
    ensures var t := TryPop(db, keys);
            Elements(db) == Elements(t.db) + (if t.attempt.Success? then multiset{t.attempt.element} else multiset{})
            && Timeless(t.db)
    decreases |keys|
  {
    if keys == [] {
      assert TryPop(db, keys) == Tried(Nothing, db);
    } else {
      hide Elements, PopAct, CellElements, Timeless, Update, NoEmptyIn, Lookup, TryPop;
      TryPopElements(db, keys[1..]);
      TryPopUnfold(db, keys);
      TimelessUpdate(db, keys[0], 1);
      if PopAct(Lookup(db, keys[0]), 1, false).reply.Popped? { OneTaken(db, keys[0]); }
    }
  }

  lemma Balance(after: multiset<Str>, cell: multiset<Str>, before: multiset<Str>, rest: multiset<Str>, popped: multiset<Str>)
    requires after + cell == before + rest && cell == rest + popped
    ensures before == after + popped
  {
    forall x ensures before[x] == (after + popped)[x] { assert (after + cell)[x] == (before + rest)[x]; }
  }

  lemma OnePopped(cell: Cell)
    ensures var e := PopAct(cell, 1, false);
            e.reply.Popped? ==> |e.reply.popped| == 1 && multiset(e.reply.popped) == multiset{e.reply.popped[0]}
  {
    var e := PopAct(cell, 1, false);
    if e.reply.Popped? { assert e.reply.popped == [e.reply.popped[0]]; }
  }

  // ----- the object

  class BlockedPops {
    const store: Store
    var waiters: seq<Waiter>
    var delivered: seq<Delivery>
    var registered: nat

    ghost predicate Valid()
      reads this, store
    {
      store.Valid() && store.NoEmpty() && Orderly(waiters, delivered, registered)
    }

    constructor (store: Store)
      requires store.Valid() && store.items == map[]
      ensures Valid() && this.store == store && waiters == [] && delivered == [] && registered == 0
    {
      this.store, waiters, delivered, registered := store, [], [], 0;
    }

    /** try_pop_keys. */
    method TryPopKeys(keys: seq<Str>, now: nat) returns (attempt: Attempt)
      requires store.Valid() && store.NoEmpty()
      modifies store
      ensures store.Valid() && store.NoEmpty()
      ensures attempt == TryPop(old(store.Live(now)), keys).attempt
      ensures store.Live(now) == TryPop(old(store.Live(now)), keys).db
    {
      hide Store.Shaped, IndexOf, NoEmptyIn, LiveItems, Lookup, Update, PopAct;
      ghost var db := store.Live(now);
      for i := 0 to |keys|
        invariant store.Valid() && store.NoEmpty()
        invariant store.Live(now) == db && TryPop(db, keys) == TryPop(db, keys[i..])
      {
        assert keys[i..][0] == keys[i] && keys[i..][1..] == keys[i + 1..];
        LiveNoEmpty(store.items, now);
        PopFails(db, keys[i]);
        var reply := store.Pop(keys[i], 1, false, now);
        if reply.WrongType? { return Refused; }
        if reply.Popped? && reply.popped != [] { return Success(keys[i], reply.popped[0]); }
      }
      attempt := Nothing;
    }

    /** register_blocked_pop. */
    method Register(client: nat, keys: seq<Str>, timeoutSeconds: nat, now: nat)
      requires Valid()
      modifies this`waiters, this`registered
      ensures Valid() && registered == old(registered) + 1
      ensures waiters == Registered(old(waiters), client, keys, timeoutSeconds, now, old(registered))
    {
      Cancel(client);
      WithoutClient(old(waiters), client);
      var deadline := if timeoutSeconds > 0 then Some(now + 1000 * timeoutSeconds) else None;
      var w := Waiter(client, keys, deadline, registered);
      RegisterKeeps(waiters, delivered, registered, w);
      waiters, registered := waiters + [w], registered + 1;
    }

    /** cancel_blocked_pop. */
    method Cancel(client: nat)
      requires Valid()
      modifies this`waiters
      ensures Valid() && waiters == Without(old(waiters), client)
    {
      hide Orderly, Store.Shaped;
      var it := 0;
      ghost var p := 0;
      while it < |waiters|
        invariant Orderly(waiters, delivered, registered)
        invariant it <= |waiters| && p <= |old(waiters)| && waiters[..it] == Without(old(waiters)[..p], client)
        invariant waiters[it..] == old(waiters)[p..]
        decreases |waiters| - it
      {
        assert old(waiters)[..p + 1][..p] == old(waiters)[..p] && waiters[it] == old(waiters)[p];
        if waiters[it].client == client {
          RemoveKeeps(waiters, delivered, registered, it);
          waiters := waiters[..it] + waiters[it + 1..];
        } else {
          it := it + 1;
        }
        p := p + 1;
      }
      assert waiters[..it] == waiters && old(waiters)[..p] == old(waiters);
    }

    /** Takes a waiter off the queue and answers it. */
    method AnswerAt(i: nat, answer: Answer)
      requires Orderly(waiters, delivered, registered) && i < |waiters|
      modifies this`waiters, this`delivered
      ensures Orderly(waiters, delivered, registered)
      ensures waiters == old(waiters)[..i] + old(waiters)[i + 1..]
      ensures delivered == old(delivered) + [Delivery(old(waiters)[i].client, old(waiters)[i].ticket, answer)]
    {
      hide Orderly;
      AnswerKeeps(waiters, delivered, registered, i, answer);
      var d := Delivery(waiters[i].client, waiters[i].ticket, answer);
      delivered := delivered + [d];
      waiters := waiters[..i] + waiters[i + 1..];
    }

    /** check_blocked_pop_timeouts. */
    method CheckTimeouts(now: nat)
      requires Valid()
      modifies this`waiters, this`delivered
      ensures Valid() && waiters == Staying(old(waiters), now) && delivered == old(delivered) + Expiring(old(waiters), now)
    {
      hide Orderly, Store.Shaped, Staying, Expiring;
      var it := 0;
      ghost var p := 0;
      NothingChecked(waiters, now);
      assert delivered == old(delivered) + [];
      while it < |waiters|
        invariant Orderly(waiters, delivered, registered)
        invariant it <= |waiters| && p <= |old(waiters)| && waiters[..it] == Staying(old(waiters)[..p], now)
        invariant waiters[it..] == old(waiters)[p..] && delivered == old(delivered) + Expiring(old(waiters)[..p], now)
        decreases |waiters| - it
      {
        assert waiters[it] == waiters[it..][0] == old(waiters)[p];
        CheckedOne(old(waiters), p, now);
        Shifted(waiters, it);
        Shifted(old(waiters), p);
        if Late(waiters[it], now) { AnswerAt(it, TimedOut); } else { it := it + 1; }
        p := p + 1;
      }
      assert waiters[..it] == waiters && old(waiters)[..p] == old(waiters);
    }

    /** notify_blocked_waiter_for_key: at most one waiter, the earliest watcher of the key whose
        attempt succeeds. */
    method Notify(key: Str, now: nat)
      requires Valid()
      modifies this`waiters, this`delivered, store
      ensures Valid()
      ensures Notified(waiters, delivered, store.Live(now))
           == Notifying(old(waiters), old(delivered), key, old(store.Live(now)))
      ensures registered == old(registered)
    {
      hide Orderly, Store.Shaped, IndexOf, NoEmptyIn, LiveItems, TryPop;
      ghost var db := store.Live(now);
      for i := 0 to |waiters|
        invariant Valid() && waiters == old(waiters) && delivered == old(delivered) && store.Live(now) == db
        invariant Served(waiters, key, db, 0) == Served(waiters, key, db, i)
      {
        LiveNoEmpty(store.items, now);
        if key in waiters[i].keys {
          var keys := waiters[i].keys;
          FailedTryKeeps(db, keys);
          var attempt := TryPopKeys(keys, now);
          if attempt.Success? {
            AnswerAt(i, Value(attempt.key, attempt.element));
            return;
          }
        }
      }
    }

    /** The first critical section of lpush and rpush; nobody is notified yet. */
    method PushValues(key: Str, values: seq<Str>, left: bool, now: nat) returns (reply: Reply)
      requires Valid()
      modifies store
      ensures Valid()
      ensures var e := PushAct(Lookup(old(store.Live(now)), key), values, left);
              reply == e.reply && store.Live(now) == Update(old(store.Live(now)), key, e.cell)
    {
      hide Orderly, Store.Shaped, IndexOf, NoEmptyIn, LiveItems, PushAct, Update, Lookup;
      reply := store.Push(key, values, left, now);
    }

    /** lpush and rpush: the push, then its notification. */
    method Push(key: Str, values: seq<Str>, left: bool, now: nat) returns (reply: Reply)
      requires Valid()
      modifies this`waiters, this`delivered, store
      ensures Valid()
      ensures var e := PushAct(Lookup(old(store.Live(now)), key), values, left);
              reply == e.reply
              && Notified(waiters, delivered, store.Live(now))
              == if reply.Count? && values != []
                 then Notifying(old(waiters), old(delivered), key, Update(old(store.Live(now)), key, e.cell))
                 else Notified(old(waiters), old(delivered), old(store.Live(now)))
      ensures registered == old(registered)
    {
      hide Orderly, Store.Shaped, IndexOf, NoEmptyIn, LiveItems, PushAct, Update, Lookup;
      PushConserves(store.Live(now), key, values, left);
      reply := PushValues(key, values, left, now);
      if reply.Count? && values != [] { Notify(key, now); }
    }

    /** lpop and rpop. */
    method Pop(key: Str, count: nat, left: bool, now: nat) returns (reply: Reply)
      requires Valid()
      modifies store
      ensures Valid()
      ensures var e := PopAct(Lookup(old(store.Live(now)), key), count, left);
              reply == e.reply && store.Live(now) == Update(old(store.Live(now)), key, e.cell)
    {
      hide Orderly, Store.Shaped, IndexOf, NoEmptyIn, LiveItems, PopAct, Update, Lookup;
      reply := store.Pop(key, count, left, now);
    }

    /** The attempt BRPOP starts with; the caller gets the element. */
    method Attempt(keys: seq<Str>, now: nat) returns (attempt: Attempt)
      requires Valid()
      modifies store
      ensures Valid()
      ensures attempt == TryPop(old(store.Live(now)), keys).attempt && store.Live(now) == TryPop(old(store.Live(now)), keys).db
    {
      hide Orderly, Store.Shaped, IndexOf, NoEmptyIn, LiveItems, TryPop;
      attempt := TryPopKeys(keys, now);
    }

    /** BRPOP: an attempt, and a registration when no list has an element. */
    method Brpop(client: nat, keys: seq<Str>, timeoutSeconds: nat, now: nat) returns (attempt: Attempt)
      requires Valid()
      modifies this`waiters, this`registered, store
      ensures Valid()
      ensures attempt == TryPop(old(store.Live(now)), keys).attempt && store.Live(now) == TryPop(old(store.Live(now)), keys).db
      ensures waiters
           == if attempt.Nothing? then Registered(old(waiters), client, keys, timeoutSeconds, now, old(registered))
              else old(waiters)
      ensures registered == old(registered) + if attempt.Nothing? then 1 else 0
    {
      attempt := Attempt(keys, now);
      if attempt.Nothing? { Register(client, keys, timeoutSeconds, now); }
    }

    /** One turn of the loops of notify_blocked_waiter_for_key and try_pop_keys, which hold the shard
        of one key at a time: a pop from a list the i-th waiter watches, handed to it. */
    method Offer(i: nat, key: Str, now: nat) returns (reply: Reply)
      requires Valid() && i < |waiters| && key in waiters[i].keys
      modifies this`waiters, this`delivered, store
      ensures Valid()
      ensures var e := PopAct(Lookup(old(store.Live(now)), key), 1, false);
              reply == e.reply && store.Live(now) == Update(old(store.Live(now)), key, e.cell)
      ensures if reply.Popped? then
                |reply.popped| == 1 && waiters == old(waiters)[..i] + old(waiters)[i + 1..]
                && delivered == old(delivered) + [Delivery(old(waiters)[i].client, old(waiters)[i].ticket, Value(key, reply.popped[0]))]
              else waiters == old(waiters) && delivered == old(delivered)
    {
      hide Orderly, Store.Shaped, IndexOf, NoEmptyIn, LiveItems, PopAct, Update, Lookup;
      OnePopped(Lookup(store.Live(now), key));
      reply := store.Pop(key, 1, false, now);
      if reply.Popped? { AnswerAt(i, Value(key, reply.popped[0])); }
    }
  }

  lemma FailedTryKeeps(db: Db, keys: seq<Str>)
    requires NoEmptyIn(db)
    ensures !TryPop(db, keys).attempt.Success? ==> TryPop(db, keys).db == db
  {
    TryPopSkipsAbsent(db, keys);
  }

  lemma PushConserves(db: Db, key: Str, values: seq<Str>, left: bool)
    ensures var e := PushAct(Lookup(db, key), values, left);
            Elements(Update(db, key, e.cell)) == Elements(db) + (if e.reply.Count? then multiset(values) else multiset{})
            && (Timeless(db) ==> Timeless(Update(db, key, e.cell)))
            && (!e.reply.Count? || values == [] ==> Update(db, key, e.cell) == db)
  {
    hide Elements, CellElements, Reversed;
    UpdateSame(db, key);
    var e := PushAct(Lookup(db, key), values, left);
    PushElements(Lookup(db, key), values, left);
    ElementsUpdate(db, key, e.cell);
    Gain(Elements(Update(db, key, e.cell)), CellElements(Lookup(db, key)), Elements(db), CellElements(e.cell),
         if e.reply.Count? then multiset(values) else multiset{});
  }

  lemma Gain(after: multiset<Str>, cell: multiset<Str>, before: multiset<Str>, grown: multiset<Str>, added: multiset<Str>)
    requires after + cell == before + grown && grown == cell + added
    ensures after == before + added
  {
    forall x ensures after[x] == (before + added)[x] { assert (after + cell)[x] == (before + grown)[x]; }
  }

  lemma PopConserves(db: Db, key: Str, count: nat, left: bool)
    ensures var e := PopAct(Lookup(db, key), count, left);
            Elements(db) == Elements(Update(db, key, e.cell)) + (if e.reply.Popped? then multiset(e.reply.popped) else multiset{})
            && (Timeless(db) ==> Timeless(Update(db, key, e.cell)))
  {
    hide Elements, CellElements, Reversed;
    var e := PopAct(Lookup(db, key), count, left);
    PopElements(Lookup(db, key), count, left);
    ElementsUpdate(db, key, e.cell);
    Balance(Elements(Update(db, key, e.cell)), CellElements(Lookup(db, key)), Elements(db), CellElements(e.cell),
            if e.reply.Popped? then multiset(e.reply.popped) else multiset{});
  }

  lemma LiveNoEmpty(items: Db, now: nat)
    requires NoEmptyIn(items)
    ensures NoEmptyIn(LiveItems(items, now))
  {
  }

  /** A pop that does not succeed leaves the map as it was. */
  lemma PopFails(db: Db, key: Str)
    requires NoEmptyIn(db)
    ensures var e := PopAct(Lookup(db, key), 1, false);
            !(e.reply.Popped? && e.reply.popped != []) ==> Update(db, key, e.cell) == db
  {
    UpdateSame(db, key);
  }

  // ----- clients that sleep beside a list

  /** No waiting client would get an element if it tried again. */
  ghost predicate NoSleeper(waiters: seq<Waiter>, db: Db) {
    forall i :: 0 <= i < |waiters| ==> !FindsList(db, waiters[i].keys)
  }

  /** Whether an attempt succeeds depends on which keys are present and which of those hold lists. */
  lemma {:induction false} SameKinds(a: Db, b: Db, keys: seq<Str>)
    requires a.Keys == b.Keys && forall k :: k in a ==> (a[k].value.ListV? <==> b[k].value.ListV?)
    ensures FindsList(a, keys) <==> FindsList(b, keys)
    decreases |keys|
  {
    if keys != [] { SameKinds(a, b, keys[1..]); }
  }

  /** A client that a new list wakes up watches it, and takes its element from it. */
  lemma {:induction false} WokenTakes(db: Db, key: Str, cell: Cell, keys: seq<Str>)
    requires key !in db && cell.Some? && cell.value.value.ListV? && cell.value.value.elements != [] && NoEmptyIn(db)
    requires FindsList(Update(db, key, cell), keys) && !FindsList(db, keys)
    ensures key in keys
    ensures TryPop(Update(db, key, cell), keys).db == Update(db, key, PopAct(cell, 1, false).cell)
    decreases |keys|
  {
    hide PopAct;
    var after := Update(db, key, cell);
    TryPopUnfold(after, keys);
    if keys[0] == key {
      OneLeft(cell);
      assert Lookup(after, key) == cell;
      assert Update(after, key, PopAct(cell, 1, false).cell) == Update(db, key, PopAct(cell, 1, false).cell);
    } else {
      assert keys[0] !in after;
      AbsentPop();
      WokenTakes(db, key, cell, keys[1..]);
      assert keys == [keys[0]] + keys[1..];
    }
  }

  lemma AbsentPop()
    ensures PopAct(None, 1, false).reply == NotFound
  {
  }

  lemma OneLeft(cell: Cell)
    requires cell.Some? && cell.value.value.ListV? && cell.value.value.elements != []
    ensures var e := PopAct(cell, 1, false);
            e.reply.Popped? && e.reply.popped != []
            && if |cell.value.value.elements| == 1 then e.cell == None
               else e.cell.Some? && e.cell.value.value.ListV? && e.cell.value.value.elements != []
  {
    hide Reversed;
  }

  lemma NewList(values: seq<Str>, left: bool)
    requires values != []
    ensures var e := PushAct(None, values, left);
            e.reply.Count? && e.cell.Some? && e.cell.value.value.ListV? && |e.cell.value.value.elements| == |values|
  {
    hide Reversed;
  }

  lemma LongerList(cell: Cell, values: seq<Str>, left: bool)
    requires cell.Some? && PushAct(cell, values, left).reply.Count? && values != []
    ensures cell.value.value.ListV?
    ensures var e := PushAct(cell, values, left); e.cell.Some? && e.cell.value.value.ListV?
  {
    hide Reversed;
  }

  /** A push and its notification leave no client asleep beside the new list if and only if it brought
      one element or woke at most one client: the notification serves just one. */
  lemma PushSleepsIff(waiters: seq<Waiter>, delivered: seq<Delivery>, db: Db, key: Str, values: seq<Str>, left: bool)
    requires NoEmptyIn(db) && NoSleeper(waiters, db) && values != []
    requires PushAct(Lookup(db, key), values, left).reply.Count?
    ensures var after := Update(db, key, PushAct(Lookup(db, key), values, left).cell);
            var n := Notifying(waiters, delivered, key, after);
            NoSleeper(n.waiters, n.db)
            <==> |values| == 1
                 || forall i, j :: 0 <= i < j < |waiters| ==> !FindsList(after, waiters[i].keys) || !FindsList(after, waiters[j].keys)
  {
    hide PushAct, TryPop, FindsList, NoEmptyIn, Update;
    var cell := PushAct(Lookup(db, key), values, left).cell;
    var after := Update(db, key, cell);
    PushKeepsNoEmpty(db, key, values, left);
    if key in db {
      LongerList(Lookup(db, key), values, left);
      forall i | 0 <= i < |waiters|
        ensures !FindsList(after, waiters[i].keys) && !TryPop(after, waiters[i].keys).attempt.Success?
      {
        SameKindsPushed(db, key, cell, waiters[i].keys);
        TryPopFindsList(after, waiters[i].keys);
      }
      ServedNone(waiters, key, after);
    } else {
      NewList(values, left);
      NewListSleepsIff(waiters, delivered, db, key, cell);
    }
  }

  lemma PushKeepsNoEmpty(db: Db, key: Str, values: seq<Str>, left: bool)
    requires NoEmptyIn(db) && values != []
    ensures NoEmptyIn(Update(db, key, PushAct(Lookup(db, key), values, left).cell))
  {
    hide Reversed;
  }

  lemma SameKindsPushed(db: Db, key: Str, cell: Cell, keys: seq<Str>)
    requires key in db && db[key].value.ListV? && cell.Some? && cell.value.value.ListV?
    ensures FindsList(db, keys) <==> FindsList(Update(db, key, cell), keys)
  {
    SameKinds(db, Update(db, key, cell), keys);
  }

  lemma ServedNone(waiters: seq<Waiter>, key: Str, db: Db)
    requires forall i :: 0 <= i < |waiters| ==> !TryPop(db, waiters[i].keys).attempt.Success?
    ensures Served(waiters, key, db, 0) == |waiters|
  {
    hide TryPop;
  }

  /** The served client is the first that the new list wakes up. */
  lemma ServedFirst(waiters: seq<Waiter>, db: Db, key: Str, cell: Cell)
    requires key !in db && cell.Some? && cell.value.value.ListV? && cell.value.value.elements != []
    requires NoEmptyIn(db) && NoSleeper(waiters, db) && NoEmptyIn(Update(db, key, cell))
    ensures var after := Update(db, key, cell); var i := Served(waiters, key, after, 0);
            (i < |waiters| ==> FindsList(after, waiters[i].keys))
            && forall j :: 0 <= j < i ==> !FindsList(after, waiters[j].keys)
  {
    hide TryPop, FindsList, NoEmptyIn, Update;
    var after := Update(db, key, cell);
    forall j | 0 <= j < |waiters|
      ensures FindsList(after, waiters[j].keys) <==> TryPop(after, waiters[j].keys).attempt.Success?
      ensures FindsList(after, waiters[j].keys) ==> key in waiters[j].keys
    {
      TryPopFindsList(after, waiters[j].keys);
      if FindsList(after, waiters[j].keys) { WokenTakes(db, key, cell, waiters[j].keys); }
    }
  }

  lemma NewListSleepsIff(waiters: seq<Waiter>, delivered: seq<Delivery>, db: Db, key: Str, cell: Cell)
    requires key !in db && cell.Some? && cell.value.value.ListV? && cell.value.value.elements != []
    requires NoEmptyIn(db) && NoSleeper(waiters, db) && NoEmptyIn(Update(db, key, cell))
    ensures var after := Update(db, key, cell);
            var n := Notifying(waiters, delivered, key, after);
            NoSleeper(n.waiters, n.db)
            <==> |cell.value.value.elements| == 1
                 || forall i, j :: 0 <= i < j < |waiters| ==> !FindsList(after, waiters[i].keys) || !FindsList(after, waiters[j].keys)
  {
    hide TryPop, FindsList, NoEmptyIn, Update, PopAct;
    var after := Update(db, key, cell);
    ServedFirst(waiters, db, key, cell);
    var i := Served(waiters, key, after, 0);
    if i < |waiters| {
      WokenTakes(db, key, cell, waiters[i].keys);
      OneLeft(cell);
      var rest := PopAct(cell, 1, false).cell;
      var left := waiters[..i] + waiters[i + 1..];
      forall w | w in left ensures w in waiters {}
      if rest.None? {
        NeverThere(db, key);
      } else {
        forall j | 0 <= j < |waiters| ensures FindsList(Update(db, key, rest), waiters[j].keys) <==> FindsList(after, waiters[j].keys) {
          SameNewKinds(db, key, cell, rest, waiters[j].keys);
        }
        assert forall j :: 0 <= j < i ==> left[j] == waiters[j];
        assert forall j :: i < j < |waiters| ==> left[j - 1] == waiters[j];
      }
    }
  }

  lemma NeverThere(db: Db, key: Str)
    requires key !in db
    ensures Update(db, key, None) == db
  {
  }

  lemma SameNewKinds(db: Db, key: Str, x: Cell, y: Cell, keys: seq<Str>)
    requires x.Some? && x.value.value.ListV? && y.Some? && y.value.value.ListV?
    ensures FindsList(Update(db, key, x), keys) <==> FindsList(Update(db, key, y), keys)
  {
    SameKinds(Update(db, key, x), Update(db, key, y), keys);
  }

  /** Two elements for two waiting clients: the notification serves one and the other stays asleep. */
  lemma PushLeavesSleeper(a: Waiter, b: Waiter, key: Str, x: Str, y: Str)
    requires a.keys == [key] && b.keys == [key]
    ensures var none: Db := map[];
            var after := Update(none, key, PushAct(None, [x, y], false).cell);
            var n := Notifying([a, b], [], key, after);
            NoSleeper([a, b], none)
            && n.waiters == [b] && n.delivered == [Delivery(a.client, a.ticket, Value(key, y))] && !NoSleeper(n.waiters, n.db)
  {
    hide PopAct, PushAct, TryPop;
    var none: Db := map[];
    TwoPushed(x, y);
    LastOfTwo(x, y);
    var after := Update(none, key, Some(Item(ListV([x, y]), 0)));
    TryPopUnfold(after, [key]);
    assert Served([a, b], key, after, 0) == 0;
    assert !FindsList(none, [key]) by { assert !FindsList(none, [key][1..]); }
    assert NoSleeper([a, b], none);
    var n := Notifying([a, b], [], key, after);
    assert n.waiters == [b] && n.db[key].value == ListV([x]);
    assert FindsList(n.db, n.waiters[0].keys);
    assert n.delivered == [Delivery(a.client, a.ticket, Value(key, y))];
  }

  lemma TwoPushed(x: Str, y: Str)
    ensures PushAct(None, [x, y], false).cell == Some(Item(ListV([x, y]), 0))
  {
    assert [] + [x, y] == [x, y];
  }

  lemma LastOfTwo(x: Str, y: Str)
    ensures PopAct(Some(Item(ListV([x, y]), 0)), 1, false) == Effect(Some(Item(ListV([x]), 0)), Popped([y]))
  {
    assert [x, y][..1] == [x] && [x, y][1..] == [y];
    assert Reversed([y]) == [y];
  }

  /** A registration leaves nobody asleep exactly when none of its lists has an element by then. */
  lemma RegisterSleepsIff(waiters: seq<Waiter>, client: nat, keys: seq<Str>, timeoutSeconds: nat, now: nat, ticket: nat, db: Db)
    requires NoSleeper(waiters, db)
    ensures NoSleeper(Registered(waiters, client, keys, timeoutSeconds, now, ticket), db) <==> !FindsList(db, keys)
  {
    hide FindsList;
    WithoutSome(waiters, client);
    var after := Registered(waiters, client, keys, timeoutSeconds, now, ticket);
    assert after[|after| - 1].keys == keys;
  }

  lemma {:induction false} WithoutSome(waiters: seq<Waiter>, client: nat)
    ensures forall i :: 0 <= i < |Without(waiters, client)| ==> Without(waiters, client)[i] in waiters
  {
    if waiters != [] { WithoutSome(waiters[..|waiters| - 1], client); }
  }

  /** By then, for the attempt that found nothing may lie before a push that found nobody waiting. */
  lemma WakeupLost(client: nat, key: Str, element: Str, now: nat, ticket: nat)
    ensures var none: Db := map[];
            var after := Update(none, key, PushAct(None, [element], true).cell);
            TryPop(none, [key]) == Tried(Nothing, none)
            && Notifying([], [], key, after) == Notified([], [], after)
            && !NoSleeper(Registered([], client, [key], 0, now, ticket), after)
  {
    hide Reversed;
    var none: Db := map[];
    var after := Update(none, key, PushAct(None, [element], true).cell);
    TryPopUnfold(none, [key]);
    RegisterSleepsIff([], client, [key], 0, now, ticket, after);
  }

  // ----- runs

  /** Critical sections, in whatever order threads get to them. A push and its notification, an attempt
      and the registration after it are events of their own, with others in between; and so may be the
      single pops of an attempt (PopEvent) and of a notification (OfferEvent). */
  datatype Event =
    | PushEvent(key: Str, values: seq<Str>, left: bool)
    | NotifyEvent(key: Str)
    | OfferEvent(place: nat, key: Str)
    | AttemptEvent(keys: seq<Str>)
    | RegisterEvent(client: nat, keys: seq<Str>, timeoutSeconds: nat)
    | PopEvent(key: Str, count: nat, left: bool)
    | CancelEvent(client: nat)
    | TimeoutEvent

  /** The lists and the queue. */
  datatype State = State(db: Db, waiters: seq<Waiter>, delivered: seq<Delivery>, registered: nat)

  /** What the caller of a critical section gets. */
  datatype Result = Replied(reply: Reply) | Attempted(attempt: Attempt) | Silent

  datatype Stepped = Stepped(state: State, result: Result)

  function StepEvent(s: State, e: Event, now: nat): Stepped {
    match e
    case PushEvent(key, values, left) =>
      var p := PushAct(Lookup(s.db, key), values, left);
      Stepped(s.(db := Update(s.db, key, p.cell)), Replied(p.reply))
    case NotifyEvent(key) =>
      var n := Notifying(s.waiters, s.delivered, key, s.db);
      Stepped(s.(db := n.db, waiters := n.waiters, delivered := n.delivered), Silent)
    case OfferEvent(i, key) =>
      if i >= |s.waiters| || key !in s.waiters[i].keys then Stepped(s, Silent)
      else
        var p := PopAct(Lookup(s.db, key), 1, false);
        var t := s.(db := Update(s.db, key, p.cell));
        if p.reply.Popped? && p.reply.popped != [] then
          Stepped(t.(waiters := s.waiters[..i] + s.waiters[i + 1..],
                     delivered := s.delivered
                                + [Delivery(s.waiters[i].client, s.waiters[i].ticket, Value(key, p.reply.popped[0]))]),
                  Silent)
        else Stepped(t, Silent)
    case AttemptEvent(keys) =>
      var t := TryPop(s.db, keys);
      Stepped(s.(db := t.db), Attempted(t.attempt))
    case RegisterEvent(client, keys, timeoutSeconds) =>
      Stepped(s.(waiters := Registered(s.waiters, client, keys, timeoutSeconds, now, s.registered), registered := s.registered + 1),
              Silent)
    case PopEvent(key, count, left) =>
      var p := PopAct(Lookup(s.db, key), count, left);
      Stepped(s.(db := Update(s.db, key, p.cell)), Replied(p.reply))
    case CancelEvent(client) => Stepped(s.(waiters := Without(s.waiters, client)), Silent)
    case TimeoutEvent =>
      Stepped(s.(waiters := Staying(s.waiters, now), delivered := s.delivered + Expiring(s.waiters, now)), Silent)
  }

  datatype Trace = Trace(state: State, results: seq<Result>)

  /** The events one after the other, with what expires between them gone. */
  function RunOf(s: State, events: seq<Event>, times: seq<nat>): (t: Trace)
    requires |times| == |events|
    ensures |t.results| == |events|
    decreases |events|
  {
    if events == [] then Trace(s, [])
    else
      var n := |events| - 1;
      var before := RunOf(s, events[..n], times[..n]);
      var x := StepEvent(before.state.(db := LiveItems(before.state.db, times[n])), events[n], times[n]);
      Trace(x.state, before.results + [x.result])
  }

  /** The elements an event puts into the lists, and those it gives to its caller. */
  function PushedBy(e: Event, r: Result): multiset<Str> {
    if e.PushEvent? && r.Replied? && r.reply.Count? then multiset(e.values) else multiset{}
  }

  function PoppedBy(e: Event, r: Result): multiset<Str> {
    if e.PopEvent? && r.Replied? && r.reply.Popped? then multiset(r.reply.popped)
    else if e.AttemptEvent? && r.Attempted? && r.attempt.Success? then multiset{r.attempt.element}
    else multiset{}
  }

  function PushedIn(events: seq<Event>, results: seq<Result>): multiset<Str>
    requires |results| == |events|
    decreases |events|
  {
    if events == [] then multiset{}
    else
      var n := |events| - 1;
      PushedIn(events[..n], results[..n]) + PushedBy(events[n], results[n])
  }

  function PoppedIn(events: seq<Event>, results: seq<Result>): multiset<Str>
    requires |results| == |events|
    decreases |events|
  {
    if events == [] then multiset{}
    else
      var n := |events| - 1;
      PoppedIn(events[..n], results[..n]) + PoppedBy(events[n], results[n])
  }

  /** What the lists and the answers hold together. */
  ghost function Holdings(s: State): multiset<Str> { Elements(s.db) + Handed(s.delivered) }

  /** Elements come with a push and go with a pop; all else moves them from lists to answers. */
  ghost predicate Balances(s: State, e: Event, now: nat) {
    var x := StepEvent(s, e, now);
    NoEmptyIn(x.state.db) && Timeless(x.state.db)
    && Holdings(s) + PushedBy(e, x.result) == Holdings(x.state) + PoppedBy(e, x.result)
  }

  lemma StepConserves(s: State, e: Event, now: nat)
    requires NoEmptyIn(s.db) && Timeless(s.db)
    ensures Balances(s, e, now)
  {
    hide Elements, Handed, NoEmptyIn, Timeless, PushAct, PopAct, TryPop, Update, Lookup, Notifying, Balances;
    match e
    case PushEvent(key, values, left) => PushBalances(s, key, values, left, now);
    case NotifyEvent(key) => NotifyBalances(s, key, now);
    case OfferEvent(i, key) => OfferBalances(s, i, key, now);
    case AttemptEvent(keys) => AttemptBalances(s, keys, now);
    case PopEvent(key, count, left) => PopBalances(s, key, count, left, now);
    case _ => QueueBalances(s, e, now);
  }

  lemma PushBalances(s: State, key: Str, values: seq<Str>, left: bool, now: nat)
    requires NoEmptyIn(s.db) && Timeless(s.db)
    ensures Balances(s, PushEvent(key, values, left), now)
  {
    hide Elements, Handed, NoEmptyIn, Timeless, PushAct, Update, Lookup;
    PushConserves(s.db, key, values, left);
    PushNoEmpty(s.db, key, values, left);
  }

  lemma PopBalances(s: State, key: Str, count: nat, left: bool, now: nat)
    requires NoEmptyIn(s.db) && Timeless(s.db)
    ensures Balances(s, PopEvent(key, count, left), now)
  {
    hide Elements, Handed, NoEmptyIn, Timeless, PopAct, Update, Lookup;
    PopConserves(s.db, key, count, left);
    PopNoEmpty(s.db, key, count, left);
  }

  lemma AttemptBalances(s: State, keys: seq<Str>, now: nat)
    requires NoEmptyIn(s.db) && Timeless(s.db)
    ensures Balances(s, AttemptEvent(keys), now)
  {
    hide Elements, Handed, NoEmptyIn, Timeless, TryPop;
    TryPopElements(s.db, keys);
    TryPopNoEmpty(s.db, keys);
  }

  lemma NotifyBalances(s: State, key: Str, now: nat)
    requires NoEmptyIn(s.db) && Timeless(s.db)
    ensures Balances(s, NotifyEvent(key), now)
  {
    hide Elements, Handed, NoEmptyIn, Timeless, TryPop;
    var i := Served(s.waiters, key, s.db, 0);
    if i < |s.waiters| {
      var w := s.waiters[i];
      var t := TryPop(s.db, w.keys);
      TryPopElements(s.db, w.keys);
      TryPopNoEmpty(s.db, w.keys);
      HandedOne(s.delivered, Delivery(w.client, w.ticket, Value(t.attempt.key, t.attempt.element)));
    }
  }

  lemma OfferBalances(s: State, i: nat, key: Str, now: nat)
    requires NoEmptyIn(s.db) && Timeless(s.db)
    ensures Balances(s, OfferEvent(i, key), now)
  {
    hide Elements, Handed, NoEmptyIn, Timeless, PopAct, Update, Lookup;
    if i < |s.waiters| && key in s.waiters[i].keys {
      PopConserves(s.db, key, 1, false);
      PopNoEmpty(s.db, key, 1, false);
      OnePopped(Lookup(s.db, key));
      var r := PopAct(Lookup(s.db, key), 1, false).reply;
      if r.Popped? { HandedOne(s.delivered, Delivery(s.waiters[i].client, s.waiters[i].ticket, Value(key, r.popped[0]))); }
    }
  }

  /** Registrations, cancellations and timeouts hand out nothing. */
  lemma QueueBalances(s: State, e: Event, now: nat)
    requires NoEmptyIn(s.db) && Timeless(s.db) && (e.RegisterEvent? || e.CancelEvent? || e.TimeoutEvent?)
    ensures Balances(s, e, now)
  {
    hide Elements, Handed, NoEmptyIn, Timeless;
    ExpiringHandsNothing(s.waiters, s.delivered, now);
  }

  lemma PushNoEmpty(db: Db, key: Str, values: seq<Str>, left: bool)
    requires NoEmptyIn(db)
    ensures NoEmptyIn(Update(db, key, PushAct(Lookup(db, key), values, left).cell))
  {
    if values == [] { UpdateSame(db, key); } else { PushKeepsNoEmpty(db, key, values, left); }
  }

  lemma PopNoEmpty(db: Db, key: Str, count: nat, left: bool)
    requires NoEmptyIn(db)
    ensures NoEmptyIn(Update(db, key, PopAct(Lookup(db, key), count, left).cell))
  {
    hide Reversed;
  }

  lemma {:induction false} TryPopNoEmpty(db: Db, keys: seq<Str>)
    requires NoEmptyIn(db)
    ensures NoEmptyIn(TryPop(db, keys).db)
    decreases |keys|
  {
    hide NoEmptyIn, PopAct, Update;
    if keys != [] {
      TryPopUnfold(db, keys);
      PopNoEmpty(db, keys[0], 1, false);
      TryPopNoEmpty(db, keys[1..]);
    }
  }

  lemma {:induction false} ExpiringHandsNothing(waiters: seq<Waiter>, delivered: seq<Delivery>, now: nat)
    ensures Handed(delivered + Expiring(waiters, now)) == Handed(delivered)
  {
    hide Handed;
    if waiters == [] {
      assert delivered + [] == delivered;
    } else {
      var n := |waiters| - 1;
      ExpiringHandsNothing(waiters[..n], delivered, now);
      if Late(waiters[n], now) {
        var d := Delivery(waiters[n].client, waiters[n].ticket, TimedOut);
        HandedOne(delivered + Expiring(waiters[..n], now), d);
        assert delivered + (Expiring(waiters[..n], now) + [d]) == delivered + Expiring(waiters[..n], now) + [d];
      }
    }
  }

  lemma NothingExpires(db: Db, now: nat)
    requires Timeless(db)
    ensures LiveItems(db, now) == db
  {
  }

  /** Conservation over every run of the critical sections, on lists without deadlines: what the lists
      held and the pushes of the run brought is what the lists hold, the pops and attempts of the run
      gave to their callers and the waiting clients were answered, each element as often. */
  lemma {:induction false} RunConserves(s: State, events: seq<Event>, times: seq<nat>)
    requires |times| == |events| && NoEmptyIn(s.db) && Timeless(s.db)
    ensures var t := RunOf(s, events, times);
            NoEmptyIn(t.state.db) && Timeless(t.state.db)
            && Holdings(s) + PushedIn(events, t.results) == Holdings(t.state) + PoppedIn(events, t.results)
    decreases |events|
  {
    hide Holdings, NoEmptyIn, Timeless, StepEvent, LiveItems, PushedBy, PoppedBy;
    if events != [] {
      var n := |events| - 1;
      RunConserves(s, events[..n], times[..n]);
      var before, t := RunOf(s, events[..n], times[..n]), RunOf(s, events, times);
      assert t.results[..n] == before.results;
      NothingExpires(before.state.db, times[n]);
      StepConserves(before.state, events[n], times[n]);
      Carried(Holdings(s), PushedIn(events[..n], before.results), Holdings(before.state), PoppedIn(events[..n], before.results),
              PushedBy(events[n], t.results[n]), Holdings(t.state), PoppedBy(events[n], t.results[n]));
    }
  }

  lemma Carried(start: multiset<Str>, pushed: multiset<Str>, middle: multiset<Str>, popped: multiset<Str>,
                more: multiset<Str>, end: multiset<Str>, gone: multiset<Str>)
    requires start + pushed == middle + popped && middle + more == end + gone
    ensures start + (pushed + more) == end + (popped + gone)
  {
    forall x ensures (start + (pushed + more))[x] == (end + (popped + gone))[x] {
      assert (start + pushed)[x] == (middle + popped)[x] && (middle + more)[x] == (end + gone)[x];
    }
  }

  // ----- timeouts, in terms of the clock alone

  /** A check keeps exactly the waiters without a deadline or with one still to come. */
  lemma {:induction false} StaysIff(waiters: seq<Waiter>, now: nat, w: Waiter)
    ensures w in Staying(waiters, now) <==> w in waiters && (w.deadline.None? || now < w.deadline.value)
  {
    if waiters != [] {
      var n := |waiters| - 1;
      StaysIff(waiters[..n], now, w);
      assert waiters == waiters[..n] + [waiters[n]];
    }
  }

  /** And answers exactly those whose deadline has come. */
  lemma {:induction false} ExpiresIff(waiters: seq<Waiter>, now: nat, d: Delivery)
    ensures d in Expiring(waiters, now)
            <==> exists w :: w in waiters && w.deadline.Some? && w.deadline.value <= now && d == Delivery(w.client, w.ticket, TimedOut)
  {
    if waiters != [] {
      var n := |waiters| - 1;
      ExpiresIff(waiters[..n], now, d);
      assert waiters == waiters[..n] + [waiters[n]];
      assert waiters[n] in waiters;
      if exists w :: w in waiters && w.deadline.Some? && w.deadline.value <= now && d == Delivery(w.client, w.ticket, TimedOut) {
        var w :| w in waiters && w.deadline.Some? && w.deadline.value <= now && d == Delivery(w.client, w.ticket, TimedOut);
        if w != waiters[n] { assert w in waiters[..n]; }
      }
    }
  }

  lemma {:induction false} WithoutIff(waiters: seq<Waiter>, client: nat, w: Waiter)
    ensures w in Without(waiters, client) <==> w in waiters && w.client != client
  {
    if waiters != [] {
      var n := |waiters| - 1;
      WithoutIff(waiters[..n], client, w);
      assert waiters == waiters[..n] + [waiters[n]];
    }
  }

  /** An event that neither serves this waiter nor takes it off the queue. */
  predicate Spares(e: Event, w: Waiter) {
    match e
    case NotifyEvent(key) => key !in w.keys
    case OfferEvent(_, key) => key !in w.keys
    case RegisterEvent(client, _, _) => client != w.client
    case CancelEvent(client) => client != w.client
    case _ => true
  }

  /** w waits, and no other waiter and no answer has its number. */
  ghost predicate WaitsAlone(s: State, w: Waiter) {
    w in s.waiters && w.ticket < s.registered
    && (forall v :: v in s.waiters && v.ticket == w.ticket ==> v == w)
    && (forall d :: d in s.delivered ==> d.ticket != w.ticket)
  }

  /** w has been told that its time is up, and nobody waits or is answered under its number otherwise. */
  ghost predicate TimedOutAlone(s: State, w: Waiter) {
    w !in s.waiters && w.ticket < s.registered
    && Delivery(w.client, w.ticket, TimedOut) in s.delivered
    && (forall v :: v in s.waiters ==> v.ticket != w.ticket)
    && (forall d :: d in s.delivered && d.ticket == w.ticket ==> d == Delivery(w.client, w.ticket, TimedOut))
  }

  lemma RegisteredIff(waiters: seq<Waiter>, client: nat, keys: seq<Str>, timeoutSeconds: nat, now: nat, ticket: nat, v: Waiter)
    ensures var w := Waiter(client, keys, if timeoutSeconds > 0 then Some(now + 1000 * timeoutSeconds) else None, ticket);
            v in Registered(waiters, client, keys, timeoutSeconds, now, ticket)
            <==> v == w || (v in waiters && v.client != client)
  {
    WithoutIff(waiters, client, v);
  }

  lemma NotifySpares(s: State, key: Str, w: Waiter)
    requires key !in w.keys
    ensures var n := Notifying(s.waiters, s.delivered, key, s.db);
            (forall v :: v in n.waiters ==> v in s.waiters) && (w in s.waiters ==> w in n.waiters)
            && (forall d :: d in n.delivered && d !in s.delivered ==> exists v :: v in s.waiters && v != w && d.ticket == v.ticket)
            && s.delivered <= n.delivered
  {
    hide TryPop;
    var i := Served(s.waiters, key, s.db, 0);
    if i < |s.waiters| {
      assert s.waiters == s.waiters[..i] + [s.waiters[i]] + s.waiters[i + 1..];
      assert s.waiters[i] in s.waiters && s.waiters[i] != w;
    }
  }

  lemma OfferSpares(s: State, i: nat, key: Str, w: Waiter, now: nat)
    requires key !in w.keys
    ensures var n := StepEvent(s, OfferEvent(i, key), now).state;
            (forall v :: v in n.waiters ==> v in s.waiters) && (w in s.waiters ==> w in n.waiters)
            && (forall d :: d in n.delivered && d !in s.delivered ==> exists v :: v in s.waiters && v != w && d.ticket == v.ticket)
            && s.delivered <= n.delivered && n.registered == s.registered
  {
    hide PopAct, Update, Lookup;
    if i < |s.waiters| && key in s.waiters[i].keys {
      assert s.waiters == s.waiters[..i] + [s.waiters[i]] + s.waiters[i + 1..];
      assert s.waiters[i] in s.waiters && s.waiters[i] != w;
    }
  }

  /** One event on a waiter it spares: the waiter stays unless the event is a check at or behind its
      deadline, which tells it that its time is up. */
  lemma SparedStep(s: State, e: Event, now: nat, w: Waiter)
    requires WaitsAlone(s, w) && Spares(e, w)
    ensures var t := StepEvent(s, e, now).state;
            if e.TimeoutEvent? && w.deadline.Some? && w.deadline.value <= now then TimedOutAlone(t, w) else WaitsAlone(t, w)
  {
    hide PushAct, PopAct, TryPop, Update, Lookup, Notifying, Expiring, Staying, Registered, Without;
    match e
    case NotifyEvent(key) => NotifySpares(s, key, w);
    case OfferEvent(i, key) => OfferSpares(s, i, key, w, now);
    case RegisterEvent(client, keys, timeoutSeconds) =>
      forall v ensures v in Registered(s.waiters, client, keys, timeoutSeconds, now, s.registered)
                       <==> v == Waiter(client, keys, if timeoutSeconds > 0 then Some(now + 1000 * timeoutSeconds) else None, s.registered)
                            || (v in s.waiters && v.client != client) {
        RegisteredIff(s.waiters, client, keys, timeoutSeconds, now, s.registered, v);
      }
    case CancelEvent(client) =>
      forall v ensures v in Without(s.waiters, client) <==> v in s.waiters && v.client != client { WithoutIff(s.waiters, client, v); }
    case TimeoutEvent => CheckSpares(s, now, w);
    case _ =>
  }

  lemma CheckSpares(s: State, now: nat, w: Waiter)
    requires WaitsAlone(s, w)
    ensures var t := StepEvent(s, TimeoutEvent, now).state;
            if w.deadline.Some? && w.deadline.value <= now then TimedOutAlone(t, w) else WaitsAlone(t, w)
  {
    hide Expiring, Staying;
    forall v ensures v in Staying(s.waiters, now) <==> v in s.waiters && (v.deadline.None? || now < v.deadline.value) {
      StaysIff(s.waiters, now, v);
    }
    ExpiresIff(s.waiters, now, Delivery(w.client, w.ticket, TimedOut));
    forall d | d in Expiring(s.waiters, now) && d.ticket == w.ticket ensures d == Delivery(w.client, w.ticket, TimedOut) {
      ExpiresIff(s.waiters, now, d);
    }
    if !(w.deadline.Some? && w.deadline.value <= now) {
      forall d | d in Expiring(s.waiters, now) ensures d.ticket != w.ticket { ExpiresIff(s.waiters, now, d); }
    }
  }

  /** Once told it is not told again, and does not wait again. */
  lemma ToldStep(s: State, e: Event, now: nat, w: Waiter)
    requires TimedOutAlone(s, w) && Spares(e, w)
    ensures TimedOutAlone(StepEvent(s, e, now).state, w)
  {
    hide PushAct, PopAct, TryPop, Update, Lookup, Notifying, Expiring, Staying, Registered, Without;
    match e
    case NotifyEvent(key) => NotifySpares(s, key, w);
    case OfferEvent(i, key) => OfferSpares(s, i, key, w, now);
    case RegisterEvent(client, keys, timeoutSeconds) =>
      forall v ensures v in Registered(s.waiters, client, keys, timeoutSeconds, now, s.registered)
                       <==> v == Waiter(client, keys, if timeoutSeconds > 0 then Some(now + 1000 * timeoutSeconds) else None, s.registered)
                            || (v in s.waiters && v.client != client) {
        RegisteredIff(s.waiters, client, keys, timeoutSeconds, now, s.registered, v);
      }
    case CancelEvent(client) =>
      forall v ensures v in Without(s.waiters, client) <==> v in s.waiters && v.client != client { WithoutIff(s.waiters, client, v); }
    case TimeoutEvent =>
      forall v ensures v in Staying(s.waiters, now) ==> v in s.waiters { StaysIff(s.waiters, now, v); }
      forall d | d in Expiring(s.waiters, now) ensures d.ticket != w.ticket { ExpiresIff(s.waiters, now, d); }
    case _ =>
  }

  /** One of the events is a check at or behind the deadline of w. */
  ghost predicate CheckedLate(events: seq<Event>, times: seq<nat>, w: Waiter)
    requires |times| == |events|
  {
    exists i :: 0 <= i < |events| && events[i].TimeoutEvent? && w.deadline.Some? && w.deadline.value <= times[i]
  }

  lemma {:induction false} SparedRun(s: State, events: seq<Event>, times: seq<nat>, w: Waiter)
    requires |times| == |events| && WaitsAlone(s, w) && forall i :: 0 <= i < |events| ==> Spares(events[i], w)
    ensures var t := RunOf(s, events, times).state;
            if CheckedLate(events, times, w) then TimedOutAlone(t, w) else WaitsAlone(t, w)
    decreases |events|
  {
    hide WaitsAlone, TimedOutAlone, StepEvent, Spares, LiveItems;
    if events != [] {
      var n := |events| - 1;
      SparedRun(s, events[..n], times[..n], w);
      var before := RunOf(s, events[..n], times[..n]).state;
      var live := before.(db := LiveItems(before.db, times[n]));
      SameQueue(before, live, w);
      LastCheck(events, times, w);
      if CheckedLate(events[..n], times[..n], w) {
        ToldStep(live, events[n], times[n], w);
      } else {
        SparedStep(live, events[n], times[n], w);
      }
    }
  }

  lemma SameQueue(s: State, t: State, w: Waiter)
    requires t == s.(db := t.db)
    ensures WaitsAlone(s, w) <==> WaitsAlone(t, w)
    ensures TimedOutAlone(s, w) <==> TimedOutAlone(t, w)
  {
  }

  lemma LastCheck(events: seq<Event>, times: seq<nat>, w: Waiter)
    requires |times| == |events| && events != []
    ensures var n := |events| - 1;
            CheckedLate(events, times, w)
            <==> CheckedLate(events[..n], times[..n], w)
                 || (events[n].TimeoutEvent? && w.deadline.Some? && w.deadline.value <= times[n])
  {
    var n := |events| - 1;
    if CheckedLate(events[..n], times[..n], w) {
      var i :| 0 <= i < n && events[..n][i].TimeoutEvent? && w.deadline.Some? && w.deadline.value <= times[..n][i];
      assert events[i].TimeoutEvent? && w.deadline.value <= times[i];
    }
    if CheckedLate(events, times, w) {
      var i :| 0 <= i < |events| && events[i].TimeoutEvent? && w.deadline.Some? && w.deadline.value <= times[i];
      if i < n { assert events[..n][i].TimeoutEvent? && w.deadline.value <= times[..n][i]; }
    }
  }

  /** A client that registers at t0 with a timeout of s seconds, and is neither served nor cancelled: it
      is told that its time is up if and only if some check comes at t0 + 1000 * s or later, once and for
      all, and waits until then; with s == 0 no check ever tells it. */
  lemma TimeoutIff(before: State, client: nat, keys: seq<Str>, timeoutSeconds: nat, t0: nat, events: seq<Event>, times: seq<nat>)
    requires |times| == |events|
    requires (forall v :: v in before.waiters ==> v.ticket < before.registered)
             && (forall d :: d in before.delivered ==> d.ticket < before.registered)
    requires var w := Waiter(client, keys, if timeoutSeconds > 0 then Some(t0 + 1000 * timeoutSeconds) else None, before.registered);
             forall i :: 0 <= i < |events| ==> Spares(events[i], w)
    ensures var t := RunOf(StepEvent(before, RegisterEvent(client, keys, timeoutSeconds), t0).state, events, times).state;
            var told := timeoutSeconds > 0
                        && exists i :: 0 <= i < |events| && events[i].TimeoutEvent? && t0 + 1000 * timeoutSeconds <= times[i];
            (Delivery(client, before.registered, TimedOut) in t.delivered <==> told)
            && ((exists v :: v in t.waiters && v.ticket == before.registered) <==> !told)
  {
    hide RunOf, Registered;
    var w := Waiter(client, keys, if timeoutSeconds > 0 then Some(t0 + 1000 * timeoutSeconds) else None, before.registered);
    var s := StepEvent(before, RegisterEvent(client, keys, timeoutSeconds), t0).state;
    forall v ensures v in s.waiters <==> v == w || (v in before.waiters && v.client != client) {
      RegisteredIff(before.waiters, client, keys, timeoutSeconds, t0, before.registered, v);
    }
    SparedRun(s, events, times, w);
  }

  /** The object as a state. */
  ghost function StateOf(q: BlockedPops, now: nat): State
    reads q, q.store
  {
    State(q.store.Live(now), q.waiters, q.delivered, q.registered)
  }

  /** The method of each critical section does what StepEvent says. */
  method Handle(q: BlockedPops, e: Event, now: nat) returns (result: Result)
    requires q.Valid()
    modifies q, q.store
    ensures q.Valid()
    ensures Stepped(StateOf(q, now), result) == StepEvent(old(StateOf(q, now)), e, now)
  {
    hide Orderly, Store.Shaped, IndexOf, NoEmptyIn, LiveItems, TryPop, PushAct, PopAct, Update, Lookup;
    result := Silent;
    match e {
      case PushEvent(key, values, left) => { var r := q.PushValues(key, values, left, now); result := Replied(r); }
      case NotifyEvent(key) => { q.Notify(key, now); }
      case OfferEvent(place, key) => {
        if place < |q.waiters| && key in q.waiters[place].keys { var _ := q.Offer(place, key, now); }
      }
      case AttemptEvent(keys) => { var a := q.Attempt(keys, now); result := Attempted(a); }
      case RegisterEvent(client, keys, timeoutSeconds) => { q.Register(client, keys, timeoutSeconds, now); }
      case PopEvent(key, count, left) => { var r := q.Pop(key, count, left, now); result := Replied(r); }
      case CancelEvent(client) => { q.Cancel(client); }
      case TimeoutEvent => { q.CheckTimeouts(now); }
    }
  }

  /** Over every run of critical sections at non-decreasing times, the object answers as RunOf does and
      ends in its state, whatever expires meanwhile. On lists without deadlines that is conservation:
      every element pushed is in a list, was given to a caller or was handed to a waiter, exactly once.
      And in the end, as always, one client waits at most once, and no registration is both waiting and
      answered, or answered twice. */
  method RunEvents(q: BlockedPops, events: seq<Event>, times: seq<nat>, start: nat) returns (results: seq<Result>)
    requires q.Valid() && |times| == |events|
    requires forall i, j :: 0 <= i <= j < |times| ==> start <= times[i] <= times[j]
    modifies q, q.store
    ensures q.Valid() && Orderly(q.waiters, q.delivered, q.registered)
    ensures var t := RunOf(old(StateOf(q, start)), events, times); var end := if events == [] then start else times[|times| - 1];
            results == t.results && StateOf(q, end) == t.state.(db := LiveItems(t.state.db, end))
            && Runs.SameFrom(q.store.items, t.state.db, end)
    ensures var end := if events == [] then start else times[|times| - 1];
            old(Timeless(q.store.Live(start))) ==>
              old(Holdings(StateOf(q, start))) + PushedIn(events, results)
              == Holdings(StateOf(q, end)) + PoppedIn(events, results)
  {
    hide Orderly, Store.Shaped, IndexOf, NoEmptyIn, LiveItems, Holdings, Timeless, StepEvent, PushedIn, PoppedIn;
    ghost var s := StateOf(q, start);
    ghost var now := start;
    results := [];
    Runs.LiveIdempotent(q.store.items, start);
    Runs.AgreeForEver(q.store.items, s.db, start);
    LiveNoEmpty(q.store.items, start);
    for i := 0 to |events|
      invariant q.Valid() && now == if i == 0 then start else times[i - 1]
      invariant var t := RunOf(s, events[..i], times[..i]);
                results == t.results && Runs.SameFrom(q.store.items, t.state.db, now)
                && q.waiters == t.state.waiters && q.delivered == t.state.delivered && q.registered == t.state.registered
    {
      assert events[..i + 1][..i] == events[..i] && times[..i + 1][..i] == times[..i];
      now := times[i];
      var result := Handle(q, events[i], times[i]);
      Runs.LiveIdempotent(q.store.items, now);
      Runs.AgreeForEver(q.store.items, q.store.Live(now), now);
      results := results + [result];
    }
    assert events[..|events|] == events && times[..|events|] == times;
    if Timeless(s.db) {
      RunConserves(s, events, times);
      NothingExpires(RunOf(s, events, times).state.db, now);
    }
  }
}
