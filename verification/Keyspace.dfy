/** The specification of the store: one flat map from keys to items, and what each operation does
    to it at a given time. Shards, lazy deletion, memory accounting and indexes do not appear. */
module Keyspace {
  import opened Bytes

  /** A double, as the 64 bits that represent it. */
  newtype Score = x: int | 0 <= x < 0x1_0000_0000_0000_0000

  datatype Value =
    | StringV(text: Str)
    | ListV(elements: seq<Str>)
    | HashV(fields: map<Str, Str>)
    | SetV(members: set<Str>)
    | ZSetV(scores: map<Str, Score>)

  /** A deadline of 0 means none. */
  datatype Item = Item(value: Value, expireAt: nat)

  type Cell = Option<Item>
  type Db = map<Str, Item>

  /** The steady clock, which deadlines are kept in, and the wall clock, which files use. */
  datatype Clock = Clock(now: nat, wall: nat)

  datatype Reply =
    | Applied
    | NotApplied
    | NotFound
    | WrongType
    | NotAnInteger
    | Overflow
    | Got(text: Str)
    | Count(count: nat)
    | Number(number: int)
    | Popped(popped: seq<Str>)
    | Expiry(changed: nat, deadline: nat)
    | Values(values: seq<Option<Str>>)

  datatype Effect = Effect(cell: Cell, reply: Reply)

  predicate Alive(expireAt: nat, now: nat) { expireAt == 0 || expireAt > now }

  /** The items whose deadline has not passed. */
  function LiveItems(db: Db, now: nat): (live: Db)
    ensures forall k :: k in live <==> k in db && Alive(db[k].expireAt, now)
    ensures forall k :: k in live ==> live[k] == db[k]
  {
    db - set k | k in db && !Alive(db[k].expireAt, now)
  }

  function Lookup(db: Db, key: Str): Cell { if key in db then Some(db[key]) else None }

  function Update(db: Db, key: Str, cell: Cell): Db {
    if cell.Some? then db[key := cell.value] else db - {key}
  }

  predicate EmptyValue(v: Value) {
    match v
    case StringV(_) => false
    case ListV(l) => l == []
    case HashV(h) => h == map[]
    case SetV(s) => s == {}
    case ZSetV(z) => z == map[]
  }

  // ----- strings

  function SetAct(cell: Cell, now: nat, value: Str, ttl: nat, keepTtl: bool, nx: bool, xx: bool): Effect {
    if (nx && cell.Some?) || (xx && cell.None?) then Effect(cell, NotApplied)
    else
      var expireAt := if ttl != 0 then now + ttl else if keepTtl && cell.Some? then cell.value.expireAt else 0;
      Effect(Some(Item(StringV(value), expireAt)), Applied)
  }

  function SetexAct(now: nat, ttl: nat, value: Str): Effect {
    Effect(Some(Item(StringV(value), now + ttl)), Applied)
  }

  function GetAct(cell: Cell): Effect {
    if cell.None? then Effect(cell, NotFound)
    else if !cell.value.value.StringV? then Effect(cell, WrongType)
    else Effect(cell, Got(cell.value.value.text))
  }

  /** parse_int64: as FromChars, with one plus sign allowed in front. */
  function ParseInt64(s: Str): (r: Option<int>)
    ensures r.Some? ==> IsInt64(r.value)
  {
    if s == [] then None
    else if s[0] != PLUS then FromChars(s)
    else if |s| == 1 || s[1] == MINUS || s[1] == PLUS then None
    else FromChars(s[1..])
  }

  function DeadlineOf(cell: Cell): nat { if cell.Some? then cell.value.expireAt else 0 }

  function IncrAct(cell: Cell, delta: int): Effect {
    if cell.Some? && !cell.value.value.StringV? then Effect(cell, WrongType)
    else
      var current := if cell.Some? then ParseInt64(cell.value.value.text) else Some(0);
      if current.None? then Effect(cell, NotAnInteger)
      else if !IsInt64(current.value + delta) then Effect(cell, Overflow)
      else
        var sum := current.value + delta;
        Effect(Some(Item(StringV(SignedDigits(sum)), DeadlineOf(cell))), Number(sum))
  }

  // ----- hashes

  function Overlay<V>(m: map<Str, V>, pairs: seq<(Str, V)>): (r: map<Str, V>)
    ensures m.Keys <= r.Keys
    ensures forall i :: 0 <= i < |pairs| ==> pairs[i].0 in r
  {
    if pairs == [] then m
    else
      var n := |pairs| - 1;
      Overlay(m, pairs[..n])[pairs[n].0 := pairs[n].1]
  }

  function Added<V>(before: map<Str, V>, after: map<Str, V>): nat
    requires before.Keys <= after.Keys
  {
    |after.Keys - before.Keys|
  }

  function HashOf(cell: Cell): map<Str, Str>
    requires cell.Some? ==> cell.value.value.HashV?
  {
    if cell.Some? then cell.value.value.fields else map[]
  }

  function HsetAct(cell: Cell, fields: seq<(Str, Str)>): Effect {
    if fields == [] then Effect(cell, Count(0))
    else if cell.Some? && !cell.value.value.HashV? then Effect(cell, WrongType)
    else
      var after := Overlay(HashOf(cell), fields);
      Effect(Some(Item(HashV(after), DeadlineOf(cell))), Count(Added(HashOf(cell), after)))
  }

  function HsetnxAct(cell: Cell, field: Str, value: Str): Effect {
    if cell.Some? && !cell.value.value.HashV? then Effect(cell, WrongType)
    else if field in HashOf(cell) then Effect(cell, Count(0))
    else Effect(Some(Item(HashV(HashOf(cell)[field := value]), DeadlineOf(cell))), Count(1))
  }

  /** parse_hash_integer: no plus sign and no leading zeros. */
  function ParseHashInteger(s: Str): (r: Option<int>)
    ensures r.Some? ==> IsInt64(r.value)
  {
    if s == [] then None
    else if s == Text("0") then Some(0)
    else
      var first := if s[0] == MINUS then 1 else 0;
      if first == |s| || !(49 <= s[first] <= 57) then None else FromChars(s)
  }

  function HincrbyAct(cell: Cell, field: Str, delta: int): Effect {
    if cell.Some? && !cell.value.value.HashV? then Effect(cell, WrongType)
    else
      var current := if field in HashOf(cell) then ParseHashInteger(HashOf(cell)[field]) else Some(0);
      if current.None? then Effect(cell, NotAnInteger)
      else if !IsInt64(current.value + delta) then Effect(cell, Overflow)
      else
        var sum := current.value + delta;
        Effect(Some(Item(HashV(HashOf(cell)[field := SignedDigits(sum)]), DeadlineOf(cell))), Number(sum))
  }

  function Members(values: seq<Str>): set<Str> { set v | v in values }

  lemma {:induction false} SubsetSize(a: set<Str>, b: set<Str>)
    requires a <= b
    ensures |a| <= |b|
  {
    if a != {} {
      var x :| x in a;
      SubsetSize(a - {x}, b - {x});
    }
  }

  function HdelAct(cell: Cell, fields: seq<Str>): Effect {
    if cell.None? then Effect(cell, NotFound)
    else if !cell.value.value.HashV? then Effect(cell, WrongType)
    else
      var after := HashOf(cell) - Members(fields);
      Effect(if after == map[] then None else Some(cell.value.(value := HashV(after))),
             Count(|HashOf(cell).Keys * Members(fields)|))
  }

  // ----- sets and sorted sets

  function SetOf(cell: Cell): set<Str>
    requires cell.Some? ==> cell.value.value.SetV?
  {
    if cell.Some? then cell.value.value.members else {}
  }

  function SaddAct(cell: Cell, values: seq<Str>): Effect {
    if cell.Some? && !cell.value.value.SetV? then Effect(cell, WrongType)
    else Effect(Some(Item(SetV(SetOf(cell) + Members(values)), DeadlineOf(cell))), Count(|Members(values) - SetOf(cell)|))
  }

  function SremAct(cell: Cell, values: seq<Str>): Effect {
    if cell.None? then Effect(cell, NotFound)
    else if !cell.value.value.SetV? then Effect(cell, WrongType)
    else
      var after := SetOf(cell) - Members(values);
      Effect(if after == {} then None else Some(cell.value.(value := SetV(after))),
             Count(|SetOf(cell) * Members(values)|))
  }

  function ZSetOf(cell: Cell): map<Str, Score>
    requires cell.Some? ==> cell.value.value.ZSetV?
  {
    if cell.Some? then cell.value.value.scores else map[]
  }

  function ZaddAct(cell: Cell, values: seq<(Str, Score)>): Effect {
    if cell.Some? && !cell.value.value.ZSetV? then Effect(cell, WrongType)
    else
      var after := Overlay(ZSetOf(cell), values);
      Effect(Some(Item(ZSetV(after), DeadlineOf(cell))), Count(Added(ZSetOf(cell), after)))
  }

  function ZremAct(cell: Cell, values: seq<Str>): Effect {
    if cell.None? then Effect(cell, NotFound)
    else if !cell.value.value.ZSetV? then Effect(cell, WrongType)
    else
      var after := ZSetOf(cell) - Members(values);
      Effect(if after == map[] then None else Some(cell.value.(value := ZSetV(after))),
             Count(|ZSetOf(cell).Keys * Members(values)|))
  }

  // ----- lists

  function Reversed<T>(s: seq<T>): (r: seq<T>)
    ensures |r| == |s|
    ensures forall i :: 0 <= i < |s| ==> r[i] == s[|s| - 1 - i]
  {
    if s == [] then [] else [s[|s| - 1]] + Reversed(s[..|s| - 1])
  }

  function ListOf(cell: Cell): seq<Str>
    requires cell.Some? ==> cell.value.value.ListV?
  {
    if cell.Some? then cell.value.value.elements else []
  }

  /** lpush and rpush. */
  function PushAct(cell: Cell, values: seq<Str>, left: bool): Effect {
    if values == [] then Effect(cell, Count(0))
    else if cell.Some? && !cell.value.value.ListV? then Effect(cell, WrongType)
    else
      var after := if left then Reversed(values) + ListOf(cell) else ListOf(cell) + values;
      Effect(Some(Item(ListV(after), DeadlineOf(cell))), Count(|after|))
  }

  function Min(a: nat, b: nat): nat { if a <= b then a else b }

  /** lpop and rpop. */
  function PopAct(cell: Cell, count: nat, left: bool): Effect {
    if cell.None? then Effect(cell, NotFound)
    else if !cell.value.value.ListV? then Effect(cell, WrongType)
    else if ListOf(cell) == [] then Effect(None, NotFound)
    else
      var l := ListOf(cell);
      var n := Min(count, |l|);
      var rest := if left then l[n..] else l[..|l| - n];
      var popped := if left then l[..n] else Reversed(l[|l| - n..]);
      Effect(if rest == [] then None else Some(cell.value.(value := ListV(rest))), Popped(popped))
  }

  // ----- deadlines

  function ExpireAct(cell: Cell, clock: Clock, ttl: nat): Effect {
    if cell.None? then Effect(cell, Expiry(0, 0))
    else if ttl == 0 then Effect(None, Expiry(1, 0))
    else Effect(Some(cell.value.(expireAt := clock.now + ttl)), Expiry(1, clock.wall + ttl))
  }

  function ExpireAtAct(cell: Cell, clock: Clock, epoch: nat): Effect {
    if cell.None? then Effect(cell, Count(0))
    else if epoch <= clock.wall then Effect(None, Count(1))
    else Effect(Some(cell.value.(expireAt := clock.now + (epoch - clock.wall))), Count(1))
  }

  /** The remaining time, in milliseconds or rounded up to seconds; -1 without a deadline, -2
      without a key. */
  function TtlAct(cell: Cell, now: nat, milliseconds: bool): Effect
    requires cell.Some? ==> Alive(cell.value.expireAt, now)
  {
    if cell.None? then Effect(cell, Number(-2))
    else if cell.value.expireAt == 0 then Effect(cell, Number(-1))
    else
      var rest := cell.value.expireAt - now;
      Effect(cell, Number(if milliseconds then rest else (rest + 999) / 1000))
  }

  function PersistAct(cell: Cell): Effect {
    if cell.None? || cell.value.expireAt == 0 then Effect(cell, Count(0))
    else Effect(Some(cell.value.(expireAt := 0)), Count(1))
  }

  // ----- several keys

  function MsetDb(db: Db, pairs: seq<(Str, Str)>): Db {
    if pairs == [] then db
    else
      var n := |pairs| - 1;
      MsetDb(db, pairs[..n])[pairs[n].0 := Item(StringV(pairs[n].1), 0)]
  }

  function MgetReply(db: Db, keys: seq<Str>): (r: seq<Option<Str>>)
    ensures |r| == |keys|
  {
    seq(|keys|, i requires 0 <= i < |keys| =>
      if keys[i] in db && db[keys[i]].value.StringV? then Some(db[keys[i]].value.text) else None)
  }

  function ExistsCount(db: Db, keys: seq<Str>): nat {
    if keys == [] then 0
    else ExistsCount(db, keys[..|keys| - 1]) + if keys[|keys| - 1] in db then 1 else 0
  }

  function DelDb(db: Db, keys: seq<Str>): Db { db - Members(keys) }

  /** How many different live keys are named. */
  function DelCount(db: Db, keys: seq<Str>): nat { |db.Keys * Members(keys)| }

  // ----- dumps

  /** A value as get_all_entries lists it, and as the restore functions take it. */
  datatype DumpValue =
    | StringDump(text: Str)
    | ListDump(elements: seq<Str>)
    | HashDump(fields: seq<(Str, Str)>)
    | SetDump(members: seq<Str>)
    | ZSetDump(scores: seq<(Str, Score)>)

  /** The deadline is a wall-clock time, 0 for none. */
  datatype DumpEntry = DumpEntry(key: Str, value: DumpValue, deadline: nat)

  /** unordered_map::emplace in a loop: a repeated key keeps its first value. */
  function FirstWins(pairs: seq<(Str, Str)>): map<Str, Str> {
    if pairs == [] then map[]
    else
      var n := |pairs| - 1;
      var before := FirstWins(pairs[..n]);
      if pairs[n].0 in before then before else before[pairs[n].0 := pairs[n].1]
  }

  predicate NoDuplicates<T(==)>(s: seq<T>) { forall i, j :: 0 <= i < j < |s| ==> s[i] != s[j] }

  predicate DistinctKeys<V>(pairs: seq<(Str, V)>) { forall i, j :: 0 <= i < j < |pairs| ==> pairs[i].0 != pairs[j].0 }

  /** The value the restore functions build. */
  function ValueOf(d: DumpValue): Value {
    match d
    case StringDump(t) => StringV(t)
    case ListDump(l) => ListV(l)
    case HashDump(p) => HashV(FirstWins(p))
    case SetDump(m) => SetV(Members(m))
    case ZSetDump(p) => ZSetV(Overlay(map[], p))
  }

  predicate EmptyDump(d: DumpValue) {
    match d
    case StringDump(_) => false
    case ListDump(l) => l == []
    case HashDump(p) => p == []
    case SetDump(m) => m == []
    case ZSetDump(p) => p == []
  }

  /** d lists every part of v once. */
  predicate Lists(d: DumpValue, v: Value) {
    ValueOf(d) == v
    && (d.HashDump? ==> DistinctKeys(d.fields))
    && (d.SetDump? ==> NoDuplicates(d.members))
    && (d.ZSetDump? ==> DistinctKeys(d.scores))
  }

  function WallDeadline(expireAt: nat, clock: Clock): int {
    if expireAt == 0 then 0 else clock.wall + (expireAt - clock.now)
  }

  /** entries lists every item of db once, in some order. */
  ghost predicate Dumps(entries: seq<DumpEntry>, db: Db, clock: Clock) {
    (forall i, j :: 0 <= i < j < |entries| ==> entries[i].key != entries[j].key)
    && (forall k :: k in db ==> exists i :: 0 <= i < |entries| && entries[i].key == k)
    && (forall i :: 0 <= i < |entries| ==>
          entries[i].key in db
          && Lists(entries[i].value, db[entries[i].key].value)
          && entries[i].deadline == WallDeadline(db[entries[i].key].expireAt, clock))
  }

  /** What restoring one entry does. */
  function RestoreDb(db: Db, clock: Clock, e: DumpEntry): Db {
    if EmptyDump(e.value) then db
    else if e.deadline == 0 then db[e.key := Item(ValueOf(e.value), 0)]
    else if e.deadline <= clock.wall then db - {e.key}
    else db[e.key := Item(ValueOf(e.value), clock.now + (e.deadline - clock.wall))]
  }

  function RestoreAll(db: Db, clock: Clock, entries: seq<DumpEntry>): Db {
    if entries == [] then db
    else
      var n := |entries| - 1;
      RestoreDb(RestoreAll(db, clock, entries[..n]), clock, entries[n])
  }

  /** b, at time cb, is what has become of a, seen at time ca, possibly in another process: the same
      values and wall-clock deadlines, without the keys whose deadline has passed. */
  ghost predicate Carries(a: Db, ca: Clock, b: Db, cb: Clock) {
    forall k ::
      (k in b <==> k in a && (a[k].expireAt == 0 || WallDeadline(a[k].expireAt, ca) > cb.wall))
      && (k in b ==> b[k].value == a[k].value
                     && (b[k].expireAt == 0 <==> a[k].expireAt == 0)
                     && WallDeadline(b[k].expireAt, cb) == WallDeadline(a[k].expireAt, ca))
  }
}
