/** Laws between the operations of the specification: what one undoes of another, and what a read
    after a write returns. */
module Laws {
  import opened Bytes
  import opened Keyspace
  import ValueLoops

  // ----- lists

  /** A list cell as the store keeps them: absent, or a list that is not empty. */
  predicate ListCell(cell: Cell) { cell.Some? ==> cell.value.value.ListV? && cell.value.value.elements != [] }

  /** A list is a stack at either end: popping as many elements as were pushed returns them last first
      and restores the list. */
  lemma PushPopStack(cell: Cell, values: seq<Str>, left: bool)
    requires ListCell(cell) && values != []
    ensures var e := PopAct(PushAct(cell, values, left).cell, |values|, left);
            e.reply == Popped(Reversed(values)) && e.cell == cell
  {
    hide Reversed;
    var l := ListOf(cell);
    var r := Reversed(values);
    if left {
      assert (r + l)[|r|..] == l && (r + l)[..|r|] == r;
    } else {
      assert (l + values)[..|l|] == l && (l + values)[|l|..] == values;
    }
  }

  /** Across its ends a list is a queue: what RPUSH appends to an absent list LPOP returns in order, and
      what LPUSH stacks up RPOP does. */
  lemma PushPopQueue(values: seq<Str>, left: bool)
    requires values != []
    ensures var e := PopAct(PushAct(None, values, left).cell, |values|, !left);
            e.reply == Popped(values) && e.cell == None
  {
    hide Reversed;
    if left {
      var r := Reversed(values);
      assert r + [] == r && r[0..] == r;
      ReversedTwice(values);
    } else {
      assert [] + values == values && values[..|values|] == values;
    }
  }

  lemma ReversedTwice(s: seq<Str>)
    ensures Reversed(Reversed(s)) == s
  {
  }

  lemma PortionsFront(l: seq<Str>, a: nat, b: nat)
    requires a + b <= |l|
    ensures l[a..][b..] == l[a + b..] && l[..a] + l[a..][..b] == l[..a + b]
  {
  }

  lemma PortionsBack(l: seq<Str>, a: nat, b: nat)
    requires a + b <= |l|
    ensures var n := |l|; var rest := l[..n - a];
            rest[..|rest| - b] == l[..n - a - b]
            && Reversed(l[n - a..]) + Reversed(rest[|rest| - b..]) == Reversed(l[n - a - b..])
  {
    var n := |l|;
    var rest := l[..n - a];
    var x, y, z := Reversed(l[n - a..]), Reversed(rest[n - a - b..]), Reversed(l[n - a - b..]);
    hide Reversed;
    forall i | 0 <= i < a + b ensures (x + y)[i] == z[i] {}
    assert x + y == z;
  }

  /** Popping in two portions is popping at once. */
  lemma PopTwice(cell: Cell, a: nat, b: nat, left: bool)
    requires cell.Some? && ListCell(cell) && a + b <= |cell.value.value.elements| && a < |cell.value.value.elements|
    ensures var first := PopAct(cell, a, left); var second := PopAct(first.cell, b, left); var once := PopAct(cell, a + b, left);
            first.reply.Popped? && second.reply.Popped? && once.reply == Popped(first.reply.popped + second.reply.popped)
            && once.cell == second.cell
  {
    hide Reversed;
    if left { PortionsFront(cell.value.value.elements, a, b); } else { PortionsBack(cell.value.value.elements, a, b); }
  }

  // ----- numbers

  lemma ParsePrinted(n: int)
    requires IsInt64(n)
    ensures ParseInt64(SignedDigits(n)) == Some(n)
  {
    FromCharsSigned(n);
    var s := SignedDigits(n);
    assert s[0] != PLUS by { assert s[0] == MINUS || IsDigit(s[0]); }
  }

  /** INCRBY answers the number GET then returns in decimal, and subtracting again answers the number
      before. */
  lemma IncrUndone(cell: Cell, delta: int)
    requires IncrAct(cell, delta).reply.Number?
    ensures var e := IncrAct(cell, delta);
            GetAct(e.cell).reply == Got(SignedDigits(e.reply.number))
            && ParseInt64(SignedDigits(e.reply.number)) == Some(e.reply.number)
            && IncrAct(e.cell, -delta).reply == Number(e.reply.number - delta)
            && IncrAct(e.cell, 0).cell == e.cell
  {
    hide SignedDigits, ParseInt64;
    ParsePrinted(IncrAct(cell, delta).reply.number);
  }

  lemma ParseHashPrinted(n: int)
    requires IsInt64(n)
    ensures ParseHashInteger(SignedDigits(n)) == Some(n)
  {
    FromCharsSigned(n);
    var s := SignedDigits(n);
    if n == 0 {
      assert s == [48] && Text("0") == [48];
    } else {
      var digits := Digits(if n < 0 then -n else n);
      FirstDigit(if n < 0 then -n else n);
      assert s[if n < 0 then 1 else 0] == digits[0];
      assert Text("0") == [48];
      assert s != [48];
    }
  }

  lemma {:induction false} FirstDigit(n: nat)
    requires n > 0
    ensures 49 <= Digits(n)[0] <= 57
  {
    if n >= 10 { FirstDigit(n / 10); }
  }

  /** HINCRBY likewise; its stricter parser still reads what it prints. */
  lemma HincrbyUndone(cell: Cell, field: Str, delta: int)
    requires HincrbyAct(cell, field, delta).reply.Number?
    ensures var e := HincrbyAct(cell, field, delta);
            e.cell.Some? && e.cell.value.value.HashV?
            && HincrbyAct(e.cell, field, -delta).reply == Number(e.reply.number - delta)
            && HincrbyAct(e.cell, field, 0).cell == e.cell
  {
    hide SignedDigits, ParseHashInteger;
    var e := HincrbyAct(cell, field, delta);
    ParseHashPrinted(e.reply.number);
    var h := e.cell.value.value.fields;
    assert h[field := h[field]] == h;
  }

  /** The parser of HINCRBY accepts exactly the texts that HINCRBY writes. */
  lemma HashIntegerExact(s: Str, n: int)
    ensures ParseHashInteger(s) == Some(n) <==> IsInt64(n) && s == SignedDigits(n)
  {
    hide SignedDigits, ParseHashInteger;
    if IsInt64(n) && s == SignedDigits(n) { ParseHashPrinted(n); }
    if ParseHashInteger(s) == Some(n) { OnlyPrinted(s, n); }
  }

  lemma OnlyPrinted(s: Str, n: int)
    requires ParseHashInteger(s) == Some(n)
    ensures s == SignedDigits(n)
  {
    hide Digits;
    if s == Text("0") {
      DigitsCanonical(s);
      assert DigitsValue(s) == 0 by { assert s[..0] == []; }
    } else {
      var body := if s[0] == MINUS then s[1..] else s;
      assert body[0] == s[if s[0] == MINUS then 1 else 0];
      DigitsCanonical(body);
      DigitsPositive(body);
    }
  }

  // ----- sets and hashes

  /** SADD counts the members that were new, and SREM of those alone takes exactly them out again. */
  lemma SaddUndone(cell: Cell, values: seq<Str>)
    requires cell.Some? && cell.value.value.SetV? && cell.value.value.members != {}
    requires forall v :: v in values ==> v !in cell.value.value.members
    ensures var e := SaddAct(cell, values);
            SremAct(e.cell, values).cell == cell && SremAct(e.cell, values).reply == e.reply
  {
    hide Members;
    var s, m := cell.value.value.members, Members(values);
    NamedOnly(values);
    assert s + m - m == s && (s + m) * m == m && m - s == m;
  }

  lemma NamedOnly(values: seq<Str>)
    ensures forall v :: v in Members(values) <==> v in values
  {
  }

  /** SADD twice is SADD once: the second finds nothing new. */
  lemma SaddTwice(cell: Cell, values: seq<Str>)
    requires cell.Some? ==> cell.value.value.SetV?
    ensures var e := SaddAct(cell, values);
            SaddAct(e.cell, values).cell == e.cell && SaddAct(e.cell, values).reply == Count(0)
  {
    hide Members;
    var s, m := SetOf(cell), Members(values);
    assert s + m + m == s + m && m - (s + m) == {};
  }

  /** What HSET stored: the last value given for a field, at place i, and the old one, if any, where
      none was given and i is -1. */
  lemma {:induction false} OverlayHolds<V>(m: map<Str, V>, pairs: seq<(Str, V)>, field: Str, i: int)
    requires -1 <= i < |pairs| && (i >= 0 ==> pairs[i].0 == field)
    requires forall j :: i < j < |pairs| ==> pairs[j].0 != field
    ensures field in Overlay(m, pairs) <==> i >= 0 || field in m
    ensures field in Overlay(m, pairs) ==> Overlay(m, pairs)[field] == if i >= 0 then pairs[i].1 else m[field]
  {
    var n := |pairs| - 1;
    if i < n { OverlayHolds(m, pairs[..n], field, i); }
  }

  /** HSETNX never changes a field that is there, and HSETNX then HDEL of an absent field restores a
      hash. */
  lemma HsetnxUndone(cell: Cell, field: Str, value: Str)
    requires cell.Some? && cell.value.value.HashV? && cell.value.value.fields != map[]
    ensures field in HashOf(cell) ==> HsetnxAct(cell, field, value) == Effect(cell, Count(0))
    ensures field !in HashOf(cell) ==>
              HsetnxAct(cell, field, value).reply == Count(1)
              && HdelAct(HsetnxAct(cell, field, value).cell, [field]) == Effect(cell, Count(1))
  {
    var h := cell.value.value.fields;
    if field !in h {
      var after := h[field := value];
      OneMember(field);
      assert after - {field} == h;
      assert after.Keys * {field} == {field};
    }
  }

  lemma OneMember(x: Str)
    ensures Members([x]) == {x}
  {
  }

  /** HSET: the last value given for a field, at place i, or the old one where none was given and i is
      -1; the deadline stays; and the reply is the growth of the hash. */
  lemma HsetHolds(cell: Cell, pairs: seq<(Str, Str)>, field: Str, i: int)
    requires (cell.Some? ==> cell.value.value.HashV?) && pairs != []
    requires -1 <= i < |pairs| && (i >= 0 ==> pairs[i].0 == field)
    requires forall j :: i < j < |pairs| ==> pairs[j].0 != field
    ensures var e := HsetAct(cell, pairs);
            e.cell.Some? && e.cell.value.value.HashV? && e.reply.Count?
            && (var before, after := HashOf(cell), e.cell.value.value.fields;
                (field in after <==> i >= 0 || field in before)
                && (field in after ==> after[field] == if i >= 0 then pairs[i].1 else before[field])
                && |after| == |before| + e.reply.count)
  {
    OverlayHolds(HashOf(cell), pairs, field, i);
    Grown(HashOf(cell), Overlay(HashOf(cell), pairs));
  }

  /** ZADD likewise, with scores. */
  lemma ZaddHolds(cell: Cell, pairs: seq<(Str, Score)>, member: Str, i: int)
    requires cell.Some? ==> cell.value.value.ZSetV?
    requires -1 <= i < |pairs| && (i >= 0 ==> pairs[i].0 == member)
    requires forall j :: i < j < |pairs| ==> pairs[j].0 != member
    ensures var e := ZaddAct(cell, pairs);
            e.cell.Some? && e.cell.value.value.ZSetV? && e.reply.Count?
            && (var before, after := ZSetOf(cell), e.cell.value.value.scores;
                (member in after <==> i >= 0 || member in before)
                && (member in after ==> after[member] == if i >= 0 then pairs[i].1 else before[member])
                && |after| == |before| + e.reply.count)
  {
    OverlayHolds(ZSetOf(cell), pairs, member, i);
    Grown(ZSetOf(cell), Overlay(ZSetOf(cell), pairs));
  }

  lemma Grown<V>(before: map<Str, V>, after: map<Str, V>)
    requires before.Keys <= after.Keys
    ensures |after| == |before| + Added(before, after)
  {
    assert after.Keys == before.Keys + (after.Keys - before.Keys);
    assert |after.Keys| == |after| && |before.Keys| == |before|;
  }

  /** What is left of a hash, set or sorted set, none if it is empty. */
  function FieldsLeft(cell: Cell): map<Str, Str> { if cell.Some? && cell.value.value.HashV? then cell.value.value.fields else map[] }

  function MembersLeft(cell: Cell): set<Str> { if cell.Some? && cell.value.value.SetV? then cell.value.value.members else {} }

  function ScoresLeft(cell: Cell): map<Str, Score> { if cell.Some? && cell.value.value.ZSetV? then cell.value.value.scores else map[] }

  /** HDEL takes out the fields named and no others, and answers how many there were; an emptied hash is
      gone. */
  lemma HdelTakes(cell: Cell, names: seq<Str>, field: Str)
    requires cell.Some? && cell.value.value.HashV?
    ensures var e := HdelAct(cell, names); var before, after := FieldsLeft(cell), FieldsLeft(e.cell);
            e.reply.Count? && |before| == |after| + e.reply.count && (e.cell.None? <==> after == map[])
            && (field in after <==> field in before && field !in names) && (field in after ==> after[field] == before[field])
  {
    hide Members;
    NamedOnly(names);
    Shrunk(FieldsLeft(cell), Members(names));
  }

  lemma ZremTakes(cell: Cell, names: seq<Str>, member: Str)
    requires cell.Some? && cell.value.value.ZSetV?
    ensures var e := ZremAct(cell, names); var before, after := ScoresLeft(cell), ScoresLeft(e.cell);
            e.reply.Count? && |before| == |after| + e.reply.count && (e.cell.None? <==> after == map[])
            && (member in after <==> member in before && member !in names) && (member in after ==> after[member] == before[member])
  {
    hide Members;
    NamedOnly(names);
    Shrunk(ScoresLeft(cell), Members(names));
  }

  lemma Shrunk<V>(m: map<Str, V>, names: set<Str>)
    ensures |m| == |m - names| + |m.Keys * names|
  {
    assert (m - names).Keys == m.Keys - names;
    assert m.Keys == (m.Keys - names) + m.Keys * names;
  }

  /** SADD puts in the members named, SREM takes them out; the replies are growth and shrinkage. */
  lemma SetMembers(cell: Cell, names: seq<Str>, member: Str)
    requires cell.Some? ==> cell.value.value.SetV?
    ensures var e := SaddAct(cell, names); var before, after := MembersLeft(cell), MembersLeft(e.cell);
            e.reply.Count? && |after| == |before| + e.reply.count && (member in after <==> member in before || member in names)
    ensures cell.Some? ==>
              var e := SremAct(cell, names); var before, after := MembersLeft(cell), MembersLeft(e.cell);
              e.reply.Count? && |before| == |after| + e.reply.count && (e.cell.None? <==> after == {})
              && (member in after <==> member in before && member !in names)
  {
    hide Members;
    NamedOnly(names);
    var s, m := MembersLeft(cell), Members(names);
    assert s + m == s + (m - s) && s == (s - m) + s * m;
  }

  // ----- SET and its options

  /** NX and XX: SET NX is applied exactly to an absent key, SET XX exactly to a present one, and a
      refused SET changes nothing. An applied one stores the value; the time left is the duration given,
      or with KEEPTTL what it was, or else none. */
  lemma SetExact(cell: Cell, now: nat, value: Str, ttl: nat, keepTtl: bool, nx: bool, xx: bool)
    requires cell.Some? ==> Alive(cell.value.expireAt, now)
    ensures var e := SetAct(cell, now, value, ttl, keepTtl, nx, xx);
            (nx && !xx ==> (e.reply == Applied <==> cell.None?))
            && (xx && !nx ==> (e.reply == Applied <==> cell.Some?))
            && (!nx && !xx ==> e.reply == Applied)
            && (e.reply != Applied ==> e == Effect(cell, NotApplied))
            && (e.reply == Applied ==>
                  GetAct(e.cell).reply == Got(value)
                  && TtlAct(e.cell, now, true).reply
                     == if ttl > 0 then Number(ttl)
                        else if keepTtl && cell.Some? then TtlAct(cell, now, true).reply
                        else Number(-1))
  {
  }

  // ----- numbers

  /** INCRBY on an absent key starts at 0; on a printed number it adds, and refuses what does not fit. */
  lemma IncrExact(n: int, delta: int, deadline: nat)
    requires IsInt64(n) && IsInt64(delta)
    ensures IncrAct(None, delta) == Effect(Some(Item(StringV(SignedDigits(delta)), 0)), Number(delta))
    ensures var cell := Some(Item(StringV(SignedDigits(n)), deadline));
            IncrAct(cell, delta)
            == if IsInt64(n + delta) then Effect(Some(Item(StringV(SignedDigits(n + delta)), deadline)), Number(n + delta))
               else Effect(cell, Overflow)
  {
    hide SignedDigits, ParseInt64;
    ParsePrinted(n);
  }

  /** HINCRBY on an absent key or field starts at 0 too, and leaves the other fields alone. */
  lemma HincrbyExact(h: map<Str, Str>, field: Str, n: int, delta: int, deadline: nat)
    requires IsInt64(n) && IsInt64(delta)
    ensures HincrbyAct(None, field, delta) == Effect(Some(Item(HashV(map[field := SignedDigits(delta)]), 0)), Number(delta))
    ensures var before := Some(Item(HashV(h - {field}), deadline));
            HincrbyAct(before, field, delta)
            == Effect(Some(Item(HashV((h - {field})[field := SignedDigits(delta)]), deadline)), Number(delta))
    ensures var before := Some(Item(HashV(h[field := SignedDigits(n)]), deadline));
            HincrbyAct(before, field, delta)
            == if IsInt64(n + delta) then
                 Effect(Some(Item(HashV(h[field := SignedDigits(n + delta)]), deadline)), Number(n + delta))
               else Effect(before, Overflow)
  {
    hide SignedDigits, ParseHashInteger;
    ParseHashPrinted(n);
    var none: map<Str, Str> := map[];
    assert none[field := SignedDigits(delta)] == map[field := SignedDigits(delta)];
    assert h[field := SignedDigits(n)][field := SignedDigits(n + delta)] == h[field := SignedDigits(n + delta)];
  }

  /** A text with anything but digits behind its sign is no integer, and stays as it is. */
  lemma IncrRefuses(item: Item, delta: int, i: nat)
    requires item.value.StringV? && i < |item.value.text|
    requires var c := item.value.text[i]; !(48 <= c <= 57) && (i > 0 || (c != 43 && c != 45))
    ensures IncrAct(Some(item), delta) == Effect(Some(item), NotAnInteger)
  {
    var t := item.value.text;
    if t[0] == PLUS {
      assert i > 0 && t[1..][i - 1] == t[i];
    } else if t[0] == MINUS {
      assert i > 0 && t[1..][i - 1] == t[i];
    }
  }

  // ----- deadlines

  /** SET then GET and TTL: the value, and the whole duration or none. */
  lemma SetRead(cell: Cell, now: nat, value: Str, ttl: nat)
    ensures var e := SetAct(cell, now, value, ttl, false, false, false);
            e.reply == Applied && GetAct(e.cell).reply == Got(value)
            && TtlAct(e.cell, now, true).reply == Number(if ttl == 0 then -1 else ttl)
  {
  }

  /** EXPIRE then TTL answers the duration, in seconds rounded up; PERSIST undoes it for good; and the
      logged wall-clock deadline, given to PEXPIREAT at any clock of the same process before it has
      passed, sets the same deadline. */
  lemma ExpireRead(cell: Cell, clock: Clock, ttl: nat, other: Clock)
    requires cell.Some? && Alive(cell.value.expireAt, clock.now) && ttl > 0
    requires other.wall - other.now == clock.wall - clock.now && other.wall < clock.wall + ttl
    ensures var e := ExpireAct(cell, clock, ttl);
            e.reply == Expiry(1, clock.wall + ttl)
            && TtlAct(e.cell, clock.now, true).reply == Number(ttl)
            && TtlAct(e.cell, clock.now, false).reply.Number?
            && 1000 * (TtlAct(e.cell, clock.now, false).reply.number - 1) < ttl
               <= 1000 * TtlAct(e.cell, clock.now, false).reply.number
            && TtlAct(PersistAct(e.cell).cell, clock.now, true).reply == Number(-1)
            && PersistAct(e.cell).cell == Some(cell.value.(expireAt := 0))
            && ExpireAtAct(e.cell, other, clock.wall + ttl).cell == e.cell
  {
  }

  // ----- several keys

  /** After MSET each key holds the last value it was given, at place i, without a deadline; a key that
      was given none, when i is -1, is as it was. */
  lemma {:induction false} MsetHolds(db: Db, pairs: seq<(Str, Str)>, key: Str, i: int)
    requires -1 <= i < |pairs| && (i >= 0 ==> pairs[i].0 == key)
    requires forall j :: i < j < |pairs| ==> pairs[j].0 != key
    ensures Lookup(MsetDb(db, pairs), key) == if i >= 0 then Some(Item(StringV(pairs[i].1), 0)) else Lookup(db, key)
  {
    var n := |pairs| - 1;
    if i < n { MsetHolds(db, pairs[..n], key, i); }
  }

  /** After MSET of distinct keys, MGET of them returns exactly the values. */
  lemma MsetMget(db: Db, pairs: seq<(Str, Str)>)
    requires DistinctKeys(pairs)
    ensures MgetReply(MsetDb(db, pairs), seq(|pairs|, i requires 0 <= i < |pairs| => pairs[i].0))
         == seq(|pairs|, i requires 0 <= i < |pairs| => Some(pairs[i].1))
  {
    forall i | 0 <= i < |pairs| ensures Lookup(MsetDb(db, pairs), pairs[i].0) == Some(Item(StringV(pairs[i].1), 0)) {
      MsetHolds(db, pairs, pairs[i].0, i);
    }
  }

  /** DEL answers how many keys of the map it removed, and EXISTS finds none of them afterwards. */
  lemma DelCounts(db: Db, keys: seq<Str>)
    ensures |db| == |DelDb(db, keys)| + DelCount(db, keys)
    ensures ExistsCount(DelDb(db, keys), keys) == 0
  {
    hide Members;
    var m := Members(keys);
    assert DelDb(db, keys).Keys == db.Keys - m;
    assert db.Keys == (db.Keys - m) + db.Keys * m;
    assert (db.Keys - m) !! (db.Keys * m);
    NamedOnly(keys);
    NoneExist(DelDb(db, keys), keys);
  }

  lemma {:induction false} NoneExist(db: Db, keys: seq<Str>)
    requires forall k :: k in keys ==> k !in db
    ensures ExistsCount(db, keys) == 0
  {
    if keys != [] {
      NoneExist(db, keys[..|keys| - 1]);
      assert keys[|keys| - 1] in keys;
    }
  }

  /** Of distinct keys, EXISTS counts what DEL would. */
  lemma {:induction false} ExistsIsDel(db: Db, keys: seq<Str>)
    requires NoDuplicates(keys)
    ensures ExistsCount(db, keys) == DelCount(db, keys)
  {
    hide Members;
    if keys == [] {
      ValueLoops.NoMembers(db.Keys);
    } else {
      var n := |keys| - 1;
      ExistsIsDel(db, keys[..n]);
      NamedOnly(keys[..n]);
      ValueLoops.MembersStep(keys, n, db.Keys);
      assert keys[..n + 1] == keys;
    }
  }
}
