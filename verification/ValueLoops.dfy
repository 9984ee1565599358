/** The loops of store.hpp over the fields, members, scores and elements of one entry. */
module ValueLoops {
  import opened Bytes
  import opened Keyspace
  import opened Memory

  lemma AddedStep<V>(m: map<Str, V>, after: map<Str, V>, k: Str, v: V)
    requires m.Keys <= after.Keys
    ensures Added(m, after[k := v]) == Added(m, after) + if k in after then 0 else 1
  {
    if k in after {
      assert after[k := v].Keys == after.Keys;
    } else {
      assert after[k := v].Keys - m.Keys == after.Keys - m.Keys + {k};
    }
  }

  /** The keys met after one more value. */
  lemma MembersStep(values: seq<Str>, i: nat, keys: set<Str>)
    requires i < |values|
    ensures Members(values[..i + 1]) == Members(values[..i]) + {values[i]}
    ensures |keys * Members(values[..i + 1])| == |keys * Members(values[..i])|
              + if values[i] in keys - Members(values[..i]) then 1 else 0
    ensures |Members(values[..i + 1]) - keys| == |Members(values[..i]) - keys|
              + if values[i] in keys + Members(values[..i]) then 0 else 1
  {
    assert values[..i + 1] == values[..i] + [values[i]];
    assert Members(values[..i + 1]) == Members(values[..i]) + {values[i]};
    MeetStep(keys, Members(values[..i]), values[i]);
    BeyondStep(keys, Members(values[..i]), values[i]);
  }

  lemma MeetStep(keys: set<Str>, s: set<Str>, x: Str)
    ensures |keys * (s + {x})| == |keys * s| + if x in keys - s then 1 else 0
  {
    if x in keys - s { assert keys * (s + {x}) == keys * s + {x}; } else { assert keys * (s + {x}) == keys * s; }
  }

  lemma BeyondStep(keys: set<Str>, s: set<Str>, x: Str)
    ensures |s + {x} - keys| == |s - keys| + if x in keys + s then 0 else 1
  {
    if x in keys + s { assert s + {x} - keys == s - keys; } else { assert s + {x} - keys == s - keys + {x}; }
  }

  /** What is left, and how many keys have gone, after one more value. */
  lemma RemoveStep<V>(m: map<Str, V>, values: seq<Str>, i: nat, after: map<Str, V>)
    requires i < |values| && after == m - Members(values[..i])
    ensures m - Members(values[..i + 1]) == if values[i] in after then after - {values[i]} else after
    ensures |m.Keys * Members(values[..i + 1])| == |m.Keys * Members(values[..i])| + if values[i] in after then 1 else 0
  {
    hide Members;
    MembersStep(values, i, m.Keys);
    MinusMore(m, Members(values[..i]), values[i]);
  }

  lemma MinusMore<V>(m: map<Str, V>, s: set<Str>, x: Str)
    ensures m - (s + {x}) == if x in m - s then m - s - {x} else m - s
    ensures x in m - s <==> x in m.Keys - s
  {
  }

  lemma MinusNothing<V>(m: map<Str, V>)
    ensures m - Members([]) == m
  {
  }

  /** The insertion loop of hset. */
  method PutAll(m: map<Str, Str>, pairs: seq<(Str, Str)>) returns (after: map<Str, Str>, added: nat)
    ensures after == Overlay(m, pairs) && added == Added(m, after)
  {
    hide Added;
    after, added := m, 0;
    AddedNone(m);
    for i := 0 to |pairs|
      invariant after == Overlay(m, pairs[..i]) && added == Added(m, after)
    {
      assert pairs[..i + 1][..i] == pairs[..i];
      AddedStep(m, after, pairs[i].0, pairs[i].1);
      if pairs[i].0 !in after { added := added + 1; }
      after := after[pairs[i].0 := pairs[i].1];
    }
    assert pairs[..|pairs|] == pairs;
  }

  lemma AddedNone<V>(m: map<Str, V>)
    ensures Added(m, m) == 0
  {
    assert m.Keys - m.Keys == {};
  }

  /** The insertion loop of zadd, with the bytes it counts. */
  method PutScores(z: map<Str, Score>, values: seq<(Str, Score)>)
    returns (after: map<Str, Score>, added: nat, bytes: nat)
    ensures after == Overlay(z, values) && added == Added(z, after)
    ensures bytes == ScoresWeight(after) - ScoresWeight(z)
  {
    hide ScoresWeight, Added;
    after, added, bytes := z, 0, 0;
    AddedNone(z);
    for i := 0 to |values|
      invariant after == Overlay(z, values[..i]) && added == Added(z, after)
      invariant bytes == ScoresWeight(after) - ScoresWeight(z)
    {
      assert values[..i + 1][..i] == values[..i];
      ScoresPut(after, values[i].0, values[i].1);
      AddedStep(z, after, values[i].0, values[i].1);
      if values[i].0 !in after {
        added := added + 1;
        bytes := bytes + 64 + |values[i].0|;
      }
      after := after[values[i].0 := values[i].1];
    }
    assert values[..|values|] == values;
  }

  /** The erasing loop of hdel. */
  method RemoveFields(key: Str, h: map<Str, Str>, fields: seq<Str>) returns (after: map<Str, Str>, removed: nat)
    ensures after == h - Members(fields) && removed == |h.Keys * Members(fields)|
    ensures Weight(key, HashV(after)) <= Weight(key, HashV(h))
  {
    hide FieldsWeight, Members;
    after, removed := h, 0;
    MinusNothing(h);
    NoMembers(h.Keys);
    for i := 0 to |fields|
      invariant after == h - Members(fields[..i]) && removed == |h.Keys * Members(fields[..i])|
      invariant FieldsWeight(after) <= FieldsWeight(h)
    {
      RemoveStep(h, fields, i, after);
      if fields[i] in after {
        FieldsWithout(after, fields[i]);
        removed := removed + 1;
        after := after - {fields[i]};
      }
    }
    assert fields[..|fields|] == fields;
  }

  lemma NoMembers(keys: set<Str>)
    ensures |keys * Members([])| == 0 && Members([]) == {}
  {
    assert Members([]) == {};
    assert keys * Members([]) == {};
  }

  /** The erasing loop of zrem, with the bytes it counts. */
  method RemoveScores(z: map<Str, Score>, values: seq<Str>) returns (after: map<Str, Score>, removed: nat, bytes: nat)
    ensures after == z - Members(values) && removed == |z.Keys * Members(values)|
    ensures bytes == ScoresWeight(z) - ScoresWeight(after)
  {
    hide ScoresWeight, Members;
    after, removed, bytes := z, 0, 0;
    MinusNothing(z);
    NoMembers(z.Keys);
    for i := 0 to |values|
      invariant after == z - Members(values[..i]) && removed == |z.Keys * Members(values[..i])|
      invariant bytes == ScoresWeight(z) - ScoresWeight(after)
    {
      RemoveStep(z, values, i, after);
      if values[i] in after {
        ScoresWithout(after, values[i]);
        bytes := bytes + 64 + |values[i]|;
        removed := removed + 1;
        after := after - {values[i]};
      }
    }
    assert values[..|values|] == values;
  }

  /** The insertion loop of sadd. */
  method AddMembers(key: Str, s: set<Str>, values: seq<Str>) returns (after: set<Str>, added: nat)
    ensures after == s + Members(values) && added == |Members(values) - s|
    ensures 0 < Weight(key, SetV(s)) <= Weight(key, SetV(after))
    ensures values != [] ==> after != {}
  {
    hide MembersWeight, Members;
    after, added := s, 0;
    NoMembers(s);
    for i := 0 to |values|
      invariant after == s + Members(values[..i]) && added == |Members(values[..i]) - s|
      invariant MembersWeight(s) <= MembersWeight(after)
    {
      MembersStep(values, i, s);
      if values[i] !in after {
        MembersPut(after, values[i]);
        added := added + 1;
      } else {
        assert after + {values[i]} == after;
      }
      after := after + {values[i]};
    }
    if values != [] { SomeMember(values); }
    assert values[..|values|] == values;
  }

  /** The erasing loop of srem. */
  method RemoveMembers(key: Str, s: set<Str>, values: seq<Str>) returns (after: set<Str>, removed: nat)
    ensures after == s - Members(values) && removed == |s * Members(values)|
    ensures Weight(key, SetV(after)) <= Weight(key, SetV(s))
  {
    hide MembersWeight, Members;
    after, removed := s, 0;
    NoMembers(s);
    for i := 0 to |values|
      invariant after == s - Members(values[..i]) && removed == |s * Members(values[..i])|
      invariant MembersWeight(after) <= MembersWeight(s)
    {
      MembersStep(values, i, s);
      if values[i] in after {
        MembersWithout(after, values[i]);
        removed := removed + 1;
        after := after - {values[i]};
      }
    }
    assert values[..|values|] == values;
  }

  lemma SomeMember(values: seq<Str>)
    requires values != []
    ensures values[0] in Members(values)
  {
  }

  lemma ScoresEmpty()
    ensures ScoresWeight(map[]) == 0
  {
  }

  lemma HashGrows(key: Str, h: map<Str, Str>, field: Str, value: Str)
    requires field !in h
    ensures 0 < Weight(key, HashV(h)) <= Weight(key, HashV(h[field := value]))
  {
    FieldsPut(h, field, value);
  }

  // ----- lists

  /** The emplace_front loop of lpush. */
  method PushFront(l: seq<Str>, values: seq<Str>) returns (after: seq<Str>)
    ensures after == Reversed(values) + l && Sizes(after) == Sizes(l) + Sizes(values)
  {
    after := l;
    assert Reversed(values[..0]) + l == l;
    for i := 0 to |values|
      invariant after == Reversed(values[..i]) + l
    {
      assert values[..i + 1][..i] == values[..i];
      assert Reversed(values[..i + 1]) == [values[i]] + Reversed(values[..i]);
      after := [values[i]] + after;
    }
    assert values[..|values|] == values;
    SizesConcat(Reversed(values), l);
    SizesReversed(values);
  }

  /** The emplace_back loop of rpush. */
  method PushBack(l: seq<Str>, values: seq<Str>) returns (after: seq<Str>)
    ensures after == l + values && Sizes(after) == Sizes(l) + Sizes(values)
  {
    after := l;
    for i := 0 to |values|
      invariant after == l + values[..i]
    {
      after := after + [values[i]];
    }
    SizesConcat(l, values);
    assert values[..|values|] == values;
  }

  /** The popping loop of lpop, with the bytes it counts. */
  method PopFront(l: seq<Str>, n: nat) returns (after: seq<Str>, popped: seq<Str>, bytes: nat)
    requires n <= |l|
    ensures after == l[n..] && popped == l[..n]
    ensures bytes == Sizes(l) - Sizes(after)
  {
    after, popped, bytes := l, [], n * 48;
    for i := 0 to n
      invariant after == l[i..] && popped == l[..i]
      invariant bytes == Sizes(l) - Sizes(after) + 48 * (n - i)
    {
      SizesConcat([after[0]], after[1..]);
      SizesOne(after[0]);
      assert after == [after[0]] + after[1..];
      bytes := bytes + |after[0]|;
      popped := popped + [after[0]];
      after := after[1..];
    }
  }

  lemma SizesOne(e: Str)
    ensures Sizes([e]) == 48 + |e|
  {
    assert [e][..0] == [];
  }

  /** The popping loop of rpop, with the bytes it counts. */
  method PopBack(l: seq<Str>, n: nat) returns (after: seq<Str>, popped: seq<Str>, bytes: nat)
    requires n <= |l|
    ensures after == l[..|l| - n] && popped == Reversed(l[|l| - n..])
    ensures bytes == Sizes(l) - Sizes(after)
  {
    after, popped, bytes := l, [], n * 48;
    for i := 0 to n
      invariant after == l[..|l| - i] && |popped| == i
      invariant forall j :: 0 <= j < i ==> popped[j] == l[|l| - 1 - j]
      invariant bytes == Sizes(l) - Sizes(after) + 48 * (n - i)
    {
      var last := |after| - 1;
      bytes := bytes + |after[last]|;
      popped := popped + [after[last]];
      after := after[..last];
    }
    assert popped == Reversed(l[|l| - n..]);
  }
}
