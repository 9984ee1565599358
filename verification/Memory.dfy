/** What estimate_entry_memory charges for an entry, and the sum over a whole keyspace. */
module Memory {
  import opened Bytes
  import opened Keyspace

  // Each sum below visits its collection in an arbitrary order; the lemma after it shows that the
  // order does not matter.

  ghost function Pick(s: set<Str>): (k: Str)
    requires s != {}
    ensures k in s
  {
    var k :| k in s; k
  }

  lemma Smaller<V>(m: map<Str, V>, k: Str)
    requires k in m
    ensures m != map[] && (m - {k}).Keys == m.Keys - {k} && |m - {k}| == |m| - 1
  {
    assert (m - {k}).Keys == m.Keys - {k};
  }

  // ----- lists

  function Sizes(s: seq<Str>): nat {
    if s == [] then 0 else Sizes(s[..|s| - 1]) + 48 + |s[|s| - 1]|
  }

  lemma {:induction false} SizesConcat(s: seq<Str>, t: seq<Str>)
    ensures Sizes(s + t) == Sizes(s) + Sizes(t)
  {
    if t == [] {
      assert s + t == s;
    } else {
      var n := |t| - 1;
      SizesConcat(s, t[..n]);
      assert (s + t)[..|s + t| - 1] == s + t[..n];
    }
  }

  lemma {:induction false} SizesReversed(s: seq<Str>)
    ensures Sizes(Reversed(s)) == Sizes(s)
  {
    if s != [] {
      var n := |s| - 1;
      SizesReversed(s[..n]);
      SizesConcat([s[n]], Reversed(s[..n]));
      assert [s[n]][..0] == [];
    }
  }

  // ----- hashes

  ghost function FieldsWeight(h: map<Str, Str>): nat
    decreases |h|
  {
    if h == map[] then 0
    else
      var f := Pick(h.Keys);
      Smaller(h, f);
      64 + |f| + |h[f]| + FieldsWeight(h - {f})
  }

  lemma {:induction false} FieldsWithout(h: map<Str, Str>, f: Str)
    requires f in h
    ensures FieldsWeight(h) == 64 + |f| + |h[f]| + FieldsWeight(h - {f})
    decreases |h|
  {
    Smaller(h, f);
    var c := Pick(h.Keys);
    Smaller(h, c);
    if c != f {
      FieldsWithout(h - {c}, f);
      FieldsWithout(h - {f}, c);
      assert h - {c} - {f} == h - {f} - {c};
    }
  }

  lemma FieldsPut(h: map<Str, Str>, f: Str, v: Str)
    ensures FieldsWeight(h[f := v]) == 64 + |f| + |v| + FieldsWeight(h - {f})
    ensures f in h ==> FieldsWeight(h) == 64 + |f| + |h[f]| + FieldsWeight(h - {f})
    ensures f !in h ==> h - {f} == h
  {
    FieldsWithout(h[f := v], f);
    assert h[f := v] - {f} == h - {f};
    if f in h { FieldsWithout(h, f); }
  }

  // ----- sets

  ghost function MembersWeight(s: set<Str>): nat {
    if s == {} then 0
    else
      var x := Pick(s);
      48 + |x| + MembersWeight(s - {x})
  }

  lemma {:induction false} MembersWithout(s: set<Str>, x: Str)
    requires x in s
    ensures MembersWeight(s) == 48 + |x| + MembersWeight(s - {x})
  {
    var c := Pick(s);
    if c != x {
      MembersWithout(s - {c}, x);
      MembersWithout(s - {x}, c);
      assert s - {c} - {x} == s - {x} - {c};
    }
  }

  lemma MembersPut(s: set<Str>, x: Str)
    requires x !in s
    ensures MembersWeight(s + {x}) == 48 + |x| + MembersWeight(s)
  {
    MembersWithout(s + {x}, x);
    assert s + {x} - {x} == s;
  }

  // ----- sorted sets

  ghost function ScoresWeight(z: map<Str, Score>): nat
    decreases |z|
  {
    if z == map[] then 0
    else
      var x := Pick(z.Keys);
      Smaller(z, x);
      64 + |x| + ScoresWeight(z - {x})
  }

  lemma {:induction false} ScoresWithout(z: map<Str, Score>, x: Str)
    requires x in z
    ensures ScoresWeight(z) == 64 + |x| + ScoresWeight(z - {x})
    decreases |z|
  {
    Smaller(z, x);
    var c := Pick(z.Keys);
    Smaller(z, c);
    if c != x {
      ScoresWithout(z - {c}, x);
      ScoresWithout(z - {x}, c);
      assert z - {c} - {x} == z - {x} - {c};
    }
  }

  lemma ScoresPut(z: map<Str, Score>, x: Str, score: Score)
    ensures ScoresWeight(z[x := score]) == 64 + |x| + ScoresWeight(z - {x})
    ensures x in z ==> ScoresWeight(z) == 64 + |x| + ScoresWeight(z - {x})
    ensures x !in z ==> z - {x} == z
  {
    ScoresWithout(z[x := score], x);
    assert z[x := score] - {x} == z - {x};
    if x in z { ScoresWithout(z, x); }
  }

  // ----- entries and the whole keyspace

  const ENTRY_OVERHEAD: nat := 112

  ghost function Weight(key: Str, v: Value): nat {
    ENTRY_OVERHEAD + |key| +
      match v
      case StringV(t) => |t|
      case ListV(l) => Sizes(l)
      case HashV(h) => FieldsWeight(h)
      case SetV(s) => MembersWeight(s)
      case ZSetV(z) => ScoresWeight(z)
  }

  ghost function Total(db: Db): nat
    decreases |db|
  {
    if db == map[] then 0
    else
      var k := Pick(db.Keys);
      Smaller(db, k);
      Weight(k, db[k].value) + Total(db - {k})
  }

  lemma {:induction false} TotalErase(db: Db, key: Str)
    ensures key in db ==> Total(db) == Weight(key, db[key].value) + Total(db - {key})
    ensures key !in db ==> db - {key} == db
    decreases |db|
  {
    hide Weight;
    if key in db {
      Smaller(db, key);
      var c := Pick(db.Keys);
      Smaller(db, c);
      if c != key {
        TotalErase(db - {c}, key);
        TotalErase(db - {key}, c);
        assert db - {c} - {key} == db - {key} - {c};
      }
    }
  }

  lemma TotalPut(db: Db, key: Str, item: Item)
    ensures Total(db[key := item]) == Weight(key, item.value) + Total(db - {key})
  {
    hide Weight;
    TotalErase(db[key := item], key);
    assert db[key := item] - {key} == db - {key};
  }

  // ----- estimate_entry_memory

  method EstimateFields(h: map<Str, Str>) returns (mem: nat)
    ensures mem == FieldsWeight(h)
  {
    mem := |h| * 64;
    var rest := h;
    while rest != map[]
      invariant mem == FieldsWeight(h) - FieldsWeight(rest) + 64 * |rest|
      decreases |rest|
    {
      var f :| f in rest;
      mem := mem + |f| + |rest[f]|;
      FieldsWithout(rest, f);
      Smaller(rest, f);
      rest := rest - {f};
    }
  }

  method EstimateMembers(s: set<Str>) returns (mem: nat)
    ensures mem == MembersWeight(s)
  {
    mem := |s| * 48;
    var rest := s;
    while rest != {}
      invariant mem == MembersWeight(s) - MembersWeight(rest) + 48 * |rest|
      decreases |rest|
    {
      var x :| x in rest;
      mem := mem + |x|;
      MembersWithout(rest, x);
      rest := rest - {x};
    }
  }

  method EstimateScores(z: map<Str, Score>) returns (mem: nat)
    ensures mem == ScoresWeight(z)
  {
    mem := |z| * 64;
    var rest := z;
    while rest != map[]
      invariant mem == ScoresWeight(z) - ScoresWeight(rest) + 64 * |rest|
      decreases |rest|
    {
      var x :| x in rest;
      mem := mem + |x|;
      ScoresWithout(rest, x);
      Smaller(rest, x);
      rest := rest - {x};
    }
  }

  method EstimateElements(l: seq<Str>) returns (mem: nat)
    ensures mem == Sizes(l)
  {
    mem := |l| * 48;
    for i := 0 to |l|
      invariant mem == Sizes(l[..i]) + 48 * (|l| - i)
    {
      mem := mem + |l[i]|;
      assert l[..i + 1][..i] == l[..i];
    }
    assert l[..|l|] == l;
  }

  method EstimateEntryMemory(key: Str, value: Value) returns (mem: nat)
    ensures mem == Weight(key, value)
  {
    mem := 112 + |key|;
    var payload: nat;
    match value {
      case StringV(t) => { payload := |t|; }
      case ListV(l) => { payload := EstimateElements(l); }
      case HashV(h) => { payload := EstimateFields(h); }
      case SetV(s) => { payload := EstimateMembers(s); }
      case ZSetV(z) => { payload := EstimateScores(z); }
    }
    mem := mem + payload;
  }
}
