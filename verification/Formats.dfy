/** The formats and figures the program has in common with its clients, its files and other programs, in
    literal bytes and numbers. */
module Formats {
  import opened Bytes
  import opened Keyspace
  import Resp
  import Sharding
  import Crc
  import Memory
  import Snapshot
  import Stream

  // ----- numbers

  /** Numbers are decimal, the most significant digit first. */
  lemma NumbersPrinted()
    ensures Digits(0) == Text("0") && Digits(1203) == Text("1203") && SignedDigits(-45) == Text("-45")
  {
    assert Digits(12) == Digits(1) + [50];
    assert Digits(120) == Digits(12) + [48];
    assert Digits(1203) == Digits(120) + [51];
    assert Digits(45) == Digits(4) + [53];
    assert Text("1203") == [49, 50, 48, 51] && Text("-45") == [45, 52, 53] && Text("0") == [48];
  }

  // ----- the protocol

  /** A command of three words, as it goes over the wire and into the log. */
  lemma CommandPrinted(a: Str, b: Str, c: Str)
    ensures Resp.Print([a, b, c])
         == Text("*3\r\n")
            + (Text("$") + Digits(|a|) + Text("\r\n") + a + Text("\r\n"))
            + (Text("$") + Digits(|b|) + Text("\r\n") + b + Text("\r\n"))
            + (Text("$") + Digits(|c|) + Text("\r\n") + c + Text("\r\n"))
  {
    hide Digits, Text, Resp.ArrayHeader, Resp.BulkString;
    BulkPrinted(a);
    BulkPrinted(b);
    BulkPrinted(c);
    ThreeAhead();
    assert [a, b, c][1..] == [b, c] && [b, c][1..] == [c] && [c][1..] == [];
    assert Resp.Bulks([c]) == Resp.BulkString(c) + [];
    assert Resp.Bulks([b, c]) == Resp.BulkString(b) + Resp.BulkString(c);
    assert Resp.Bulks([a, b, c]) == Resp.BulkString(a) + (Resp.BulkString(b) + Resp.BulkString(c));
  }

  lemma BulkPrinted(v: Str)
    ensures Resp.BulkString(v) == Text("$") + Digits(|v|) + Text("\r\n") + v + Text("\r\n")
  {
    hide Digits, Text;
    Marks();
  }

  lemma Marks()
    ensures Text("$") == [36] && Text("\r\n") == [13, 10]
  {
  }

  lemma ThreeAhead()
    ensures Resp.ArrayHeader(3) == Text("*3\r\n")
  {
    assert Text("*3\r\n") == [42, 51, 13, 10] && Digits(3) == [51];
  }

  // ----- the shards

  /** The values published for the hash: 64-bit FNV-1a of nothing and of "a", which is in shard 12. */
  lemma HashValues()
    ensures Sharding.Fnv([]) == 0xCBF29CE484222325 && Sharding.Fnv(Text("a")) == 0xAF63DC4C8601EC8C
    ensures Sharding.ShardIndex(Text("a")) == 12
  {
    assert Text("a") == [97] && [97][..0] == [];
    LetterBits();
    Product();
  }

  lemma LetterBits()
    ensures Crc.Bits8(97) as bv64 == 97
  {
    assert Crc.Bits8(97) as int == 97;
  }

  lemma Product()
    ensures (0xCBF29CE484222325 as bv64 ^ 97) * 1099511628211 == 0xAF63DC4C8601EC8C
    ensures (((0xAF63DC4C8601EC8C as bv64) & 31) as bv8) as nat == 12
  {
  }

  // ----- memory

  /** What one entry of each kind is charged. */
  lemma Charges(key: Str, a: Str, b: Str, score: Score)
    ensures Memory.Weight(key, StringV(a)) == 112 + |key| + |a|
    ensures Memory.Weight(key, ListV([a, b])) == 112 + |key| + 96 + |a| + |b|
    ensures Memory.Weight(key, HashV(map[a := b])) == 112 + |key| + 64 + |a| + |b|
    ensures Memory.Weight(key, SetV({a})) == 112 + |key| + 48 + |a|
    ensures Memory.Weight(key, ZSetV(map[a := score])) == 112 + |key| + 64 + |a|
  {
    assert [a, b][..1] == [a] && [a][..0] == [];
    assert Memory.Sizes([a]) == 48 + |a|;
    Memory.FieldsWithout(map[a := b], a);
    assert map[a := b] - {a} == map[];
    Memory.MembersWithout({a}, a);
    assert {a} - {a} == {};
    Memory.ScoresWithout(map[a := score], a);
    assert map[a := score] - {a} == map[];
  }

  // ----- the snapshot

  /** The bytes of an entry of each kind, for short texts: type, key, value and deadline. */
  lemma EntrySaved(key: Str, a: Str, b: Str)
    requires |key| < 256 && |a| < 256 && |b| < 256
    ensures var none := [0, 0, 0, 0, 0, 0, 0, 0];
            Snapshot.EntryBytes(DumpEntry(key, StringDump(a), 0)) == [0] + Short(key) + Short(a) + none
            && Snapshot.EntryBytes(DumpEntry(key, ListDump([a, b]), 0)) == [1] + Short(key) + [2, 0, 0, 0] + Short(a) + Short(b) + none
            && Snapshot.EntryBytes(DumpEntry(key, HashDump([(a, b)]), 0)) == [2] + Short(key) + [1, 0, 0, 0] + Short(a) + Short(b) + none
            && Snapshot.EntryBytes(DumpEntry(key, SetDump([a]), 0)) == [3] + Short(key) + [1, 0, 0, 0] + Short(a) + none
            && Snapshot.EntryBytes(DumpEntry(key, ZSetDump([(a, 513)]), 0))
               == [4] + Short(key) + [1, 0, 0, 0] + Short(a) + [1, 2, 0, 0, 0, 0, 0, 0] + none
  {
    hide Snapshot.Sized, Snapshot.Le, Short;
    ShortSized(key);
    ShortSized(a);
    ShortSized(b);
    WordsSaved();
    OnePart(Snapshot.One(a));
    OnePart(Snapshot.Two(a, b));
    OnePart(Snapshot.Scored(a, 513));
    TwoParts(Snapshot.One(a), Snapshot.One(b));
    assert Snapshot.Parts(ListDump([a, b])) == [Snapshot.One(a), Snapshot.One(b)];
    assert Snapshot.Parts(HashDump([(a, b)])) == [Snapshot.Two(a, b)];
    assert Snapshot.Parts(SetDump([a])) == [Snapshot.One(a)];
    assert Snapshot.Parts(ZSetDump([(a, 513)])) == [Snapshot.Scored(a, 513)];
  }

  /** A length below 256 in four bytes, and the text. */
  function Short(s: Str): Str
    requires |s| < 256
  {
    [|s| as byte, 0, 0, 0] + s
  }

  lemma ShortSized(s: Str)
    requires |s| < 256
    ensures Snapshot.Sized(s) == Short(s)
  {
    assert s[..|s|] == s;
    ShortWord(|s|);
  }

  lemma ShortWord(n: nat)
    requires n < 256
    ensures Snapshot.Le(n, 4) == [n as byte, 0, 0, 0]
  {
    assert Snapshot.Le(0, 2) == [0, 0];
    assert Snapshot.Le(0, 3) == [0, 0, 0];
  }

  lemma WordsSaved()
    ensures Snapshot.Le(1, 4) == [1, 0, 0, 0] && Snapshot.Le(2, 4) == [2, 0, 0, 0]
    ensures Snapshot.Le(0, 8) == [0, 0, 0, 0, 0, 0, 0, 0] && Snapshot.Le(513, 8) == [1, 2, 0, 0, 0, 0, 0, 0]
  {
    ShortWord(0);
    ShortWord(1);
    ShortWord(2);
    assert Snapshot.Le(0, 5) == [0, 0, 0, 0, 0];
    assert Snapshot.Le(0, 6) == [0, 0, 0, 0, 0, 0];
    assert Snapshot.Le(2, 7) == [2, 0, 0, 0, 0, 0, 0];
  }

  lemma OnePart(p: Snapshot.Part)
    ensures Snapshot.PartsBytes([p]) == Snapshot.PartBytes(p)
  {
    assert [p][..0] == [];
  }

  lemma TwoParts(p: Snapshot.Part, q: Snapshot.Part)
    ensures Snapshot.PartsBytes([p, q]) == Snapshot.PartBytes(p) + Snapshot.PartBytes(q)
  {
    assert [p, q][..1] == [p];
    OnePart(p);
  }

  /** A file: the mark, the time, how many entries follow, and the checksum of all that. */
  lemma EmptySaved()
    ensures Snapshot.Body([], 0) == Text("KVLLAYS2") + [0, 0, 0, 0, 0, 0, 0, 0] + [0, 0, 0, 0, 0, 0, 0, 0]
    ensures Snapshot.CrcBytes(0x04030201) == [1, 2, 3, 4]
  {
    WordsSaved();
  }

  // ----- the log in reads

  /** The log is read 65536 bytes at a time. */
  lemma FirstRead(file: Str)
    requires file != []
    ensures Stream.Chunks(file)[0] == file[..if |file| < 65536 then |file| else 65536]
  {
  }
}
