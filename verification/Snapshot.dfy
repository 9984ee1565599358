/** The snapshot file (snapshot.hpp): its writer, its cursor-based reader, and why a saved file is
    read back as what was saved or not at all. */
module Snapshot {
  import opened Bytes
  import opened Keyspace
  import opened StoreModel
  import Crc
  import Dump

  const MAGIC: Str := Text("KVLLAYS1")
  const MAGIC2: Str := Text("KVLLAYS2")

  // ----- little-endian words

  /** The low `width` bytes of n, lowest first: what memcpy of an unsigned word writes. */
  function Le(n: nat, width: nat): (s: Str)
    ensures |s| == width
  {
    if width == 0 then [] else [(n % 256) as byte] + Le(n / 256, width - 1)
  }

  function FromLe(s: Str): (n: nat)
    ensures n < Power(|s|)
  {
    if s == [] then 0 else s[0] as nat + 256 * FromLe(s[1..])
  }

  function Power(width: nat): nat { if width == 0 then 1 else 256 * Power(width - 1) }

  lemma {:induction false} LeRoundTrip(n: nat, width: nat)
    requires n < Power(width)
    ensures FromLe(Le(n, width)) == n
  {
    if width > 0 {
      LeRoundTrip(n / 256, width - 1);
      assert Le(n, width)[1..] == Le(n / 256, width - 1);
    }
  }

  const WORD: nat := 0x1_0000_0000
  const LONG: nat := 0x1_0000_0000_0000_0000

  lemma Powers()
    ensures Power(4) == WORD && Power(8) == LONG
  {
    assert Power(2) == 0x1_0000;
    assert Power(4) == WORD;
    assert Power(6) == 0x1_0000_0000_0000;
  }

  // ----- the checksum word

  function LowBits(c: bv32): byte {
    Crc.SlotBits(c);
    (((c & 0xFF) as bv8) as int) as byte
  }

  function CrcBytes(c: bv32): (s: Str)
    ensures |s| == 4
  {
    [LowBits(c), LowBits(c >> 8), LowBits(c >> 16), LowBits(c >> 24)]
  }

  function CrcWord(s: Str): bv32
    requires |s| == 4
  {
    Crc.Word(s[0]) | (Crc.Word(s[1]) << 8) | (Crc.Word(s[2]) << 16) | (Crc.Word(s[3]) << 24)
  }

  lemma LowBitsWord(c: bv32)
    ensures Crc.Word(LowBits(c)) == c & 0xFF
  {
    Crc.SlotBits(c);
  }

  lemma Reassemble(c: bv32)
    ensures (c & 0xFF) | (((c >> 8) & 0xFF) << 8) | (((c >> 16) & 0xFF) << 16) | (((c >> 24) & 0xFF) << 24) == c
  {
  }

  lemma CrcRoundTrip(c: bv32)
    ensures CrcWord(CrcBytes(c)) == c
  {
    hide LowBits, Crc.Word;
    LowBitsWord(c);
    LowBitsWord(c >> 8);
    LowBitsWord(c >> 16);
    LowBitsWord(c >> 24);
    Reassemble(c);
  }

  // ----- the format

  /** An element of a list or set, a field of a hash, a member of a sorted set. */
  datatype Part = One(text: Str) | Two(field: Str, value: Str) | Scored(member: Str, score: Score)

  function Parts(d: DumpValue): seq<Part>
    requires !d.StringDump?
  {
    match d
    case ListDump(l) => seq(|l|, i requires 0 <= i < |l| => One(l[i]))
    case HashDump(p) => seq(|p|, i requires 0 <= i < |p| => Two(p[i].0, p[i].1))
    case SetDump(m) => seq(|m|, i requires 0 <= i < |m| => One(m[i]))
    case ZSetDump(p) => seq(|p|, i requires 0 <= i < |p| => Scored(p[i].0, p[i].1))
  }

  /** The type byte. */
  function Kind(d: DumpValue): byte {
    match d
    case StringDump(_) => 0
    case ListDump(_) => 1
    case HashDump(_) => 2
    case SetDump(_) => 3
    case ZSetDump(_) => 4
  }

  predicate PartOfKind(kind: byte, p: Part) {
    if kind == 2 then p.Two? else if kind == 4 then p.Scored? else p.One?
  }

  /** The value a list of parts of one kind stands for. */
  function FromParts(kind: byte, parts: seq<Part>): DumpValue
    requires 1 <= kind <= 4 && forall i :: 0 <= i < |parts| ==> PartOfKind(kind, parts[i])
  {
    if kind == 1 then ListDump(seq(|parts|, i requires 0 <= i < |parts| && PartOfKind(kind, parts[i]) => parts[i].text))
    else if kind == 2 then
      HashDump(seq(|parts|, i requires 0 <= i < |parts| && PartOfKind(kind, parts[i]) => (parts[i].field, parts[i].value)))
    else if kind == 3 then SetDump(seq(|parts|, i requires 0 <= i < |parts| && PartOfKind(kind, parts[i]) => parts[i].text))
    else ZSetDump(seq(|parts|, i requires 0 <= i < |parts| && PartOfKind(kind, parts[i]) => (parts[i].member, parts[i].score)))
  }

  lemma PartsRoundTrip(d: DumpValue)
    requires !d.StringDump?
    ensures forall i :: 0 <= i < |Parts(d)| ==> PartOfKind(Kind(d), Parts(d)[i])
    ensures FromParts(Kind(d), Parts(d)) == d
  {
  }

  /** The length, truncated to 32 bits, and as many bytes. */
  function Sized(s: Str): Str { Le(|s| % WORD, 4) + s[..|s| % WORD] }

  function PartBytes(p: Part): Str {
    match p
    case One(t) => Sized(t)
    case Two(f, v) => Sized(f) + Sized(v)
    case Scored(m, score) => Sized(m) + Le(score as nat, 8)
  }

  function PartsBytes(parts: seq<Part>): Str {
    if parts == [] then [] else PartsBytes(parts[..|parts| - 1]) + PartBytes(parts[|parts| - 1])
  }

  function ValueBytes(d: DumpValue): Str {
    if d.StringDump? then Sized(d.text) else Le(|Parts(d)|, 4) + PartsBytes(Parts(d))
  }

  function EntryBytes(e: DumpEntry): Str {
    [Kind(e.value)] + Sized(e.key) + ValueBytes(e.value) + Le(e.deadline, 8)
  }

  function EntriesBytes(entries: seq<DumpEntry>): Str {
    if entries == [] then [] else EntriesBytes(entries[..|entries| - 1]) + EntryBytes(entries[|entries| - 1])
  }

  function Body(entries: seq<DumpEntry>, timestamp: nat): Str {
    MAGIC2 + Le(timestamp, 8) + Le(|entries|, 8) + EntriesBytes(entries)
  }

  function FileBytes(entries: seq<DumpEntry>, timestamp: nat): Str {
    Body(entries, timestamp) + CrcBytes(Crc.Crc32(0, Body(entries, timestamp)))
  }

  lemma Joined(a: Str, b: Str, c: Str)
    ensures a + b + c == a + (b + c)
  {
  }

  // ----- the writer

  /** The file being written, with the checksum of all of it so far. */
  class Writer {
    var file: Str
    var crc: bv32
    var table: seq<bv32>

    ghost predicate Valid()
      reads this
    {
      Crc.IsTable(table) && crc == Crc.Crc32(0, file)
    }

    constructor ()
      ensures Valid() && file == []
    {
      var slots := Crc.BuildTable();
      file, crc, table := [], 0, slots[..];
      Crc.Crc32Empty(0);
    }

    /** write_data. */
    method WriteData(data: Str)
      requires Valid()
      modifies `file, `crc
      ensures Valid() && file == old(file) + data
    {
      hide Crc.IsTable, Crc.Crc32;
      file := file + data;
      crc := Crc.Update(table, crc, data);
      Crc.Crc32Concat(0, old(file), data);
    }

    method WriteSized(s: Str)
      requires Valid()
      modifies `file, `crc
      ensures Valid() && file == old(file) + Sized(s)
    {
      hide Crc.IsTable, Crc.Crc32;
      var length := |s| % WORD;
      WriteData(Le(length, 4));
      if length > 0 { WriteData(s[..length]); }
      Joined(old(file), Le(length, 4), s[..length]);
    }

    method WritePart(p: Part)
      requires Valid()
      modifies `file, `crc
      ensures Valid() && file == old(file) + PartBytes(p)
    {
      hide Crc.IsTable, Crc.Crc32, Sized;
      match p {
        case One(t) => { WriteSized(t); }
        case Two(f, v) => { WriteSized(f); WriteSized(v); assert old(file) + Sized(f) + Sized(v) == old(file) + PartBytes(p); }
        case Scored(m, score) => {
          WriteSized(m);
          WriteData(Le(score as nat, 8));
          assert old(file) + Sized(m) + Le(score as nat, 8) == old(file) + PartBytes(p);
        }
      }
    }

    method WriteParts(parts: seq<Part>)
      requires Valid()
      modifies `file, `crc
      ensures Valid() && file == old(file) + PartsBytes(parts)
    {
      hide Crc.IsTable, Crc.Crc32, PartBytes;
      assert old(file) + PartsBytes(parts[..0]) == old(file);
      for i := 0 to |parts|
        invariant Valid() && file == old(file) + PartsBytes(parts[..i])
      {
        assert parts[..i + 1][..i] == parts[..i];
        WritePart(parts[i]);
        Joined(old(file), PartsBytes(parts[..i]), PartBytes(parts[i]));
      }
      assert parts[..|parts|] == parts;
    }

    method WriteValue(d: DumpValue)
      requires Valid()
      modifies `file, `crc
      ensures Valid() && file == old(file) + ValueBytes(d)
    {
      hide Crc.IsTable, Crc.Crc32, Sized, PartsBytes, Parts;
      if d.StringDump? {
        WriteSized(d.text);
      } else {
        WriteData(Le(|Parts(d)|, 4));
        WriteParts(Parts(d));
        Joined(old(file), Le(|Parts(d)|, 4), PartsBytes(Parts(d)));
      }
    }

    method WriteEntry(e: DumpEntry)
      requires Valid()
      modifies `file, `crc
      ensures Valid() && file == old(file) + EntryBytes(e)
    {
      hide Crc.IsTable, Crc.Crc32, Sized, ValueBytes;
      WriteData([Kind(e.value)]);
      WriteSized(e.key);
      WriteValue(e.value);
      WriteData(Le(e.deadline, 8));
      assert old(file) + [Kind(e.value)] + Sized(e.key) + ValueBytes(e.value) + Le(e.deadline, 8) == old(file) + EntryBytes(e);
    }
  }

  /** perform_save: the running checksum covers exactly the bytes in front of it. */
  method Save(entries: seq<DumpEntry>, timestamp: nat) returns (file: Str)
    ensures file == FileBytes(entries, timestamp)
  {
    hide Crc.Crc32, Crc.IsTable, EntryBytes, CrcBytes;
    var w := new Writer();
    w.WriteData(MAGIC2);
    w.WriteData(Le(timestamp, 8));
    w.WriteData(Le(|entries|, 8));
    ghost var head := w.file;
    assert head == MAGIC2 + Le(timestamp, 8) + Le(|entries|, 8);
    for i := 0 to |entries|
      invariant w.Valid() && fresh(w) && w.file == head + EntriesBytes(entries[..i])
    {
      assert entries[..i + 1][..i] == entries[..i];
      w.WriteEntry(entries[i]);
      assert head + EntriesBytes(entries[..i]) + EntryBytes(entries[i]) == head + EntriesBytes(entries[..i + 1]);
    }
    assert entries[..|entries|] == entries;
    file := w.file + CrcBytes(w.crc);
  }

  // ----- the reader

  /** A value read, and the offset behind it. */
  datatype Read<+T> = Read(value: T, next: nat)

  function ReadNat(b: Str, at: nat, width: nat): (r: Option<Read<nat>>)
    ensures r.Some? ==> r.value.next <= |b| && r.value.value < Power(width)
  {
    if at + width > |b| then None else Some(Read(FromLe(b[at..at + width]), at + width))
  }

  function ReadSized(b: Str, at: nat): (r: Option<Read<Str>>)
    ensures r.Some? ==> r.value.next <= |b|
  {
    var n := ReadNat(b, at, 4);
    if n.None? || n.value.next + n.value.value > |b| then None
    else Some(Read(b[n.value.next..n.value.next + n.value.value], n.value.next + n.value.value))
  }

  function AsScore(n: nat): Score
    requires n < Power(8)
  {
    Powers();
    n as Score
  }

  function ReadPart(b: Str, at: nat, kind: byte): (r: Option<Read<Part>>)
    ensures r.Some? ==> r.value.next <= |b| && PartOfKind(kind, r.value.value)
  {
    var first := ReadSized(b, at);
    if first.None? then None
    else if kind == 2 then
      var second := ReadSized(b, first.value.next);
      if second.None? then None else Some(Read(Two(first.value.value, second.value.value), second.value.next))
    else if kind == 4 then
      var score := ReadNat(b, first.value.next, 8);
      if score.None? then None else Some(Read(Scored(first.value.value, AsScore(score.value.value)), score.value.next))
    else Some(Read(One(first.value.value), first.value.next))
  }

  function ReadParts(b: Str, at: nat, kind: byte, count: nat): (r: Option<Read<seq<Part>>>)
    requires at <= |b|
    ensures r.Some? ==> r.value.next <= |b| && |r.value.value| == count
                        && forall i :: 0 <= i < count ==> PartOfKind(kind, r.value.value[i])
  {
    if count == 0 then Some(Read([], at))
    else
      var before := ReadParts(b, at, kind, count - 1);
      if before.None? then None
      else
        var part := ReadPart(b, before.value.next, kind);
        if part.None? then None else Some(Read(before.value.value + [part.value.value], part.value.next))
  }

  function ReadValue(b: Str, at: nat, kind: byte): (r: Option<Read<DumpValue>>)
    ensures r.Some? ==> r.value.next <= |b|
  {
    if kind == 0 then
      var text := ReadSized(b, at);
      if text.None? then None else Some(Read(StringDump(text.value.value), text.value.next))
    else if kind <= 4 then
      var count := ReadNat(b, at, 4);
      if count.None? then None
      else
        var parts := ReadParts(b, count.value.next, kind, count.value.value);
        if parts.None? then None else Some(Read(FromParts(kind, parts.value.value), parts.value.next))
    else None
  }

  /** One entry; in files of the first version there is no type byte, and all values are strings. */
  function ReadEntry(b: Str, at: nat, v1: bool): (r: Option<Read<DumpEntry>>)
    ensures r.Some? ==> r.value.next <= |b|
  {
    if !v1 && at + 1 > |b| then None
    else
      var kind: byte := if v1 then 0 else b[at];
      var key := ReadSized(b, if v1 then at else at + 1);
      if key.None? then None
      else
        var value := ReadValue(b, key.value.next, kind);
        if value.None? then None
        else
          var deadline := ReadNat(b, value.value.next, 8);
          if deadline.None? then None
          else Some(Read(DumpEntry(key.value.value, value.value.value, deadline.value.value), deadline.value.next))
  }

  /** The entries read before the first failure among `count`, and whether there was none. */
  datatype Contents = Contents(entries: seq<DumpEntry>, next: nat, ok: bool)

  function ReadEntries(b: Str, at: nat, v1: bool, count: nat): Contents {
    if count == 0 then Contents([], at, true)
    else
      var before := ReadEntries(b, at, v1, count - 1);
      if !before.ok then before
      else
        var e := ReadEntry(b, before.next, v1);
        if e.None? then Contents(before.entries, before.next, false)
        else Contents(before.entries + [e.value.value], e.value.next, true)
  }

  /** The checks made before anything is restored. */
  predicate Accepted(file: Str) {
    |file| >= 28 && (file[..8] == MAGIC || file[..8] == MAGIC2)
    && Crc.Crc32(0, file[..|file| - 4]) == CrcWord(file[|file| - 4..])
  }

  function ContentsOf(file: Str): Contents
    requires Accepted(file)
  {
    var b := file[..|file| - 4];
    ReadEntries(b, 24, file[..8] == MAGIC, FromLe(b[16..24]))
  }

  /** The entry loop of load. */
  method RestoreEntries(store: Store, b: Str, v1: bool, count: nat, clock: Clock) returns (ok: bool)
    requires store.Valid()
    modifies store`shards, store`items, store`ttlKeys, store`used, store`peak
    ensures store.KeptAll() && ok == ReadEntries(b, 24, v1, count).ok
    ensures store.Live(clock.now)
         == RestoreAll(old(store.Live(clock.now)), clock, ReadEntries(b, 24, v1, count).entries)
  {
    hide Store.Shaped, IndexOf, NoEmptyIn, LiveItems, RestoreDb, ReadEntry, Power, FromLe;
    var offset := 24;
    for i := 0 to count
      invariant store.KeptAll()
      invariant ReadEntries(b, 24, v1, i).ok && ReadEntries(b, 24, v1, i).next == offset
      invariant store.Live(clock.now) == RestoreAll(old(store.Live(clock.now)), clock, ReadEntries(b, 24, v1, i).entries)
    {
      var e := ReadEntry(b, offset, v1);
      if e.None? {
        StopsThere(b, 24, v1, i + 1, count);
        return false;
      }
      ghost var before := ReadEntries(b, 24, v1, i).entries;
      assert (before + [e.value.value])[..|before|] == before;
      Dump.RestoreEntry(store, e.value.value, clock);
      offset := e.value.next;
    }
    ok := true;
  }

  /** load: nothing is restored from a file that fails the checks, and otherwise every entry up to
      the first malformed one. */
  method Load(store: Store, file: Str, clock: Clock) returns (ok: bool)
    requires store.Valid()
    modifies store`shards, store`items, store`ttlKeys, store`used, store`peak
    ensures store.KeptAll()
    ensures !Accepted(file) ==> !ok && store.items == old(store.items)
    ensures Accepted(file) ==>
              ok == ContentsOf(file).ok
              && store.Live(clock.now) == RestoreAll(old(store.Live(clock.now)), clock, ContentsOf(file).entries)
  {
    hide Crc.Crc32, Crc.IsTable, CrcWord, Store.Shaped, IndexOf, NoEmptyIn, LiveItems, RestoreAll, ReadEntries, Power, FromLe;
    if |file| < 28 { return false; }
    var v1 := file[..8] == MAGIC;
    var v2 := file[..8] == MAGIC2;
    if !v1 && !v2 { return false; }
    var dataLen := |file| - 4;
    var slots := Crc.BuildTable();
    var computed := Crc.Update(slots[..], 0, file[..dataLen]);
    if computed != CrcWord(file[dataLen..]) { return false; }
    var b := file[..dataLen];
    ok := RestoreEntries(store, b, v1, FromLe(b[16..24]), clock);
  }

  lemma {:induction false} StopsThere(b: Str, at: nat, v1: bool, i: nat, count: nat)
    requires i <= count && !ReadEntries(b, at, v1, i).ok
    ensures ReadEntries(b, at, v1, count) == ReadEntries(b, at, v1, i)
    decreases count - i
  {
    if i < count { StopsThere(b, at, v1, i, count - 1); }
  }

  // ----- reading back what was written

  predicate Holds(b: Str, at: nat, s: Str) { at + |s| <= |b| && b[at..at + |s|] == s }

  lemma HoldsSplit(b: Str, at: nat, s: Str, t: Str)
    requires Holds(b, at, s + t)
    ensures Holds(b, at, s) && Holds(b, at + |s|, t)
  {
    assert b[at..at + |s|] == b[at..at + |s + t|][..|s|] == s;
    assert b[at + |s|..at + |s| + |t|] == b[at..at + |s + t|][|s|..] == t;
  }

  lemma ReadNatBack(b: Str, at: nat, n: nat, width: nat)
    requires n < Power(width) && Holds(b, at, Le(n, width))
    ensures ReadNat(b, at, width) == Some(Read(n, at + width))
  {
    LeRoundTrip(n, width);
  }

  lemma ReadSizedBack(b: Str, at: nat, s: Str)
    requires |s| < WORD && Holds(b, at, Sized(s))
    ensures ReadSized(b, at) == Some(Read(s, at + |Sized(s)|))
  {
    hide Le, FromLe;
    assert |s| % WORD == |s| && s[..|s|] == s;
    HoldsSplit(b, at, Le(|s|, 4), s);
    Powers();
    ReadNatBack(b, at, |s|, 4);
  }

  /** Lengths and counts fit 32 bits. */
  predicate SmallPart(p: Part) {
    match p
    case One(t) => |t| < WORD
    case Two(f, v) => |f| < WORD && |v| < WORD
    case Scored(m, _) => |m| < WORD
  }

  predicate SmallValue(d: DumpValue) {
    if d.StringDump? then |d.text| < WORD
    else |Parts(d)| < WORD && forall i :: 0 <= i < |Parts(d)| ==> SmallPart(Parts(d)[i])
  }

  predicate SmallEntry(e: DumpEntry) { |e.key| < WORD && SmallValue(e.value) && e.deadline < LONG }

  lemma ReadPartBack(b: Str, at: nat, kind: byte, p: Part)
    requires SmallPart(p) && PartOfKind(kind, p) && Holds(b, at, PartBytes(p))
    ensures ReadPart(b, at, kind) == Some(Read(p, at + |PartBytes(p)|))
  {
    hide Sized, ReadSized, ReadNat, Le, Power, Holds;
    match p
    case One(t) => ReadSizedBack(b, at, t);
    case Two(f, v) =>
      HoldsSplit(b, at, Sized(f), Sized(v));
      ReadSizedBack(b, at, f);
      ReadSizedBack(b, at + |Sized(f)|, v);
    case Scored(m, score) =>
      HoldsSplit(b, at, Sized(m), Le(score as nat, 8));
      ReadSizedBack(b, at, m);
      Powers();
      ReadNatBack(b, at + |Sized(m)|, score as nat, 8);
  }

  lemma ReadPartsStep(b: Str, at: nat, kind: byte, before: seq<Part>, part: Part, middle: nat, next: nat)
    requires at <= |b| && ReadParts(b, at, kind, |before|) == Some(Read(before, middle))
    requires ReadPart(b, middle, kind) == Some(Read(part, next))
    ensures ReadParts(b, at, kind, |before| + 1) == Some(Read(before + [part], next))
  {
    hide ReadPart, PartOfKind;
  }

  lemma ReadNoParts(b: Str, at: nat, kind: byte)
    requires at <= |b|
    ensures ReadParts(b, at, kind, 0) == Some(Read([], at)) && PartsBytes([]) == []
  {
  }

  lemma PartsBytesSnoc(parts: seq<Part>, part: Part)
    ensures PartsBytes(parts + [part]) == PartsBytes(parts) + PartBytes(part)
  {
    hide PartBytes;
    assert (parts + [part])[..|parts|] == parts;
  }

  lemma {:induction false} ReadPartsBack(b: Str, at: nat, kind: byte, parts: seq<Part>)
    requires at <= |b| && Holds(b, at, PartsBytes(parts))
    requires forall i :: 0 <= i < |parts| ==> SmallPart(parts[i]) && PartOfKind(kind, parts[i])
    ensures ReadParts(b, at, kind, |parts|) == Some(Read(parts, at + |PartsBytes(parts)|))
  {
    hide PartBytes, ReadPart, SmallPart, PartOfKind, Holds, ReadParts, PartsBytes, Power, Le, FromLe;
    if parts == [] {
      ReadNoParts(b, at, kind);
    } else {
      var rest, last := parts[..|parts| - 1], parts[|parts| - 1];
      assert parts == rest + [last];
      PartsBytesSnoc(rest, last);
      HoldsSplit(b, at, PartsBytes(rest), PartBytes(last));
      ReadPartsBack(b, at, kind, rest);
      var middle := at + |PartsBytes(rest)|;
      ReadPartBack(b, middle, kind, last);
      ReadPartsStep(b, at, kind, rest, last, middle, middle + |PartBytes(last)|);
    }
  }

  lemma ReadValueBack(b: Str, at: nat, d: DumpValue)
    requires SmallValue(d) && Holds(b, at, ValueBytes(d))
    ensures ReadValue(b, at, Kind(d)) == Some(Read(d, at + |ValueBytes(d)|))
  {
    hide PartsBytes, ReadParts, SmallPart, Sized, ReadSized, ReadNat, Le, Power, Parts, FromParts, PartOfKind;
    if d.StringDump? {
      ReadSizedBack(b, at, d.text);
    } else {
      var parts := Parts(d);
      HoldsSplit(b, at, Le(|parts|, 4), PartsBytes(parts));
      Powers();
      ReadNatBack(b, at, |parts|, 4);
      PartsRoundTrip(d);
      ReadPartsBack(b, at + 4, Kind(d), parts);
    }
  }

  lemma ReadEntryBack(b: Str, at: nat, e: DumpEntry)
    requires SmallEntry(e) && Holds(b, at, EntryBytes(e))
    ensures ReadEntry(b, at, false) == Some(Read(e, at + |EntryBytes(e)|))
  {
    hide Sized, ReadSized, ReadNat, Le, Power, ReadValue, ValueBytes, SmallValue;
    var head := [Kind(e.value)];
    HoldsSplit(b, at, head + Sized(e.key) + ValueBytes(e.value), Le(e.deadline, 8));
    HoldsSplit(b, at, head + Sized(e.key), ValueBytes(e.value));
    HoldsSplit(b, at, head, Sized(e.key));
    assert b[at] == b[at..at + 1][0] == Kind(e.value);
    ReadSizedBack(b, at + 1, e.key);
    ReadValueBack(b, at + 1 + |Sized(e.key)|, e.value);
    Powers();
    ReadNatBack(b, at + 1 + |Sized(e.key)| + |ValueBytes(e.value)|, e.deadline, 8);
  }

  lemma {:induction false} ReadEntriesBack(b: Str, at: nat, entries: seq<DumpEntry>)
    requires Holds(b, at, EntriesBytes(entries)) && forall i :: 0 <= i < |entries| ==> SmallEntry(entries[i])
    ensures ReadEntries(b, at, false, |entries|) == Contents(entries, at + |EntriesBytes(entries)|, true)
  {
    hide EntryBytes, ReadEntry, SmallEntry, Holds;
    if entries != [] {
      var n := |entries| - 1;
      HoldsSplit(b, at, EntriesBytes(entries[..n]), EntryBytes(entries[n]));
      ReadEntriesBack(b, at, entries[..n]);
      ReadEntryBack(b, at + |EntriesBytes(entries[..n])|, entries[n]);
    }
  }

  /** A saved file passes the checks and is read back entry by entry. */
  lemma FileReadBack(entries: seq<DumpEntry>, timestamp: nat)
    requires timestamp < LONG && |entries| < LONG && forall i :: 0 <= i < |entries| ==> SmallEntry(entries[i])
    ensures var file := FileBytes(entries, timestamp);
            Accepted(file) && ContentsOf(file).ok && ContentsOf(file).entries == entries
  {
    hide EntriesBytes, ReadEntries, SmallEntry, Le, FromLe, Crc.Crc32, CrcBytes, CrcWord;
    var file, b := FileBytes(entries, timestamp), Body(entries, timestamp);
    assert file[..|file| - 4] == b && file[|file| - 4..] == CrcBytes(Crc.Crc32(0, b));
    CrcRoundTrip(Crc.Crc32(0, b));
    assert b[..8] == MAGIC2 && file[..8] == MAGIC2;
    assert MAGIC2[7] == 50 && MAGIC[7] == 49;
    Powers();
    assert b[16..24] == Le(|entries|, 8);
    LeRoundTrip(|entries|, 8);
    assert b[24..] == EntriesBytes(entries);
    assert Holds(b, 24, EntriesBytes(entries));
    ReadEntriesBack(b, 24, entries);
  }

  // ----- files of the first version

  function OldEntryBytes(e: DumpEntry): Str
    requires e.value.StringDump?
  {
    Sized(e.key) + Sized(e.value.text) + Le(e.deadline, 8)
  }

  function OldEntriesBytes(entries: seq<DumpEntry>): Str
    requires forall i :: 0 <= i < |entries| ==> entries[i].value.StringDump?
  {
    if entries == [] then [] else OldEntriesBytes(entries[..|entries| - 1]) + OldEntryBytes(entries[|entries| - 1])
  }

  lemma ReadOldEntryBack(b: Str, at: nat, e: DumpEntry)
    requires e.value.StringDump? && SmallEntry(e) && Holds(b, at, OldEntryBytes(e))
    ensures ReadEntry(b, at, true) == Some(Read(e, at + |OldEntryBytes(e)|))
  {
    hide Sized, ReadSized, ReadNat, Le, Power;
    HoldsSplit(b, at, Sized(e.key) + Sized(e.value.text), Le(e.deadline, 8));
    HoldsSplit(b, at, Sized(e.key), Sized(e.value.text));
    ReadSizedBack(b, at, e.key);
    ReadSizedBack(b, at + |Sized(e.key)|, e.value.text);
    Powers();
    ReadNatBack(b, at + |Sized(e.key)| + |Sized(e.value.text)|, e.deadline, 8);
  }

  lemma {:induction false} ReadOldEntriesBack(b: Str, at: nat, entries: seq<DumpEntry>)
    requires forall i :: 0 <= i < |entries| ==> entries[i].value.StringDump? && SmallEntry(entries[i])
    requires Holds(b, at, OldEntriesBytes(entries))
    ensures ReadEntries(b, at, true, |entries|) == Contents(entries, at + |OldEntriesBytes(entries)|, true)
  {
    hide OldEntryBytes, ReadEntry, SmallEntry, Holds;
    if entries != [] {
      var n := |entries| - 1;
      HoldsSplit(b, at, OldEntriesBytes(entries[..n]), OldEntryBytes(entries[n]));
      ReadOldEntriesBack(b, at, entries[..n]);
      ReadOldEntryBack(b, at + |OldEntriesBytes(entries[..n])|, entries[n]);
    }
  }

  /** A file of the first version, where every value is a string and has no type byte, is read back too. */
  lemma OldFileReadBack(entries: seq<DumpEntry>, timestamp: nat)
    requires timestamp < LONG && |entries| < LONG
    requires forall i :: 0 <= i < |entries| ==> entries[i].value.StringDump? && SmallEntry(entries[i])
    ensures var b := Text("KVLLAYS1") + Le(timestamp, 8) + Le(|entries|, 8) + OldEntriesBytes(entries);
            var file := b + CrcBytes(Crc.Crc32(0, b));
            Accepted(file) && ContentsOf(file) == Contents(entries, |b|, true)
  {
    hide OldEntriesBytes, ReadEntries, SmallEntry, Le, FromLe, Crc.Crc32, CrcBytes, CrcWord;
    var b := Text("KVLLAYS1") + Le(timestamp, 8) + Le(|entries|, 8) + OldEntriesBytes(entries);
    var file := b + CrcBytes(Crc.Crc32(0, b));
    assert file[..|file| - 4] == b && file[|file| - 4..] == CrcBytes(Crc.Crc32(0, b));
    CrcRoundTrip(Crc.Crc32(0, b));
    assert b[..8] == MAGIC && file[..8] == MAGIC;
    Powers();
    assert b[16..24] == Le(|entries|, 8);
    LeRoundTrip(|entries|, 8);
    assert b[24..] == OldEntriesBytes(entries);
    assert Holds(b, 24, OldEntriesBytes(entries));
    ReadOldEntriesBack(b, 24, entries);
  }

  // ----- the main results

  /** A saved file changed only within four consecutive bytes in front of its checksum fails the
      checks, so load restores nothing from it. */
  lemma BurstRejected(entries: seq<DumpEntry>, timestamp: nat, before: Str, x: Str, y: Str, after: Str)
    requires Body(entries, timestamp) == before + x + after && |x| == |y| == 4 && x != y
    ensures !Accepted(before + y + after + CrcBytes(Crc.Crc32(0, Body(entries, timestamp))))
  {
    hide Body, Crc.Crc32, CrcBytes, CrcWord;
    var crc := Crc.Crc32(0, Body(entries, timestamp));
    var file := before + y + after + CrcBytes(crc);
    assert file[..|file| - 4] == before + y + after && file[|file| - 4..] == CrcBytes(crc);
    CrcRoundTrip(crc);
    Crc.BurstDetected(before, x, y, after);
  }

  /** The lengths and counts of an item fit 32 bits, and its deadline 64. */
  ghost predicate SmallItem(key: Str, v: Value) {
    |key| < WORD
    && match v
       case StringV(t) => |t| < WORD
       case ListV(l) => |l| < WORD && forall i :: 0 <= i < |l| ==> |l[i]| < WORD
       case HashV(h) => |h| < WORD && forall f :: f in h ==> |f| < WORD && |h[f]| < WORD
       case SetV(s) => |s| < WORD && forall x :: x in s ==> |x| < WORD
       case ZSetV(z) => |z| < WORD && forall x :: x in z ==> |x| < WORD
  }

  lemma {:induction false} FirstWinsSize(p: seq<(Str, Str)>)
    requires DistinctKeys(p)
    ensures |FirstWins(p)| == |p|
    ensures forall i :: 0 <= i < |p| ==> p[i].0 in FirstWins(p) && FirstWins(p)[p[i].0] == p[i].1
    ensures forall f :: f in FirstWins(p) ==> exists i :: 0 <= i < |p| && p[i].0 == f
  {
    if p != [] {
      var n := |p| - 1;
      var q := p[..n];
      FirstWinsSize(q);
      assert forall i :: 0 <= i < n ==> q[i] == p[i];
      assert p[n].0 !in FirstWins(q);
      assert FirstWins(p) == FirstWins(q)[p[n].0 := p[n].1];
    }
  }

  lemma {:induction false} OverlaySize(p: seq<(Str, Score)>)
    requires DistinctKeys(p)
    ensures |Overlay(map[], p)| == |p|
    ensures forall f :: f in Overlay(map[], p) ==> exists i :: 0 <= i < |p| && p[i].0 == f
  {
    if p != [] {
      var n := |p| - 1;
      OverlaySize(p[..n]);
      assert p[n].0 !in Overlay(map[], p[..n]);
    }
  }

  lemma {:induction false} MembersSize(m: seq<Str>)
    requires NoDuplicates(m)
    ensures |Members(m)| == |m|
  {
    if m != [] {
      var n := |m| - 1;
      MembersSize(m[..n]);
      assert m == m[..n] + [m[n]];
      assert Members(m) == Members(m[..n]) + {m[n]};
    } else {
      assert Members(m) == {};
    }
  }

  /** A dump that lists a small value is small. */
  lemma ListedSmall(key: Str, d: DumpValue, v: Value)
    requires Lists(d, v) && SmallItem(key, v)
    ensures SmallValue(d)
  {
    hide FirstWins, Overlay, Members;
    match d
    case StringDump(_) =>
    case ListDump(_) =>
    case HashDump(p) => FirstWinsSize(p);
    case SetDump(m) =>
      MembersSize(m);
      forall i | 0 <= i < |m| ensures m[i] in Members(m) { MemberOf(m, i); }
    case ZSetDump(p) => OverlaySize(p);
  }

  lemma MemberOf(m: seq<Str>, i: nat)
    requires i < |m|
    ensures m[i] in Members(m)
  {
  }

  /** Saving a store and loading the file into an empty one, in any process and at any later time,
      succeeds and gives what the store has become by then: the same values, the same wall-clock
      deadlines, and none of the keys that have expired in between. */
  method SaveAndLoad(original: Store, at: Clock, timestamp: nat, target: Store, later: Clock) returns (ok: bool)
    requires original.Valid() && original.NoEmpty() && target.Valid() && original != target
    requires target.items == map[] && timestamp < LONG && |original.items| < LONG
    requires forall k :: k in original.items ==>
               SmallItem(k, original.items[k].value) && WallDeadline(original.items[k].expireAt, at) < LONG
    modifies target
    ensures ok && Carries(original.Live(at.now), at, target.Live(later.now), later)
    ensures target.Valid() && original.items == old(original.items)
  {
    hide Store.Shaped, IndexOf, SmallItem, Accepted, ContentsOf, Lists, RestoreAll, EmptyValue, SmallValue, Carries;
    var entries := Dump.GetAllEntries(original, at);
    ghost var live := original.Live(at.now);
    forall i | 0 <= i < |entries| ensures SmallEntry(entries[i]) {
      ListedSmall(entries[i].key, entries[i].value, live[entries[i].key].value);
      KeySmall(entries[i].key, live[entries[i].key].value);
    }
    EntriesBounded(entries, live, at);
    LiveSmaller(original.items, at.now);
    var file := Save(entries, timestamp);
    FileReadBack(entries, timestamp);
    assert target.Live(later.now) == map[];
    ok := Load(target, file, later);
    Dump.RestoreCarries(live, at, entries, later);
  }

  lemma KeySmall(key: Str, v: Value)
    requires SmallItem(key, v)
    ensures |key| < WORD
  {
  }

  lemma LiveSmaller(db: Db, now: nat)
    ensures |LiveItems(db, now)| <= |db|
  {
    hide LiveItems;
    SubsetSize(LiveItems(db, now).Keys, db.Keys);
  }

  /** A dump has as many entries as the view has keys. */
  lemma {:induction false} EntriesBounded(entries: seq<DumpEntry>, db: Db, at: Clock)
    requires Dumps(entries, db, at)
    ensures |entries| <= |db|
  {
    hide Lists;
    var keys := seq(|entries|, i requires 0 <= i < |entries| => entries[i].key);
    MembersSize(keys);
    SubsetSize(Members(keys), db.Keys);
  }
}
