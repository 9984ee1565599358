/** The table-driven CRC-32 of snapshot.hpp (section 8 of RFC 1952): the table, the update loop,
    and what a checksum mismatch is guaranteed to detect. */
module Crc {
  import opened Bytes

  // ----- bytes as machine words

  lemma ByteBits(x: int)
    requires 0 <= x < 256
    ensures (x as bv8) as int == x
  {
    assert x % 256 == x;
  }

  function Bits8(b: byte): (r: bv8)
    ensures r as int == b as int
  {
    ByteBits(b as int);
    (b as int) as bv8
  }

  /** A byte promoted to a 32-bit word, as the shift and xor operators do. */
  function Word(b: byte): (w: bv32)
    ensures w < 256
  {
    Bits8(b) as bv32
  }

  lemma ZeroExtendInjective(a: bv8, b: bv8)
    requires a as bv32 == b as bv32
    ensures a == b
  {
  }

  lemma WordInjective(a: byte, b: byte)
    requires Word(a) == Word(b)
    ensures a == b
  {
    ZeroExtendInjective(Bits8(a), Bits8(b));
  }

  // ----- word operations, named so that proofs can speak of them without their bits

  function Xor(a: bv32, b: bv32): bv32 { a ^ b }

  function Not(a: bv32): bv32 { !a }

  function Half(a: bv32): bv32 { a >> 1 }

  function DropByte(a: bv32): bv32 { a >> 8 }

  function RaiseByte(a: bv32): bv32 { a << 8 }

  function LowByte(a: bv32): bv32 { a & 0xFF }

  predicate Odd(a: bv32) { a & 1 == 1 }

  /** Only the low n bytes of a may be nonzero. */
  predicate Within(a: bv32, n: nat) {
    if n == 0 then a == 0
    else if n == 1 then a & 0xFFFFFF00 == 0
    else if n == 2 then a & 0xFFFF0000 == 0
    else if n == 3 then a & 0xFF000000 == 0
    else true
  }

  // ----- the reference: polynomial division one message bit at a time

  /** One division step of the reflected polynomial 0xEDB88320. */
  function BitStep(c: bv32): bv32 {
    if Odd(c) then Xor(0xEDB88320, Half(c)) else Half(c)
  }

  /** Divide in one message bit, least significant bit first. */
  function FeedBit(c: bv32, bit: bool): bv32 {
    BitStep(if bit then Xor(c, 1) else c)
  }

  function FeedBits(c: bv32, bits: seq<bool>): bv32
    decreases |bits|
  {
    if bits == [] then c else FeedBits(FeedBit(c, bits[0]), bits[1..])
  }

  function BitsOf(w: bv32, n: nat): (bits: seq<bool>)
    ensures |bits| == n
    decreases n
  {
    if n == 0 then [] else [Odd(w)] + BitsOf(Half(w), n - 1)
  }

  function MessageBits(data: Str): seq<bool> {
    if data == [] then [] else BitsOf(Word(data[0]), 8) + MessageBits(data[1..])
  }

  /** CRC-32 of RFC 1952, continued from an earlier value. */
  function Crc32(crc: bv32, data: Str): bv32 {
    Not(FeedBits(Not(crc), MessageBits(data)))
  }

  // ----- the implementation

  function Steps(c: bv32, n: nat): bv32
    decreases n
  {
    if n == 0 then c else Steps(BitStep(c), n - 1)
  }

  lemma {:induction false} StepsSnoc(c: bv32, n: nat)
    ensures Steps(c, n + 1) == BitStep(Steps(c, n))
    decreases n
  {
    if n > 0 { StepsSnoc(BitStep(c), n - 1); }
  }

  /** The 32-bit word holding a table index. */
  function IndexWord(i: nat): bv32
    requires i < 256
  {
    Word(i as byte)
  }

  function SlotValue(i: nat): bv32
    requires i < 256
  {
    Steps(IndexWord(i), 8)
  }

  predicate IsTable(table: seq<bv32>) {
    |table| == 256 && forall i :: 0 <= i < 256 ==> table[i] == SlotValue(i)
  }

  /** The inner loop of Crc32Table. */
  method BuildSlot(i: nat) returns (c: bv32)
    requires i < 256
    ensures c == SlotValue(i)
  {
    c := IndexWord(i);
    var j := 0;
    while j < 8
      invariant 0 <= j <= 8
      invariant c == Steps(IndexWord(i), j)
    {
      StepsSnoc(IndexWord(i), j);
      c := if Odd(c) then Xor(0xEDB88320, Half(c)) else Half(c);
      j := j + 1;
    }
  }

  /** Crc32Table, snapshot.hpp. */
  method BuildTable() returns (table: array<bv32>)
    ensures fresh(table) && IsTable(table[..])
  {
    table := new bv32[256];
    var i := 0;
    while i < 256
      invariant 0 <= i <= 256
      invariant forall k :: 0 <= k < i ==> table[k] == SlotValue(k)
    {
      var c := BuildSlot(i);
      table[i] := c;
      i := i + 1;
    }
  }

  /** The state of the division after one more byte. */
  function ByteStep(c: bv32, b: byte): bv32 {
    Steps(Xor(c, Word(b)), 8)
  }

  function Feed(c: bv32, data: Str): bv32
    decreases |data|
  {
    if data == [] then c else Feed(ByteStep(c, data[0]), data[1..])
  }

  /** The table slot a word selects: its low byte as an array index. */
  function Slot(x: bv32): (i: nat)
    ensures i < 256
    ensures IndexWord(i) == LowByte(x)
  {
    SlotBits(x);
    ((x & 0xFF) as bv8) as nat
  }

  /** Crc32::update, snapshot.hpp. */
  method Update(table: seq<bv32>, crc: bv32, data: Str) returns (r: bv32)
    requires IsTable(table)
    ensures r == Crc32(crc, data)
  {
    var c := Not(crc);
    var i := 0;
    assert data[0..] == data;
    while i < |data|
      invariant 0 <= i <= |data|
      invariant Feed(c, data[i..]) == Feed(Not(crc), data)
    {
      TableStep(table, c, data[i]);
      assert data[i..][1..] == data[i + 1..];
      c := Xor(table[Slot(Xor(c, Word(data[i])))], DropByte(c));
      i := i + 1;
    }
    FeedIsBitwise(Not(crc), data);
    r := Not(c);
  }

  // ----- bitwise facts

  lemma SlotBits(x: bv32)
    ensures x & 0xFF < 256
    ensures 0 <= ((x & 0xFF) as bv8) as int < 256
    ensures Word((((x & 0xFF) as bv8) as int) as byte) == LowByte(x)
  {
    var b8 := (x & 0xFF) as bv8;
    assert b8 as bv32 == x & 0xFF;
    Bits8OfInt(b8);
  }

  lemma Bits8OfInt(b8: bv8)
    ensures 0 <= b8 as int < 256 && Bits8((b8 as int) as byte) == b8
  {
    ByteBits(b8 as int);
    BitsByte(b8);
  }

  lemma BitsByte(b8: bv8)
    ensures (b8 as int) as bv8 == b8
  {
  }

  lemma XorUnit(a: bv32)
    ensures Xor(a, 0) == a && Xor(0, a) == a && Xor(a, a) == 0
  {
  }

  lemma XorEqual(a: bv32, b: bv32)
    requires Xor(a, b) == 0
    ensures a == b
  {
  }

  lemma XorCancel(a: bv32, b: bv32, c: bv32)
    requires Xor(a, c) == Xor(b, c)
    ensures a == b
  {
  }

  lemma XorComm(a: bv32, b: bv32)
    ensures Xor(a, b) == Xor(b, a)
  {
  }

  lemma XorAssoc(a: bv32, b: bv32, c: bv32)
    ensures Xor(Xor(a, b), c) == Xor(a, Xor(b, c))
  {
    assert (a ^ b) ^ c == a ^ (b ^ c);
  }

  lemma XorSwap(a: bv32, w: bv32, b: bv32, v: bv32)
    ensures Xor(Xor(a, w), Xor(b, v)) == Xor(Xor(a, b), Xor(w, v))
  {
    hide Xor;
    calc {
      Xor(Xor(a, w), Xor(b, v));
      { XorAssoc(a, w, Xor(b, v)); XorAssoc(w, b, v); XorComm(w, b); XorAssoc(b, w, v); }
      Xor(a, Xor(b, Xor(w, v)));
      { XorAssoc(a, b, Xor(w, v)); }
      Xor(Xor(a, b), Xor(w, v));
    }
  }

  lemma XorHalf(a: bv32, b: bv32)
    ensures Half(Xor(a, b)) == Xor(Half(a), Half(b))
    ensures Odd(Xor(a, b)) <==> Odd(a) != Odd(b)
  {
  }

  lemma NotNot(c: bv32)
    ensures Not(Not(c)) == c
  {
  }

  lemma StepLinear(a: bv32, b: bv32)
    ensures BitStep(Xor(a, b)) == Xor(BitStep(a), BitStep(b))
  {
    hide Xor, Half, Odd;
    var p: bv32 := 0xEDB88320;
    var x, y := Half(a), Half(b);
    XorHalf(a, b);
    XorAssoc(p, x, y);
    XorComm(p, x);
    XorAssoc(x, p, y);
    XorSwap(p, x, p, y);
    XorUnit(p);
    XorUnit(Xor(x, y));
  }

  lemma StepInjective(a: bv32, b: bv32)
    requires BitStep(a) == BitStep(b)
    ensures a == b
  {
  }

  lemma {:induction false} StepsLinear(a: bv32, b: bv32, n: nat)
    ensures Steps(Xor(a, b), n) == Xor(Steps(a, n), Steps(b, n))
    decreases n
  {
    if n > 0 {
      StepLinear(a, b);
      StepsLinear(BitStep(a), BitStep(b), n - 1);
    }
  }

  lemma {:induction false} StepsInjective(a: bv32, b: bv32, n: nat)
    requires Steps(a, n) == Steps(b, n)
    ensures a == b
    decreases n
  {
    if n > 0 {
      StepsInjective(BitStep(a), BitStep(b), n - 1);
      StepInjective(a, b);
    }
  }

  // ----- the table step is eight bit steps

  function Halves(w: bv32, n: nat): bv32
    decreases n
  {
    if n == 0 then w else Halves(Half(w), n - 1)
  }

  lemma EightHalves(w: bv32)
    ensures Halves(w, 8) == DropByte(w)
  {
    var w2 := Half(Half(w));
    var w4 := Half(Half(w2));
    var w6 := Half(Half(w4));
    assert Halves(w, 8) == Halves(w2, 6);
    assert Halves(w2, 6) == Halves(w4, 4);
    assert Halves(w4, 4) == Halves(w6, 2);
    assert Halves(w6, 2) == Half(Half(w6));
    HalvesMeet(w);
  }

  lemma HalvesMeet(w: bv32)
    ensures Half(Half(Half(Half(Half(Half(Half(Half(w)))))))) == DropByte(w)
  {
  }

  /** The low n bits of a word are zero. */
  predicate Even(c: bv32, n: nat)
    decreases n
  {
    n == 0 || (!Odd(c) && Even(Half(c), n - 1))
  }

  lemma {:induction false} EvenSteps(c: bv32, n: nat)
    requires Even(c, n)
    ensures Steps(c, n) == Halves(c, n)
    decreases n
  {
    if n > 0 { EvenSteps(Half(c), n - 1); }
  }

  lemma LowZerosEven(c: bv32)
    requires LowByte(c) == 0
    ensures Even(c, 8)
  {
    var c2 := Half(Half(c));
    var c4 := Half(Half(c2));
    var c6 := Half(Half(c4));
    EightBitsZero(c);
    assert Even(c6, 2);
    assert Even(c4, 4);
    assert Even(c2, 6);
  }

  lemma EightBitsZero(c: bv32)
    requires LowByte(c) == 0
    ensures !Odd(c) && !Odd(Half(c))
    ensures !Odd(Half(Half(c))) && !Odd(Half(Half(Half(c))))
    ensures !Odd(Half(Half(Half(Half(c))))) && !Odd(Half(Half(Half(Half(Half(c))))))
    ensures !Odd(Half(Half(Half(Half(Half(Half(c)))))))
    ensures !Odd(Half(Half(Half(Half(Half(Half(Half(c))))))))
  {
  }

  /** A word whose low byte is clear is shifted out unchanged by eight steps. */
  lemma ShiftOut(c: bv32)
    requires LowByte(c) == 0
    ensures Steps(c, 8) == DropByte(c)
  {
    LowZerosEven(c);
    EvenSteps(c, 8);
    EightHalves(c);
  }

  function HighBytes(x: bv32): bv32 { x & 0xFFFFFF00 }

  lemma SplitLow(x: bv32)
    ensures x == Xor(LowByte(x), HighBytes(x))
    ensures LowByte(HighBytes(x)) == 0
  {
    assert x == (x & 0xFF) ^ (x & 0xFFFFFF00);
  }

  lemma HighAfterByte(c: bv32, w: bv32)
    requires w < 256
    ensures DropByte(HighBytes(Xor(c, w))) == DropByte(c)
  {
    assert ((c ^ w) & 0xFFFFFF00) >> 8 == c >> 8;
  }

  lemma TableStep(table: seq<bv32>, c: bv32, b: byte)
    requires IsTable(table)
    ensures Xor(table[Slot(Xor(c, Word(b)))], DropByte(c)) == ByteStep(c, b)
  {
    var x := Xor(c, Word(b));
    SplitLow(x);
    HighAfterByte(c, Word(b));
    ShiftOut(HighBytes(x));
    StepsLinear(LowByte(x), HighBytes(x), 8);
  }

  // ----- byte steps are the bitwise division

  function EvenPart(w: bv32): bv32 { w & 0xFFFFFFFE }

  lemma SplitBit(c: bv32, w: bv32)
    ensures Xor(c, w) == Xor(if Odd(w) then Xor(c, 1) else c, EvenPart(w))
    ensures BitStep(EvenPart(w)) == Half(w)
  {
  }

  /** Xoring a whole word in first and stepping is feeding its bits one at a time, the bits not
      yet fed staying xored above the state. */
  lemma {:induction false} StepsAreBits(c: bv32, w: bv32, n: nat)
    ensures Steps(Xor(c, w), n) == Xor(FeedBits(c, BitsOf(w, n)), Halves(w, n))
    decreases n
  {
    hide Xor, BitStep, Half, Odd, EvenPart;
    if n > 0 {
      SplitBit(c, w);
      StepLinear(if Odd(w) then Xor(c, 1) else c, EvenPart(w));
      assert BitStep(Xor(c, w)) == Xor(FeedBit(c, Odd(w)), Half(w));
      StepsAreBits(FeedBit(c, Odd(w)), Half(w), n - 1);
      assert BitsOf(w, n)[1..] == BitsOf(Half(w), n - 1);
    }
  }

  lemma ByteDropped(w: bv32)
    requires w < 256
    ensures DropByte(w) == 0
  {
  }

  lemma ByteStepIsBits(c: bv32, b: byte)
    ensures ByteStep(c, b) == FeedBits(c, BitsOf(Word(b), 8))
  {
    var w := Word(b);
    StepsAreBits(c, w, 8);
    EightHalves(w);
    ByteDropped(w);
    XorUnit(FeedBits(c, BitsOf(w, 8)));
  }

  lemma {:induction false} FeedBitsConcat(c: bv32, a: seq<bool>, b: seq<bool>)
    ensures FeedBits(c, a + b) == FeedBits(FeedBits(c, a), b)
    decreases |a|
  {
    if a == [] {
      assert a + b == b;
    } else {
      assert (a + b)[1..] == a[1..] + b;
      FeedBitsConcat(FeedBit(c, a[0]), a[1..], b);
    }
  }

  lemma {:induction false} FeedIsBitwise(c: bv32, data: Str)
    ensures Feed(c, data) == FeedBits(c, MessageBits(data))
    decreases |data|
  {
    if data != [] {
      ByteStepIsBits(c, data[0]);
      FeedBitsConcat(c, BitsOf(Word(data[0]), 8), MessageBits(data[1..]));
      FeedIsBitwise(ByteStep(c, data[0]), data[1..]);
    }
  }

  lemma Crc32IsFeed(crc: bv32, data: Str)
    ensures Crc32(crc, data) == Not(Feed(Not(crc), data))
  {
    FeedIsBitwise(Not(crc), data);
  }

  // ----- piecewise updates

  lemma {:induction false} FeedConcat(c: bv32, a: Str, b: Str)
    ensures Feed(c, a + b) == Feed(Feed(c, a), b)
    decreases |a|
  {
    if a == [] {
      assert a + b == b;
    } else {
      assert (a + b)[1..] == a[1..] + b;
      FeedConcat(ByteStep(c, a[0]), a[1..], b);
    }
  }

  /** Updating piece by piece, as the writer does, is one update over the whole, as the reader does. */
  lemma Crc32Concat(crc: bv32, a: Str, b: Str)
    ensures Crc32(Crc32(crc, a), b) == Crc32(crc, a + b)
  {
    Crc32IsFeed(crc, a);
    Crc32IsFeed(crc, a + b);
    Crc32IsFeed(Crc32(crc, a), b);
    FeedConcat(Not(crc), a, b);
    NotNot(Feed(Not(crc), a));
  }

  lemma Crc32Empty(crc: bv32)
    ensures Crc32(crc, []) == crc
  {
    NotNot(crc);
  }

  // ----- error detection

  /** Different states stay different under the same further bytes. */
  lemma {:induction false} FeedInjective(c: bv32, d: bv32, data: Str)
    requires Feed(c, data) == Feed(d, data)
    ensures c == d
    decreases |data|
  {
    if data != [] {
      FeedInjective(ByteStep(c, data[0]), ByteStep(d, data[0]), data[1..]);
      StepsInjective(Xor(c, Word(data[0])), Xor(d, Word(data[0])), 8);
      XorCancel(c, d, Word(data[0]));
    }
  }

  lemma RaiseBits(y: bv32)
    requires y & 0xFF000000 == 0
    ensures (y << 8) & 0xFF == 0 && (y << 8) >> 8 == y
  {
  }

  lemma RaiseFacts(y: bv32)
    requires y & 0xFF000000 == 0
    ensures LowByte(RaiseByte(y)) == 0
    ensures DropByte(RaiseByte(y)) == y
  {
    RaiseBits(y);
  }

  /** How far two states are apart. */
  function Gap(c: bv32, d: bv32): bv32 { Xor(c, d) }

  /** Eight steps read backwards: if the states after one byte differ only in their low three
      bytes, the difference before, xored with that of the two bytes, is that difference raised. */
  lemma TraceBack(c: bv32, d: bv32, b: byte, e: byte)
    requires Within(Gap(ByteStep(c, b), ByteStep(d, e)), 3)
    ensures Xor(Gap(c, d), Xor(Word(b), Word(e))) == RaiseByte(Gap(ByteStep(c, b), ByteStep(d, e)))
  {
    var after := Gap(ByteStep(c, b), ByteStep(d, e));
    StepsLinear(Xor(c, Word(b)), Xor(d, Word(e)), 8);
    XorSwap(c, Word(b), d, Word(e));
    RaiseFacts(after);
    ShiftOut(RaiseByte(after));
    StepsInjective(Xor(Gap(c, d), Xor(Word(b), Word(e))), RaiseByte(after), 8);
  }

  lemma SmallXor(a: bv32, b: bv32)
    requires a < 256 && b < 256
    ensures Xor(a, b) < 256
  {
  }

  /** Peeling the difference of one byte off: the gap before is confined to one byte more than the
      gap after, and if nothing differed before then nothing differs now. */
  lemma Peel(before: bv32, diff: bv32, after: bv32, n: nat)
    requires diff < 256 && Xor(before, diff) == RaiseByte(after) && n <= 2 && Within(after, n)
    ensures Within(before, n + 1)
  {
    hide Xor, RaiseByte;
    if n == 0 { PeelFirst(before, diff, after); }
    else if n == 1 { PeelSecond(before, diff, after); }
    else { PeelThird(before, diff, after); }
  }

  lemma PeelFirst(before: bv32, diff: bv32, after: bv32)
    requires diff < 256 && Xor(before, diff) == RaiseByte(after) && after == 0
    ensures before & 0xFFFFFF00 == 0
  {
  }

  lemma PeelSecond(before: bv32, diff: bv32, after: bv32)
    requires diff < 256 && Xor(before, diff) == RaiseByte(after) && after & 0xFFFFFF00 == 0
    ensures before & 0xFFFF0000 == 0
  {
  }

  lemma PeelThird(before: bv32, diff: bv32, after: bv32)
    requires diff < 256 && Xor(before, diff) == RaiseByte(after) && after & 0xFFFF0000 == 0
    ensures before & 0xFF000000 == 0
  {
  }

  lemma PeelZero(diff: bv32, after: bv32)
    requires diff < 256 && Xor(0, diff) == RaiseByte(after) && Within(after, 3)
    ensures diff == 0 && after == 0
  {
  }

  lemma WithinMore(a: bv32, n: nat)
    requires n <= 3 && Within(a, n)
    ensures Within(a, 3)
  {
    if n == 1 { NarrowOne(a); } else if n == 2 { NarrowTwo(a); }
  }

  lemma NarrowOne(a: bv32)
    requires a & 0xFFFFFF00 == 0
    ensures a & 0xFF000000 == 0
  {
  }

  lemma NarrowTwo(a: bv32)
    requires a & 0xFFFF0000 == 0
    ensures a & 0xFF000000 == 0
  {
  }

  lemma SameByte(b: byte, e: byte)
    requires Xor(Word(b), Word(e)) == 0
    ensures b == e
  {
    XorEqual(Word(b), Word(e));
    WordInjective(b, e);
  }

  /** Going back over one more byte from states whose gap is within n bytes. */
  lemma GapBefore(c: bv32, d: bv32, b: byte, e: byte, n: nat)
    requires n <= 2 && Within(Gap(ByteStep(c, b), ByteStep(d, e)), n)
    ensures Within(Gap(c, d), n + 1)
  {
    SmallXor(Word(b), Word(e));
    WithinMore(Gap(ByteStep(c, b), ByteStep(d, e)), n);
    TraceBack(c, d, b, e);
    Peel(Gap(c, d), Xor(Word(b), Word(e)), Gap(ByteStep(c, b), ByteStep(d, e)), n);
  }

  /** From equal states, a gap confined to three bytes after one byte is no gap at all. */
  lemma NoGapAfter(c: bv32, b: byte, e: byte)
    requires Within(Gap(ByteStep(c, b), ByteStep(c, e)), 3)
    ensures b == e
  {
    SmallXor(Word(b), Word(e));
    TraceBack(c, c, b, e);
    XorUnit(c);
    PeelZero(Xor(Word(b), Word(e)), Gap(ByteStep(c, b), ByteStep(c, e)));
    SameByte(b, e);
  }

  lemma ZeroGap(c: bv32, n: nat)
    requires n <= 3
    ensures Within(Gap(c, c), n)
  {
  }

  lemma UnfoldFeed(c: bv32, x: Str)
    requires x != []
    ensures Feed(c, x) == Feed(ByteStep(c, x[0]), x[1..])
  {
    hide ByteStep;
  }

  lemma FeedFour(c: bv32, x: Str)
    requires |x| == 4
    ensures Feed(c, x) == ByteStep(ByteStep(ByteStep(ByteStep(c, x[0]), x[1]), x[2]), x[3])
  {
    hide ByteStep;
    var c1 := ByteStep(c, x[0]);
    var c2 := ByteStep(c1, x[1]);
    var c3 := ByteStep(c2, x[2]);
    assert x[1..][1..] == x[2..] && x[2..][1..] == x[3..] && x[3..][1..] == [];
    UnfoldFeed(c, x);
    UnfoldFeed(c1, x[1..]);
    UnfoldFeed(c2, x[2..]);
    UnfoldFeed(c3, x[3..]);
  }

  /** Four bytes fed to one state act injectively on it. */
  lemma FourBytesInjective(c: bv32, x: Str, y: Str)
    requires |x| == |y| == 4 && Feed(c, x) == Feed(c, y)
    ensures x == y
  {
    hide ByteStep, Gap, Within, Feed;
    FeedFour(c, x);
    FeedFour(c, y);
    var c1, d1 := ByteStep(c, x[0]), ByteStep(c, y[0]);
    var c2, d2 := ByteStep(c1, x[1]), ByteStep(d1, y[1]);
    var c3, d3 := ByteStep(c2, x[2]), ByteStep(d2, y[2]);
    ZeroGap(ByteStep(c3, x[3]), 0);
    GapBefore(c3, d3, x[3], y[3], 0);
    GapBefore(c2, d2, x[2], y[2], 1);
    GapBefore(c1, d1, x[1], y[1], 2);
    NoGapAfter(c, x[0], y[0]);
    WithinMore(Gap(c2, d2), 2);
    NoGapAfter(c1, x[1], y[1]);
    WithinMore(Gap(c3, d3), 1);
    NoGapAfter(c2, x[2], y[2]);
    ZeroGap(ByteStep(c3, x[3]), 3);
    NoGapAfter(c3, x[3], y[3]);
    assert x == y;
  }

  /** Any change confined to four consecutive bytes changes the checksum. */
  lemma BurstDetected(before: Str, x: Str, y: Str, after: Str)
    requires |x| == |y| == 4 && x != y
    ensures Crc32(0, before + x + after) != Crc32(0, before + y + after)
  {
    if Crc32(0, before + x + after) == Crc32(0, before + y + after) {
      Crc32IsFeed(0, before + x + after);
      Crc32IsFeed(0, before + y + after);
      NotNot(Feed(Not(0), before + x + after));
      NotNot(Feed(Not(0), before + y + after));
      FeedConcat(Not(0), before + x, after);
      FeedConcat(Not(0), before + y, after);
      FeedInjective(Feed(Not(0), before + x), Feed(Not(0), before + y), after);
      FeedConcat(Not(0), before, x);
      FeedConcat(Not(0), before, y);
      FourBytesInjective(Feed(Not(0), before), x, y);
    }
  }

  // ----- the value that fixes the polynomial

  function EightSteps(x: bv32): bv32 {
    BitStep(BitStep(BitStep(BitStep(BitStep(BitStep(BitStep(BitStep(x))))))))
  }

  lemma EightStepsAre(x: bv32)
    ensures Steps(x, 8) == EightSteps(x)
  {
    hide BitStep;
    FourSteps(x);
    FourSteps(BitStep(BitStep(BitStep(BitStep(x)))));
    StepsSplit(x, 4, 4);
  }

  lemma FourSteps(x: bv32)
    ensures Steps(x, 4) == BitStep(BitStep(BitStep(BitStep(x))))
  {
    hide BitStep;
    assert Steps(x, 4) == Steps(BitStep(x), 3) == Steps(BitStep(BitStep(x)), 2) == Steps(BitStep(BitStep(BitStep(x))), 1);
  }

  lemma {:induction false} StepsSplit(x: bv32, m: nat, n: nat)
    ensures Steps(x, m + n) == Steps(Steps(x, m), n)
    decreases m
  {
    hide BitStep;
    if m > 0 { StepsSplit(BitStep(x), m - 1, n); }
  }

  lemma CheckStates()
    ensures EightSteps(Xor(0xFFFFFFFF, 49)) == 0x7C231048
    ensures EightSteps(Xor(0x7C231048, 50)) == 0xB0ACBB32
    ensures EightSteps(Xor(0xB0ACBB32, 51)) == 0x77B79C2D
    ensures EightSteps(Xor(0x77B79C2D, 52)) == 0x641C1F5C
    ensures EightSteps(Xor(0x641C1F5C, 53)) == 0x340AC5E3
    ensures EightSteps(Xor(0x340AC5E3, 54)) == 0xF68D2C9E
    ensures EightSteps(Xor(0xF68D2C9E, 55)) == 0xAFFC9660
    ensures EightSteps(Xor(0xAFFC9660, 56)) == 0x651F2550
    ensures EightSteps(Xor(0x651F2550, 57)) == 0x340BC6D9
  {
  }

  lemma DigitWord(b: byte, w: bv32)
    requires 49 <= b <= 57 && w as int == b as int
    ensures Word(b) == w
  {
    assert Bits8(b) as bv32 as int == b as int;
  }

  lemma NextState(c: bv32, b: byte, next: bv32, data: Str, i: nat)
    requires i < |data| && data[i] == b && 49 <= b <= 57
    requires EightSteps(Xor(c, Word(b))) == next
    ensures Feed(c, data[i..]) == Feed(next, data[i + 1..])
  {
    hide EightSteps, Xor, Word;
    EightStepsAre(Xor(c, Word(b)));
    assert data[i..][1..] == data[i + 1..];
  }

  /** The checksum of the digits 1 to 9, which CRC-32 implementations are compared by. */
  lemma CheckValue()
    ensures Crc32(0, Text("123456789")) == 0xCBF43926
  {
    hide EightSteps, Word, Crc32, Feed;
    var data := Text("123456789");
    CheckStates();
    CheckEnds();
    Crc32IsFeed(0, data);
    assert data[0..] == data && data[9..] == [];
    DigitWord(49, 49);
    NextState(0xFFFFFFFF, 49, 0x7C231048, data, 0);
    DigitWord(50, 50);
    NextState(0x7C231048, 50, 0xB0ACBB32, data, 1);
    DigitWord(51, 51);
    NextState(0xB0ACBB32, 51, 0x77B79C2D, data, 2);
    DigitWord(52, 52);
    NextState(0x77B79C2D, 52, 0x641C1F5C, data, 3);
    DigitWord(53, 53);
    NextState(0x641C1F5C, 53, 0x340AC5E3, data, 4);
    DigitWord(54, 54);
    NextState(0x340AC5E3, 54, 0xF68D2C9E, data, 5);
    DigitWord(55, 55);
    NextState(0xF68D2C9E, 55, 0xAFFC9660, data, 6);
    DigitWord(56, 56);
    NextState(0xAFFC9660, 56, 0x651F2550, data, 7);
    DigitWord(57, 57);
    NextState(0x651F2550, 57, 0x340BC6D9, data, 8);
    NoneLeft(0x340BC6D9);
  }

  lemma CheckEnds()
    ensures Not(0) == 0xFFFFFFFF && Not(0x340BC6D9) == 0xCBF43926
  {
  }

  lemma NoneLeft(c: bv32)
    ensures Feed(c, []) == c
  {
  }
}
