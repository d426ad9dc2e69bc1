/** CRC-32C (section 12.1 of RFC 3720): the bit-at-a-time definition, the table
    and slicing-by-8 forms of `crc32c.rs` that must agree with it, and what the
    checksum detects. Masking is that of section 3 of the Snappy framing format. */
module Crc32c {
  import opened LittleEndian
  import opened Linear

  /** The Castagnoli polynomial, reflected. */
  const POLY: bv32 := 0x82F63B78

  // ----- the definition

  /** Shift one message bit into the register. */
  function MessageBit(c: bv32, bit: bool): bv32 {
    if (c & 1 != 0) != bit then (c >> 1) ^ POLY else c >> 1
  }

  /** Shift in the eight bits of a byte, lowest first. */
  function MessageByte(c: bv32, b: bv8): bv32 {
    Nest8(MessageBit, c, b & 1 != 0, b & 2 != 0, b & 4 != 0, b & 8 != 0,
          b & 16 != 0, b & 32 != 0, b & 64 != 0, b & 128 != 0)
  }

  /** The register after a message, bit by bit. */
  function Register(c: bv32, data: seq<bv8>): bv32 {
    Fold(MessageByte, c, data)
  }

  function Crc(data: seq<bv8>): bv32 {
    Not(Register(0xFFFF_FFFF, data))
  }

  // ----- one step, and eight

  function Xor(x: bv32, y: bv32): bv32 { x ^ y }

  function Not(x: bv32): bv32 { !x }

  function Shr8(x: bv32): bv32 { x >> 8 }

  // the four bytes of a word, lowest first
  function Lane0(x: bv32): bv32 { x & 0xff }
  function Lane1(x: bv32): bv32 { (x >> 8) & 0xff }
  function Lane2(x: bv32): bv32 { (x >> 16) & 0xff }
  function Lane3(x: bv32): bv32 { x >> 24 }

  /** One step of the register when no message bit is mixed in. */
  function Bit(c: bv32): bv32 {
    if c & 1 != 0 then (c >> 1) ^ POLY else c >> 1
  }

  /** Eight such steps. */
  function ZeroByte(c: bv32): bv32 {
    Times8(Bit, c)
  }

  predicate Odd(m: bv32) { m & 1 != 0 }

  function Half(m: bv32): bv32 { m >> 1 }

  /** What the bit shifted out puts back. */
  function Tap(m: bv32): bv32 { if Odd(m) then POLY else 0 }

  lemma BitIsHalfAndTap(c: bv32)
    ensures Bit(c) == Xor(Half(c), Tap(c))
  {}

  lemma HalfAdds(x: bv32, y: bv32)
    ensures AddsAt(Half, Xor, x, y)
  {}

  lemma OddXor(x: bv32, y: bv32)
    ensures Odd(Xor(x, y)) <==> (Odd(x) != Odd(y))
  {}

  lemma TapAdds(x: bv32, y: bv32)
    ensures AddsAt(Tap, Xor, x, y)
  {
    OddXor(x, y);
  }

  lemma XorComm(x: bv32, y: bv32)
    ensures CommAt(Xor, x, y)
  {}

  lemma XorAssociates(x: bv32, y: bv32, z: bv32)
    ensures Xor(Xor(x, y), z) == Xor(x, Xor(y, z))
  {}

  lemma XorAssoc(x: bv32, y: bv32, z: bv32)
    ensures AssocAt(Xor, x, y, z)
  {
    XorAssociates(x, y, z);
  }

  lemma XorAbelian()
    ensures Abelian(Xor)
  {
    forall x, y ensures CommAt(Xor, x, y) {
      XorComm(x, y);
    }
    forall x, y, z ensures AssocAt(Xor, x, y, z) {
      XorAssoc(x, y, z);
    }
  }

  lemma BitAdds(x: bv32, y: bv32)
    ensures AddsAt(Bit, Xor, x, y)
  {
    XorAbelian();
    HalfAdds(x, y);
    TapAdds(x, y);
    BitIsHalfAndTap(x);
    BitIsHalfAndTap(y);
    BitIsHalfAndTap(Xor(x, y));
    SumAdds(Bit, Half, Tap, Xor, x, y);
  }

  /** The polynomial's top bit is set, so a step can be undone. */
  lemma BitDistinct(x: bv32, y: bv32)
    ensures DistinctAt(Bit, x, y)
  {}

  lemma BitLinear()
    ensures Additive(Bit, Xor) && Injective(Bit)
  {
    forall x, y ensures AddsAt(Bit, Xor, x, y) {
      BitAdds(x, y);
    }
    forall x, y ensures DistinctAt(Bit, x, y) {
      BitDistinct(x, y);
    }
  }

  lemma ByteIsEightBits(c: bv32)
    ensures ZeroByte(c) == Iter(Bit, c, 8)
  {
    Unroll8(Bit, c);
  }

  lemma ByteAdds(x: bv32, y: bv32)
    ensures AddsAt(ZeroByte, Xor, x, y)
  {
    BitLinear();
    IterAdditive(Bit, Xor, x, y, 8);
    ByteIsEightBits(x);
    ByteIsEightBits(y);
    ByteIsEightBits(Xor(x, y));
  }

  lemma ByteDistinct(x: bv32, y: bv32)
    ensures DistinctAt(ZeroByte, x, y)
  {
    if ZeroByte(x) == ZeroByte(y) {
      BitLinear();
      ByteIsEightBits(x);
      ByteIsEightBits(y);
      IterInjective(Bit, x, y, 8);
    }
  }

  /** Advancing the register by a zero byte is additive over XOR and a bijection. */
  lemma ByteLinear()
    ensures Additive(ZeroByte, Xor) && Injective(ZeroByte)
  {
    forall x, y ensures AddsAt(ZeroByte, Xor, x, y) {
      ByteAdds(x, y);
    }
    forall x, y ensures DistinctAt(ZeroByte, x, y) {
      ByteDistinct(x, y);
    }
  }

  // ----- the definition, one byte at a time

  function ByteStep(c: bv32, b: bv8): bv32 {
    ZeroByte(Xor(c, b as bv32))
  }

  function TapIf(on: bool): bv32 { if on then POLY else 0 }

  lemma MessageBitIsHalfAndTap(c: bv32, bit: bool)
    ensures MessageBit(c, bit) == Xor(Half(c), TapIf(Odd(c) != bit))
  {
    if Odd(c) != bit {
      assert TapIf(Odd(c) != bit) == POLY;
    } else {
      XorZero(Half(c));
      assert TapIf(Odd(c) != bit) == 0;
    }
  }

  lemma BitFeeds(c: bv32, m: bv32)
    ensures FeedsAt(Bit, Xor, MessageBit, Odd, Half, c, m)
  {
    XorAbelian();
    HalfAdds(c, m);
    OddXor(c, m);
    BitIsHalfAndTap(Xor(c, m));
    MessageBitIsHalfAndTap(c, Odd(m));
    SwapLast(Xor, Half(c), Half(m), TapIf(Odd(c) != Odd(m)));
    assert Tap(Xor(c, m)) == TapIf(Odd(c) != Odd(m));
  }

  lemma EightSymbols(b: bv8)
    ensures var m := b as bv32;
            && Odd(m) == (b & 1 != 0) && Odd(Half(m)) == (b & 2 != 0)
            && Odd(Half(Half(m))) == (b & 4 != 0) && Odd(Half(Half(Half(m)))) == (b & 8 != 0)
            && var n := Half(Half(Half(Half(m))));
            && Odd(n) == (b & 16 != 0) && Odd(Half(n)) == (b & 32 != 0)
            && Odd(Half(Half(n))) == (b & 64 != 0) && Odd(Half(Half(Half(n)))) == (b & 128 != 0)
            && Half(Half(Half(Half(n)))) == 0
  {}

  lemma XorZero(x: bv32)
    ensures Xor(x, 0) == x
  {}

  /** A byte shifted in bit by bit is a byte XORed in and eight plain steps. */
  lemma ByteByByte(c: bv32, b: bv8)
    ensures MessageByte(c, b) == ByteStep(c, b)
  {
    var m := b as bv32;
    var n := Half(Half(Half(Half(m))));
    forall x, y ensures FeedsAt(Bit, Xor, MessageBit, Odd, Half, x, y) {
      BitFeeds(x, y);
    }
    FeedEight(Bit, Xor, MessageBit, Odd, Half, c, m, n);
    EightSymbols(b);
    XorZero(MessageByte(c, b));
  }

  // ----- zero bytes and the lanes of a word

  lemma EightHalves(h: bv32)
    requires h & 0xff == 0
    ensures !Odd(h) && !Odd(Half(h)) && !Odd(Half(Half(h))) && !Odd(Half(Half(Half(h))))
    ensures var n := Half(Half(Half(Half(h))));
            && !Odd(n) && !Odd(Half(n)) && !Odd(Half(Half(n))) && !Odd(Half(Half(Half(n))))
            && Half(Half(Half(Half(n)))) == h >> 8
  {}

  lemma EvenStep(h: bv32)
    requires !Odd(h)
    ensures Bit(h) == Half(h)
  {}

  /** A register whose low byte is empty is only shifted. */
  lemma HighBytes(h: bv32)
    requires h & 0xff == 0
    ensures ZeroByte(h) == h >> 8
  {
    EightHalves(h);
    var h1 := Half(h); EvenStep(h);
    var h2 := Half(h1); EvenStep(h1);
    var h3 := Half(h2); EvenStep(h2);
    var h4 := Half(h3); EvenStep(h3);
    var h5 := Half(h4); EvenStep(h4);
    var h6 := Half(h5); EvenStep(h5);
    var h7 := Half(h6); EvenStep(h6);
    EvenStep(h7);
  }

  lemma LowAndHigh(c: bv32)
    ensures Xor(Lane0(c), c & 0xffff_ff00) == c
    ensures (c & 0xffff_ff00) & 0xff == 0 && (c & 0xffff_ff00) >> 8 == Shr8(c)
  {}

  /** The classic table step: look the low byte up, shift the rest. */
  lemma LowLookup(c: bv32)
    ensures ZeroByte(c) == Xor(ZeroByte(Lane0(c)), Shr8(c))
  {
    LowAndHigh(c);
    ByteAdds(Lane0(c), c & 0xffff_ff00);
    HighBytes(c & 0xffff_ff00);
  }

  /** A byte placed k lanes up comes down after k zero bytes. */
  lemma LaneDown(w: bv32)
    requires w <= 0xff
    ensures Iter(ZeroByte, w << 8, 1) == w
    ensures Iter(ZeroByte, w << 16, 2) == w
    ensures Iter(ZeroByte, w << 24, 3) == w
  {
    LaneShifts(w);
    HighBytes(w << 8);
    HighBytes(w << 16);
    HighBytes(w << 24);
    OneStep(ZeroByte, w << 8, w);
    TwoSteps(ZeroByte, w << 16, w << 8, w);
    ThreeSteps(ZeroByte, w << 24, w << 16, w << 8, w);
  }

  lemma LaneShifts(w: bv32)
    requires w <= 0xff
    ensures (w << 8) & 0xff == 0 && (w << 16) & 0xff == 0 && (w << 24) & 0xff == 0
    ensures (w << 8) >> 8 == w && (w << 16) >> 8 == w << 8 && (w << 24) >> 8 == w << 16
  {}

  lemma OneStep<W>(f: W -> W, a: W, b: W)
    requires f(a) == b
    ensures Iter(f, a, 1) == b
  {}

  lemma TwoSteps<W>(f: W -> W, a: W, b: W, c: W)
    requires f(a) == b && f(b) == c
    ensures Iter(f, a, 2) == c
  {}

  lemma ThreeSteps<W>(f: W -> W, a: W, b: W, c: W, d: W)
    requires f(a) == b && f(b) == c && f(c) == d
    ensures Iter(f, a, 3) == d
  {}

  // ----- eight bytes at once

  lemma Lanes(x: bv32)
    ensures Xor(Xor(Xor(Lane0(x), Lane1(x) << 8), Lane2(x) << 16), Lane3(x) << 24) == x
    ensures Lane0(x) <= 0xff && Lane1(x) <= 0xff && Lane2(x) <= 0xff && Lane3(x) <= 0xff
  {}

  /** The eight table values that stand for eight message bytes, in the order the
      code adds them: x0 to x3 are the lanes of the register XORed with the first four. */
  function SliceSum(x0: bv32, x1: bv32, x2: bv32, x3: bv32, b4: bv32, b5: bv32, b6: bv32, b7: bv32): bv32 {
    Sum8(Xor,
         Iter(ZeroByte, b7, 1), Iter(ZeroByte, b6, 2), Iter(ZeroByte, b5, 3), Iter(ZeroByte, b4, 4),
         Iter(ZeroByte, x3, 5), Iter(ZeroByte, x2, 6), Iter(ZeroByte, x1, 7), Iter(ZeroByte, x0, 8))
  }

  /** w is the byte that comes down from u after k zero bytes. */
  ghost predicate ComesDown(u: bv32, k: nat, w: bv32) {
    Iter(ZeroByte, u, k) == w
  }

  lemma Down(w: bv32)
    requires w <= 0xff
    ensures ComesDown(w << 8, 1, w) && ComesDown(w << 16, 2, w) && ComesDown(w << 24, 3, w)
  {
    LaneDown(w);
  }

  lemma EightBytesApart(c: bv32, b0: bv32, b1: bv32, b2: bv32, b3: bv32, b4: bv32, b5: bv32, b6: bv32, b7: bv32,
                        u1: bv32, u2: bv32, u3: bv32, x0: bv32, v1: bv32, v2: bv32, v3: bv32,
                        x1: bv32, x2: bv32, x3: bv32)
    requires ComesDown(u1, 1, b1) && ComesDown(u2, 2, b2) && ComesDown(u3, 3, b3)
    requires ComesDown(v1, 1, x1) && ComesDown(v2, 2, x2) && ComesDown(v3, 3, x3)
    requires Sum5(Xor, c, b0, u1, u2, u3) == Xor(Xor(Xor(x0, v1), v2), v3)
    ensures Rounds(ZeroByte, Xor, Rounds(ZeroByte, Xor, c, b0, b1, b2, b3), b4, b5, b6, b7)
         == SliceSum(x0, x1, x2, x3, b4, b5, b6, b7)
  {
    ByteLinear();
    XorAbelian();
    EightRounds(ZeroByte, Xor, c, b0, b1, b2, b3, b4, b5, b6, b7, u1, u2, u3, x0, v1, v2, v3, x1, x2, x3);
  }

  lemma EightBytes(c: bv32, b0: bv32, b1: bv32, b2: bv32, b3: bv32, b4: bv32, b5: bv32, b6: bv32, b7: bv32, x: bv32)
    requires b1 <= 0xff && b2 <= 0xff && b3 <= 0xff
    requires x == Sum5(Xor, c, b0, b1 << 8, b2 << 16, b3 << 24)
    ensures Rounds(ZeroByte, Xor, Rounds(ZeroByte, Xor, c, b0, b1, b2, b3), b4, b5, b6, b7)
         == SliceSum(Lane0(x), Lane1(x), Lane2(x), Lane3(x), b4, b5, b6, b7)
  {
    Lanes(x);
    var x1, x2, x3 := Lane1(x), Lane2(x), Lane3(x);
    Down(b1);
    Down(b2);
    Down(b3);
    Down(x1);
    Down(x2);
    Down(x3);
    EightBytesApart(c, b0, b1, b2, b3, b4, b5, b6, b7, b1 << 8, b2 << 16, b3 << 24,
                    Lane0(x), x1 << 8, x2 << 16, x3 << 24, x1, x2, x3);
  }

  // ----- the register over sequences

  lemma ByteSteps(c: bv32, data: seq<bv8>)
    ensures Register(c, data) == Fold(ByteStep, c, data)
  {
    forall w, x ensures SameAt(MessageByte, ByteStep, w, x) {
      ByteByByte(w, x);
    }
    FoldSame(MessageByte, ByteStep, c, data);
  }

  lemma RegisterSnoc(c: bv32, a: seq<bv8>, x: bv8)
    ensures Register(c, a + [x]) == ByteStep(Register(c, a), x)
  {
    assert (a + [x])[..|a|] == a;
    ByteByByte(Register(c, a), x);
  }

  lemma RegisterConcat(c: bv32, a: seq<bv8>, b: seq<bv8>)
    ensures Register(c, a + b) == Register(Register(c, a), b)
  {
    FoldConcat(MessageByte, c, a, b);
  }

  function Word(b: bv8): bv32 { b as bv32 }

  lemma Pack16(lo: bv8, hi: bv8)
    ensures Join16(lo, hi) as bv32 == Xor(lo as bv32, (hi as bv32) << 8)
  {}

  lemma Pack32(lo: bv16, hi: bv16)
    ensures Join32(lo, hi) == Xor(lo as bv32, (hi as bv32) << 16)
  {}

  lemma PackHigh(lo: bv8, hi: bv8)
    ensures (Join16(lo, hi) as bv32) << 16 == Xor((lo as bv32) << 16, (hi as bv32) << 24)
  {}

  lemma PackedBytes(b0: bv8, b1: bv8, b2: bv8, b3: bv8)
    ensures FromLe32(b0, b1, b2, b3)
         == Xor(Xor(Xor(b0 as bv32, (b1 as bv32) << 8), (b2 as bv32) << 16), (b3 as bv32) << 24)
  {
    Pack16(b0, b1);
    Pack32(Join16(b0, b1), Join16(b2, b3));
    PackHigh(b2, b3);
    XorAssociates(Xor(b0 as bv32, (b1 as bv32) << 8), (b2 as bv32) << 16, (b3 as bv32) << 24);
  }

  lemma PackedXor(c: bv32, b0: bv8, b1: bv8, b2: bv8, b3: bv8)
    ensures Xor(c, FromLe32(b0, b1, b2, b3))
         == Sum5(Xor, c, b0 as bv32, (b1 as bv32) << 8, (b2 as bv32) << 16, (b3 as bv32) << 24)
  {
    PackedBytes(b0, b1, b2, b3);
    XorAbelian();
    SumNested(Xor, c, b0 as bv32, (b1 as bv32) << 8, (b2 as bv32) << 16, (b3 as bv32) << 24);
  }

  lemma RegisterRounds(c: bv32, d: seq<bv8>)
    requires |d| == 8
    ensures Register(c, d)
         == Rounds(ZeroByte, Xor, Rounds(ZeroByte, Xor, c, Word(d[0]), Word(d[1]), Word(d[2]), Word(d[3])),
                   Word(d[4]), Word(d[5]), Word(d[6]), Word(d[7]))
  {
    ByteSteps(c, d);
    forall w, x ensures StepsAt(ByteStep, ZeroByte, Xor, Word, w, x) {}
    FoldEight(ByteStep, ZeroByte, Xor, Word, c, d);
  }

  /** Slicing: the register after eight bytes, as the eight table values. */
  lemma RegisterEight(c: bv32, d: seq<bv8>, x: bv32)
    requires |d| == 8 && x == Xor(c, FromLe32(d[0], d[1], d[2], d[3]))
    ensures Register(c, d)
         == SliceSum(Lane0(x), Lane1(x), Lane2(x), Lane3(x),
                     d[4] as bv32, d[5] as bv32, d[6] as bv32, d[7] as bv32)
  {
    PackedXor(c, d[0], d[1], d[2], d[3]);
    RegisterRounds(c, d);
    EightBytes(c, d[0] as bv32, d[1] as bv32, d[2] as bv32, d[3] as bv32,
               d[4] as bv32, d[5] as bv32, d[6] as bv32, d[7] as bv32, x);
  }

  // ----- the tables

  /** Table value k - 1 for byte i: that byte advanced by k zero bytes. */
  ghost predicate Entry(v: bv32, k: nat, i: nat)
    requires i < 256
  {
    v == Iter(ZeroByte, (i as bv8) as bv32, k)
  }

  ghost predicate IsTable(t: seq<bv32>, k: nat) {
    |t| == 256 && forall i :: 0 <= i < 256 ==> Entry(t[i], k, i)
  }

  lemma WordOfIndex(i: nat)
    requires i < 256
    ensures i as bv32 == (i as bv8) as bv32
  {}

  lemma ByteIndex(b: bv8)
    ensures 0 <= b as int < 256 && (b as int) as bv8 == b
  {}

  lemma WordIndex(w: bv32)
    requires w <= 0xff
    ensures 0 <= w as int < 256 && w as int == (w as bv8) as int && (w as bv8) as bv32 == w
  {}

  lemma LookupByte(t: seq<bv32>, k: nat, b: bv8)
    requires IsTable(t, k)
    ensures 0 <= b as int < 256 && t[b as int] == Iter(ZeroByte, b as bv32, k)
  {
    ByteIndex(b);
    assert Entry(t[b as int], k, b as int);
  }

  lemma LookupWord(t: seq<bv32>, k: nat, w: bv32)
    requires IsTable(t, k) && w <= 0xff
    ensures 0 <= w as int < 256 && t[w as int] == Iter(ZeroByte, w, k)
  {
    WordIndex(w);
    LookupByte(t, k, w as bv8);
  }

  lemma OneZeroByte(c: bv32)
    ensures Iter(ZeroByte, c, 1) == ZeroByte(c)
  {
    OneStep(ZeroByte, c, ZeroByte(c));
  }

  /** `base[(c & 0xff)] ^ (c >> 8)` advances the register by one zero byte. */
  lemma TableStep(base: seq<bv32>, c: bv32)
    requires IsTable(base, 1)
    ensures 0 <= Lane0(c) as int < 256
    ensures Xor(base[Lane0(c) as int], Shr8(c)) == ZeroByte(c)
  {
    LookupWord(base, 1, Lane0(c));
    OneZeroByte(Lane0(c));
    LowLookup(c);
  }

  method BuildTable() returns (table: array<bv32>)
    ensures fresh(table) && IsTable(table[..], 1)
  {
    table := new bv32[256];
    var i := 0;
    while i < 256
      invariant 0 <= i <= 256
      invariant forall j :: 0 <= j < i ==> Entry(table[j], 1, j)
    {
      var crc := EightSteps(i);
      table[i] := crc;
      i := i + 1;
    }
  }

  /** The inner loop: eight bitwise reduction steps. */
  method EightSteps(i: nat) returns (crc: bv32)
    requires i < 256
    ensures Entry(crc, 1, i)
  {
    crc := i as bv32;
    ghost var c := crc;
    var bit := 0;
    while bit < 8
      invariant 0 <= bit <= 8
      invariant crc == Iter(Bit, c, bit)
    {
      crc := ReduceStep(crc);
      bit := bit + 1;
    }
    ByteIsEightBits(c);
    OneZeroByte(c);
    WordOfIndex(i);
  }

  method ReduceStep(crc: bv32) returns (next: bv32)
    ensures next == Bit(crc)
  {
    next := if crc & 1 != 0 then (crc >> 1) ^ POLY else crc >> 1;
  }

  /** The eight tables: table j holds every byte advanced by j + 1 zero bytes. */
  ghost predicate IsSlice8(t: array2<bv32>)
    reads t
  {
    && t.Length0 == 8 && t.Length1 == 256
    && forall j, i :: 0 <= j < 8 && 0 <= i < 256 ==> Entry(t[j, i], j + 1, i)
  }

  method NextEntry(base: array<bv32>, crc: bv32, ghost k: nat, ghost i: nat) returns (next: bv32)
    requires IsTable(base[..], 1) && i < 256 && Entry(crc, k, i)
    ensures Entry(next, k + 1, i)
  {
    TableStep(base[..], crc);
    EntryNext(crc, k, i);
    next := Xor(base[Lane0(crc) as int], Shr8(crc));
  }

  lemma EntryNext(v: bv32, k: nat, i: nat)
    requires i < 256 && Entry(v, k, i)
    ensures Entry(ZeroByte(v), k + 1, i)
  {}

  method BuildSlice8Table() returns (t: array2<bv32>)
    ensures fresh(t) && IsSlice8(t)
  {
    var base := BuildTable();
    t := new bv32[8, 256];
    var i := 0;
    while i < 256
      invariant 0 <= i <= 256
      invariant IsTable(base[..], 1)
      invariant forall j, k :: 0 <= j < 8 && 0 <= k < i ==> Entry(t[j, k], j + 1, k)
    {
      FillColumn(base, t, i);
      i := i + 1;
    }
  }

  method FillColumn(base: array<bv32>, t: array2<bv32>, i: nat)
    requires IsTable(base[..], 1) && i < 256
    requires t.Length0 == 8 && t.Length1 == 256
    modifies t
    ensures forall j :: 0 <= j < 8 ==> Entry(t[j, i], j + 1, i)
    ensures forall j, k :: 0 <= j < 8 && 0 <= k < 256 && k != i ==> t[j, k] == old(t[j, k])
  {
    var column := Column(base, i);
    forall j | 0 <= j < 8 {
      t[j, i] := column[j];
    }
    forall j | 0 <= j < 8 ensures Entry(t[j, i], j + 1, i) {
      assert Entry(column[j], j + 1, i);
    }
  }

  /** Entry l is byte i advanced by l + 1 zero bytes. */
  ghost predicate IsColumn(column: seq<bv32>, i: nat)
    requires i < 256
  {
    forall l :: 0 <= l < |column| ==> Entry(column[l], l + 1, i)
  }

  lemma ColumnGrows(column: seq<bv32>, v: bv32, i: nat)
    requires i < 256 && IsColumn(column, i) && Entry(v, |column| + 1, i)
    ensures IsColumn(column + [v], i)
  {
  }

  /** The inner loop: byte i advanced by one to eight zero bytes. */
  method Column(base: array<bv32>, i: nat) returns (column: seq<bv32>)
    requires IsTable(base[..], 1) && i < 256
    ensures |column| == 8 && IsColumn(column, i)
  {
    assert Entry(base[..][i], 1, i);
    column := [base[i]];
    while |column| < 8
      invariant 1 <= |column| <= 8
      invariant IsColumn(column, i)
    {
      column := Longer(base, column, i);
    }
  }

  method Longer(base: array<bv32>, column: seq<bv32>, ghost i: nat) returns (next: seq<bv32>)
    requires IsTable(base[..], 1) && i < 256 && column != [] && IsColumn(column, i)
    ensures |next| == |column| + 1 && IsColumn(next, i)
  {
    assert Entry(column[|column| - 1], |column|, i);
    var crc := NextEntry(base, column[|column| - 1], |column|, i);
    ColumnGrows(column, crc, i);
    next := column + [crc];
  }

  method SliceByte(t: array2<bv32>, k: nat, b: bv8) returns (v: bv32)
    requires IsSlice8(t) && k < 8
    ensures v == Iter(ZeroByte, Word(b), k + 1)
  {
    ByteIndex(b);
    v := t[k, b as int];
    assert Entry(t[k, b as int], k + 1, b as int);
  }

  /** One round of the main loop: absorb eight bytes. */
  method AbsorbEight(t: array2<bv32>, c: bv32, d: seq<bv8>) returns (next: bv32)
    requires IsSlice8(t) && |d| == 8
    ensures next == Register(c, d)
  {
    var x := Xor(c, FromLe32(d[0], d[1], d[2], d[3]));
    next := LookupEight(t, x, d[4], d[5], d[6], d[7]);
    RegisterEight(c, d, x);
  }

  method LookupEight(t: array2<bv32>, x: bv32, b4: bv8, b5: bv8, b6: bv8, b7: bv8) returns (sum: bv32)
    requires IsSlice8(t)
    ensures sum == SliceSum(Lane0(x), Lane1(x), Lane2(x), Lane3(x),
                            Word(b4), Word(b5), Word(b6), Word(b7))
  {
    Lanes(x);
    var v0, v1, v2, v3 := LookupFour(t, 0, b7, b6, b5, b4);
    var v4, v5, v6, v7 := LookupFour(t, 4, Lane3(x) as bv8, Lane2(x) as bv8, Lane1(x) as bv8, Lane0(x) as bv8);
    LaneBytes(x);
    sum := Sum8(Xor, v0, v1, v2, v3, v4, v5, v6, v7);
  }

  lemma LaneBytes(x: bv32)
    ensures Lane0(x) <= 0xff && Lane1(x) <= 0xff && Lane2(x) <= 0xff && Lane3(x) <= 0xff
    ensures Word(Lane0(x) as bv8) == Lane0(x) && Word(Lane1(x) as bv8) == Lane1(x)
    ensures Word(Lane2(x) as bv8) == Lane2(x) && Word(Lane3(x) as bv8) == Lane3(x)
  {}

  /** One byte looked up in each of four consecutive tables. */
  method LookupFour(t: array2<bv32>, k: nat, a: bv8, b: bv8, c: bv8, d: bv8)
    returns (v0: bv32, v1: bv32, v2: bv32, v3: bv32)
    requires IsSlice8(t) && k <= 4
    ensures v0 == Iter(ZeroByte, Word(a), k + 1) && v1 == Iter(ZeroByte, Word(b), k + 2)
    ensures v2 == Iter(ZeroByte, Word(c), k + 3) && v3 == Iter(ZeroByte, Word(d), k + 4)
  {
    v0 := SliceByte(t, k, a);
    v1 := SliceByte(t, k + 1, b);
    v2 := SliceByte(t, k + 2, c);
    v3 := SliceByte(t, k + 3, d);
  }

  lemma LowByteOnly(c: bv32, b: bv8)
    ensures Shr8(Xor(c, b as bv32)) == Shr8(c)
  {}

  lemma ByteLookup(base: seq<bv32>, c: bv32, b: bv8, x: bv32)
    requires IsTable(base, 1) && x == Xor(c, b as bv32)
    ensures 0 <= Lane0(x) as int < 256
    ensures Xor(base[Lane0(x) as int], Shr8(c)) == ByteStep(c, b)
  {
    TableStep(base, x);
    LowByteOnly(c, b);
  }

  /** One round of the tail loop. */
  method AbsorbByte(base: array<bv32>, c: bv32, b: bv8) returns (next: bv32)
    requires IsTable(base[..], 1)
    ensures next == ByteStep(c, b)
  {
    var x := Xor(c, b as bv32);
    ByteLookup(base[..], c, b, x);
    next := Xor(base[Lane0(x) as int], Shr8(c));
  }

  /** Byte at a time from a complemented register. */
  method Tail(base: array<bv32>, crc: bv32, data: seq<bv8>) returns (r: bv32)
    requires IsTable(base[..], 1)
    ensures r == Not(Register(Not(crc), data))
  {
    var c := Not(crc);
    var i := 0;
    while i < |data|
      invariant 0 <= i <= |data| && c == Register(Not(crc), data[..i])
    {
      RegisterSnoc(Not(crc), data[..i], data[i]);
      assert data[..i + 1] == data[..i] + [data[i]];
      c := AbsorbByte(base, c, data[i]);
      i := i + 1;
    }
    assert data[..i] == data;
    r := Not(c);
  }

  /** The main loop: eight bytes a round while more than eight are left. It stops
      short, so the tail never starts empty. */
  method Slices(data: seq<bv8>) returns (c: bv32, rest: seq<bv8>, ghost done: seq<bv8>)
    requires |data| >= 16
    ensures data == done + rest && 1 <= |rest| <= 8
    ensures c == Register(0xFFFF_FFFF, done)
  {
    var t := BuildSlice8Table();
    c, rest, done := 0xFFFF_FFFF, data, [];
    while |rest| > 8
      invariant |rest| >= 1 && data == done + rest
      invariant c == Register(0xFFFF_FFFF, done)
      invariant IsSlice8(t)
      decreases |rest|
    {
      RegisterConcat(0xFFFF_FFFF, done, rest[..8]);
      c := AbsorbEight(t, c, rest[..8]);
      done := done + rest[..8];
      rest := rest[8..];
    }
  }

  /** The checksum by slicing, with its cutoff and its tail, is the bit-at-a-time one. */
  method Checksum(data: seq<bv8>) returns (r: bv32)
    ensures r == Crc(data)
  {
    var base := BuildTable();
    if |data| < 16 {
      Complements();
      r := Tail(base, 0, data);
    } else {
      var c, rest;
      ghost var done;
      c, rest, done := Slices(data);
      RegisterConcat(0xFFFF_FFFF, done, rest);
      NotNot(c);
      r := Tail(base, Not(c), rest);
    }
  }

  lemma NotNot(c: bv32)
    ensures Not(Not(c)) == c
  {}

  lemma Complements()
    ensures Not(0) == 0xFFFF_FFFF
  {}

  // ----- masking

  /** `rotate_right(15)` and a wrapping addition. */
  function Mask(sum: bv32): bv32 {
    ((sum >> 15) | (sum << 17)) + 0xA282_EAD8
  }

  function Unmask(m: bv32): bv32 {
    var r := m - 0xA282_EAD8;
    (r << 15) | (r >> 17)
  }

  function Masked(data: seq<bv8>): bv32 {
    Mask(Crc(data))
  }

  method MaskedChecksum(data: seq<bv8>) returns (r: bv32)
    ensures r == Masked(data)
  {
    var sum := Checksum(data);
    r := Mask(sum);
  }

  /** The digits 1 to 9 in ASCII. */
  const CHECK: seq<bv8> := [0x31, 0x32, 0x33, 0x34, 0x35, 0x36, 0x37, 0x38, 0x39]

  /** The register moves from c to `next` over the i-th digit. */
  lemma {:induction false} Digit(i: nat, c: bv32, next: bv32)
    requires i < 9 && Register(0xFFFF_FFFF, CHECK[..i]) == c && MessageByte(c, CHECK[i]) == next
    ensures Register(0xFFFF_FFFF, CHECK[..i + 1]) == next
  {
    assert CHECK[..i + 1][..i] == CHECK[..i];
  }

  lemma {:induction false} AfterOne()
    ensures Register(0xFFFF_FFFF, CHECK[..1]) == 0x6F0A_661C
  {
    Digit(0, 0xFFFF_FFFF, 0x6F0A_661C);
  }

  lemma {:induction false} AfterTwo()
    ensures Register(0xFFFF_FFFF, CHECK[..2]) == 0x8CAA_3B9F
  {
    AfterOne();
    Digit(1, 0x6F0A_661C, 0x8CAA_3B9F);
  }

  lemma {:induction false} AfterThree()
    ensures Register(0xFFFF_FFFF, CHECK[..3]) == 0xEF84_D04D
  {
    AfterTwo();
    Digit(2, 0x8CAA_3B9F, 0xEF84_D04D);
  }

  lemma {:induction false} AfterFour()
    ensures Register(0xFFFF_FFFF, CHECK[..4]) == 0x09C5_0B11
  {
    AfterThree();
    Digit(3, 0xEF84_D04D, 0x09C5_0B11);
  }

  lemma {:induction false} AfterFive()
    ensures Register(0xFFFF_FFFF, CHECK[..5]) == 0xE72E_DCCA
  {
    AfterFour();
    Digit(4, 0x09C5_0B11, 0xE72E_DCCA);
  }

  lemma {:induction false} AfterSix()
    ensures Register(0xFFFF_FFFF, CHECK[..6]) == 0xBECA_8E79
  {
    AfterFive();
    Digit(5, 0xE72E_DCCA, 0xBECA_8E79);
  }

  lemma {:induction false} AfterSeven()
    ensures Register(0xFFFF_FFFF, CHECK[..7]) == 0xEDBD_6815
  {
    AfterSix();
    Digit(6, 0xBECA_8E79, 0xEDBD_6815);
  }

  lemma {:induction false} AfterEight()
    ensures Register(0xFFFF_FFFF, CHECK[..8]) == 0x9F78_7F65
  {
    AfterSeven();
    Digit(7, 0xEDBD_6815, 0x9F78_7F65);
  }

  lemma {:induction false} AfterNine()
    ensures Register(0xFFFF_FFFF, CHECK[..9]) == 0x1CF9_6D7C
  {
    AfterEight();
    Digit(8, 0x9F78_7F65, 0x1CF9_6D7C);
  }

  /** The check value published for CRC-32C, and what masking makes of it. */
  lemma {:induction false} CheckValue()
    ensures Crc(CHECK) == 0xE306_9283 && Masked(CHECK) == 0xC78A_B0E5
  {
    AfterNine();
    assert CHECK[..9] == CHECK;
  }

  /** Masking loses nothing. */
  lemma MaskInvertible(x: bv32)
    ensures Unmask(Mask(x)) == x && Mask(Unmask(x)) == x
  {}

  // ----- what the checksum detects

  lemma XorCancels(x: bv32, y: bv32, z: bv32)
    requires Xor(x, z) == Xor(y, z) || Xor(z, x) == Xor(z, y)
    ensures x == y
  {}

  /** Four bytes reach the register as one word and four zero bytes. */
  lemma RegisterFour(c: bv32, d: seq<bv8>)
    requires |d| == 4
    ensures Register(c, d) == Iter(ZeroByte, Xor(c, FromLe32(d[0], d[1], d[2], d[3])), 4)
  {
    ByteSteps(c, d);
    forall w, x ensures StepsAt(ByteStep, ZeroByte, Xor, Word, w, x) {}
    FoldRounds(ByteStep, ZeroByte, Xor, Word, c, d);
    PackedXor(c, d[0], d[1], d[2], d[3]);
    FourBytes(c, Word(d[0]), Word(d[1]), Word(d[2]), Word(d[3]));
  }

  lemma FourBytes(c: bv32, b0: bv32, b1: bv32, b2: bv32, b3: bv32)
    requires b1 <= 0xff && b2 <= 0xff && b3 <= 0xff
    ensures Rounds(ZeroByte, Xor, c, b0, b1, b2, b3)
         == Iter(ZeroByte, Sum5(Xor, c, b0, b1 << 8, b2 << 16, b3 << 24), 4)
  {
    ByteLinear();
    Down(b1);
    Down(b2);
    Down(b3);
    RoundsPacked(ZeroByte, Xor, c, b0, b1, b2, b3, b1 << 8, b2 << 16, b3 << 24);
  }

  lemma PackingDistinct(a: seq<bv8>, b: seq<bv8>)
    requires |a| == |b| == 4
    requires FromLe32(a[0], a[1], a[2], a[3]) == FromLe32(b[0], b[1], b[2], b[3])
    ensures a == b
  {
    RoundTrip32(a[0], a[1], a[2], a[3]);
    RoundTrip32(b[0], b[1], b[2], b[3]);
    assert a == [a[0], a[1], a[2], a[3]] && b == [b[0], b[1], b[2], b[3]];
  }

  lemma StartDistinct(c: bv32, x: bv32, y: bv32, n: nat)
    requires Iter(ZeroByte, Xor(c, x), n) == Iter(ZeroByte, Xor(c, y), n)
    ensures x == y
  {
    ByteLinear();
    IterInjective(ZeroByte, Xor(c, x), Xor(c, y), n);
    XorCancels(x, y, c);
  }

  /** From one register, different four-byte words lead to different registers. */
  lemma WordDistinct(c: bv32, a: seq<bv8>, b: seq<bv8>)
    requires |a| == |b| == 4 && Register(c, a) == Register(c, b)
    ensures a == b
  {
    RegisterFour(c, a);
    RegisterFour(c, b);
    StartDistinct(c, FromLe32(a[0], a[1], a[2], a[3]), FromLe32(b[0], b[1], b[2], b[3]), 4);
    PackingDistinct(a, b);
  }

  // ----- bursts of bits

  /** A byte's bits in the order they are shifted in. */
  function ByteBits(b: bv8): (s: seq<bool>)
    ensures |s| == 8
  {
    [b & 1 != 0, b & 2 != 0, b & 4 != 0, b & 8 != 0, b & 16 != 0, b & 32 != 0, b & 64 != 0, b & 128 != 0]
  }

  /** All the bits of a message in that order. */
  function Bits(data: seq<bv8>): (s: seq<bool>)
    ensures |s| == 8 * |data|
  {
    if data == [] then [] else Bits(data[..|data| - 1]) + ByteBits(data[|data| - 1])
  }

  /** The register is moved on by the message's bits alone. */
  lemma {:induction false} RegisterBits(c: bv32, data: seq<bv8>)
    ensures Register(c, data) == Fold(MessageBit, c, Bits(data))
  {
    if data != [] {
      var front, b := data[..|data| - 1], data[|data| - 1];
      RegisterBits(c, front);
      FoldConcat(MessageBit, c, Bits(front), ByteBits(b));
      FoldNest8(MessageBit, Register(c, front), ByteBits(b));
    }
  }

  function BitOf(on: bool, b: bv8): bv8 { if on then b else 0 }

  function PackByte(s0: bool, s1: bool, s2: bool, s3: bool, s4: bool, s5: bool, s6: bool, s7: bool): bv8 {
    BitOf(s0, 1) | BitOf(s1, 2) | BitOf(s2, 4) | BitOf(s3, 8)
    | BitOf(s4, 16) | BitOf(s5, 32) | BitOf(s6, 64) | BitOf(s7, 128)
  }

  lemma BytePacked(s0: bool, s1: bool, s2: bool, s3: bool, s4: bool, s5: bool, s6: bool, s7: bool) returns (b: bv8)
    ensures ByteBits(b) == [s0, s1, s2, s3, s4, s5, s6, s7]
  {
    b := PackByte(s0, s1, s2, s3, s4, s5, s6, s7);
  }

  /** Any eight bits are those of a byte. */
  lemma {:induction false} ByteOf(s: seq<bool>) returns (b: bv8)
    requires |s| == 8
    ensures ByteBits(b) == s
  {
    EightItems(s);
    b := BytePacked(s[0], s[1], s[2], s[3], s[4], s[5], s[6], s[7]);
  }

  lemma {:induction false} EightItems<T>(s: seq<T>)
    requires |s| == 8
    ensures s == [s[0], s[1], s[2], s[3], s[4], s[5], s[6], s[7]]
  {}

  lemma {:induction false} BytesOf(s: seq<bool>, n: nat) returns (d: seq<bv8>)
    requires |s| == 8 * n
    ensures |d| == n && Bits(d) == s
  {
    if n == 0 {
      d := [];
    } else {
      var front := BytesOf(s[..8 * (n - 1)], n - 1);
      var b := ByteOf(s[8 * (n - 1)..]);
      d := front + [b];
      assert d[..|d| - 1] == front;
      assert s == s[..8 * (n - 1)] + s[8 * (n - 1)..];
    }
  }

  /** From one register, different 32-bit strings lead to different registers. */
  lemma {:induction false} Bits32Distinct(c: bv32, s: seq<bool>, t: seq<bool>)
    requires |s| == |t| == 32 && Fold(MessageBit, c, s) == Fold(MessageBit, c, t)
    ensures s == t
  {
    var a := BytesOf(s, 4);
    var b := BytesOf(t, 4);
    RegisterBits(c, a);
    RegisterBits(c, b);
    WordDistinct(c, a, b);
  }

  /** So do different strings of up to 32 bits. */
  lemma {:induction false} WindowDistinct(c: bv32, s: seq<bool>, t: seq<bool>)
    requires |s| == |t| <= 32 && Fold(MessageBit, c, s) == Fold(MessageBit, c, t)
    ensures s == t
  {
    var pad := seq(32 - |s|, _ => false);
    FoldConcat(MessageBit, c, s, pad);
    FoldConcat(MessageBit, c, t, pad);
    Bits32Distinct(c, s + pad, t + pad);
    assert s == (s + pad)[..|s|] && t == (t + pad)[..|t|];
  }

  lemma MessageBitDistinct(c: bv32, d: bv32, bit: bool)
    ensures StepDistinctAt(MessageBit, c, d, bit)
  {
    if MessageBit(c, bit) == MessageBit(d, bit) {
      ShiftedInDistinct(c, d, bit);
    }
  }

  lemma ShiftedInDistinct(c: bv32, d: bv32, bit: bool)
    requires MessageBit(c, bit) == MessageBit(d, bit)
    ensures c == d
  {}

  /** Different registers stay different over the same bits. */
  lemma {:induction false} BitsDistinct(c: bv32, d: bv32, s: seq<bool>)
    requires Fold(MessageBit, c, s) == Fold(MessageBit, d, s)
    ensures c == d
  {
    forall u, v, x ensures StepDistinctAt(MessageBit, u, v, x) {
      MessageBitDistinct(u, v, x);
    }
    FoldDistinct(MessageBit, c, d, s);
  }

  /** And over the same bytes. */
  lemma {:induction false} RegisterDistinct(c: bv32, d: bv32, data: seq<bv8>)
    requires Register(c, data) == Register(d, data)
    ensures c == d
  {
    RegisterBits(c, data);
    RegisterBits(d, data);
    BitsDistinct(c, d, Bits(data));
  }

  /** The two messages have one length and agree in every bit outside 32 in a row. */
  ghost predicate AgreeOutside(a: seq<bv8>, b: seq<bv8>, p: nat) {
    |a| == |b| && forall i :: 0 <= i < 8 * |a| && !(p <= i < p + 32) ==> Bits(a)[i] == Bits(b)[i]
  }

  lemma {:induction false} InThree(c: bv32, s: seq<bool>, lo: nat, hi: nat)
    requires lo <= hi <= |s|
    ensures Fold(MessageBit, c, s)
         == Fold(MessageBit, Fold(MessageBit, Fold(MessageBit, c, s[..lo]), s[lo..hi]), s[hi..])
  {
    FoldConcat(MessageBit, c, s[..lo], s[lo..hi]);
    FoldConcat(MessageBit, c, s[..lo] + s[lo..hi], s[hi..]);
    assert s == (s[..lo] + s[lo..hi]) + s[hi..];
  }

  lemma {:induction false} SameFoldSameBits(c: bv32, s: seq<bool>, t: seq<bool>, lo: nat, hi: nat)
    requires |s| == |t| && lo <= hi <= |s| && hi <= lo + 32
    requires s[..lo] == t[..lo] && s[hi..] == t[hi..] && Fold(MessageBit, c, s) == Fold(MessageBit, c, t)
    ensures s == t
  {
    var r := Fold(MessageBit, c, s[..lo]);
    InThree(c, s, lo, hi);
    InThree(c, t, lo, hi);
    BitsDistinct(Fold(MessageBit, r, s[lo..hi]), Fold(MessageBit, r, t[lo..hi]), s[hi..]);
    WindowDistinct(r, s[lo..hi], t[lo..hi]);
    ThreePieces(s, t, lo, hi);
  }

  lemma ThreePieces<T>(a: seq<T>, b: seq<T>, lo: nat, hi: nat)
    requires |a| == |b| && lo <= hi <= |a|
    requires a[..lo] == b[..lo] && a[lo..hi] == b[lo..hi] && a[hi..] == b[hi..]
    ensures a == b
  {
    assert a == a[..lo] + a[lo..hi] + a[hi..];
    assert b == b[..lo] + b[lo..hi] + b[hi..];
  }

  lemma BytesDistinct(x: bv8, y: bv8)
    requires ByteBits(x) == ByteBits(y)
    ensures x == y
  {
    var s, t := ByteBits(x), ByteBits(y);
    assert s[0] == t[0] && s[1] == t[1] && s[2] == t[2] && s[3] == t[3];
    assert s[4] == t[4] && s[5] == t[5] && s[6] == t[6] && s[7] == t[7];
  }

  /** Messages with the same bits are the same. */
  lemma {:induction false} SameBitsSameData(a: seq<bv8>, b: seq<bv8>)
    requires Bits(a) == Bits(b)
    ensures a == b
  {
    assert |a| == |b|;
    if a != [] {
      var f, g, x, y := a[..|a| - 1], b[..|b| - 1], a[|a| - 1], b[|b| - 1];
      assert Bits(f) == Bits(a)[..8 * |f|] && Bits(g) == Bits(b)[..8 * |g|];
      assert ByteBits(x) == Bits(a)[8 * |f|..] && ByteBits(y) == Bits(b)[8 * |g|..];
      SameBitsSameData(f, g);
      BytesDistinct(x, y);
      assert a == f + [x] && b == g + [y];
    }
  }

  lemma {:induction false} SameCrcSameData(a: seq<bv8>, b: seq<bv8>, p: nat)
    requires AgreeOutside(a, b, p) && Crc(a) == Crc(b)
    ensures a == b
  {
    var s, t := Bits(a), Bits(b);
    var lo := if p <= |s| then p else |s|;
    var hi := if p + 32 <= |s| then p + 32 else |s|;
    NotNot(Register(0xFFFF_FFFF, a));
    NotNot(Register(0xFFFF_FFFF, b));
    RegisterBits(0xFFFF_FFFF, a);
    RegisterBits(0xFFFF_FFFF, b);
    AgreeingEnds(s, t, p, lo, hi);
    SameFoldSameBits(0xFFFF_FFFF, s, t, lo, hi);
    SameBitsSameData(a, b);
  }

  lemma AgreeingEnds(s: seq<bool>, t: seq<bool>, p: nat, lo: nat, hi: nat)
    requires |s| == |t| && lo <= hi <= |s| && lo <= p && (hi == |s| || p + 32 <= hi)
    requires forall i :: 0 <= i < |s| && !(p <= i < p + 32) ==> s[i] == t[i]
    ensures s[..lo] == t[..lo] && s[hi..] == t[hi..]
  {}

  /** Any two inputs of one length that differ, and only inside 32 consecutive bits,
      wherever those start, have different checksums and different masked checksums. */
  lemma {:induction false} BurstDetected(a: seq<bv8>, b: seq<bv8>, p: nat)
    requires AgreeOutside(a, b, p) && a != b
    ensures Crc(a) != Crc(b)
    ensures Masked(a) != Masked(b)
  {
    if Crc(a) == Crc(b) {
      SameCrcSameData(a, b, p);
      assert false;
    }
    MaskInvertible(Crc(a));
    MaskInvertible(Crc(b));
  }
}
