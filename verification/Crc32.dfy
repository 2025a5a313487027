/** The table-driven CRC-32 that guards a program download (mac-src/boot-crc32.h), proved
    against the bit-at-a-time definition of RFC 1952, section 8. */
module Crc32 {
  import opened ShiftRegister
  import opened CrcStep
  import opened CrcTable

  /** The CRC-32 register as a linear shift register. */
  const REGISTER: Machine<bv32> := Machine(
    0, (x: bv32, y: bv32) => x ^ y, Shift, (c: bv32) => c & 1 == 1, Unit, 32)

  const BYTE: nat := 8

  predicate Bit(b: bv8, j: nat) {
    match j
    case 0 => b & 1 != 0 case 1 => b & 2 != 0 case 2 => b & 4 != 0 case 3 => b & 8 != 0
    case 4 => b & 16 != 0 case 5 => b & 32 != 0 case 6 => b & 64 != 0 case _ => b & 128 != 0
  }

  function ByteBits(b: bv8): seq<bool> {
    seq(BYTE, j requires 0 <= j < BYTE => Bit(b, j))
  }

  /** The message as bits, the least significant bit of each byte first. */
  function Bits(buf: seq<bv8>): (r: seq<bool>)
    ensures |r| == 8 * |buf|
    decreases |buf|
  {
    if buf == [] then [] else ByteBits(buf[0]) + Bits(buf[1..])
  }

  /** The definition: the checksum of `buf` continued from an earlier checksum `crc`, one bit
      at a time. */
  function Checksum(buf: seq<bv8>, crc: bv32): bv32 {
    ChecksumBy(REGISTER, Not, buf, crc)
  }

  function Not(c: bv32): bv32 {
    !c
  }

  /** The same over any register and any complement. */
  function ChecksumBy<T(!new)>(m: Machine<T>, not: T -> T, buf: seq<bv8>, crc: T): T {
    not(Feed(m, not(crc), Bits(buf)))
  }

  // ---- the program ----

  method CrcInc(buf: seq<bv8>, crc0: bv32) returns (crc: bv32)
    ensures crc == Checksum(buf, crc0)
  {
    forall i
      ensures StepsAt(Table, i, BYTE)
    {
      TableIsEightSteps(Table, i, BYTE);
    }
    crc := CrcLoop(Table, buf, crc0 ^ 0xFFFF_FFFF);
    Complement(crc0);
    Complement(crc);
    crc := crc ^ 0xFFFF_FFFF;
  }

  /** The byte loop of `crc32_inc` over the table `tab`. */
  method CrcLoop(tab: bv8 -> bv32, buf: seq<bv8>, start: bv32) returns (crc: bv32)
    requires forall i :: StepsAt(tab, i, BYTE)
    ensures crc == Feed(REGISTER, start, Bits(buf))
  {
    crc := start;
    var p := 0;
    assert buf[0..] == buf;
    while p < |buf|
      invariant p <= |buf|
      invariant Feed(REGISTER, crc, Bits(buf[p..])) == Feed(REGISTER, start, Bits(buf))
    {
      var i, down := ((crc ^ (buf[p] as bv32)) & 0xFF) as bv8, crc >> 8;
      var next := tab(i) ^ down;
      FeedByte(tab, crc, buf[p], i, down);
      LoopStep(crc, ByteBits(buf[p]), next, Bits(buf[p + 1..]));
      assert buf[p..][1..] == buf[p + 1..];
      crc := next;
      p := p + 1;
    }
  }

  method Crc(buf: seq<bv8>) returns (crc: bv32)
    ensures crc == Checksum(buf, 0)
  {
    crc := CrcInc(buf, 0);
  }

  lemma Complement(c: bv32)
    ensures c ^ 0xFFFF_FFFF == !c
  {
  }

  // ---- the register obeys the laws of a linear shift register ----

  lemma Add(x: bv32, y: bv32)
    ensures REGISTER.add(x, y) == x ^ y
  {
  }

  lemma StepIsShift(x: bv32)
    ensures REGISTER.step(x) == Shift(x)
  {
  }

  lemma StepOfSum(x: bv32, y: bv32)
    ensures REGISTER.step(REGISTER.add(x, y)) == REGISTER.add(REGISTER.step(x), REGISTER.step(y))
  {
    calc {
      REGISTER.step(REGISTER.add(x, y));
      { Add(x, y); StepIsShift(x ^ y); }
      Shift(x ^ y);
      { ShiftLinear(x, y); }
      Shift(x) ^ Shift(y);
      { Add(Shift(x), Shift(y)); StepIsShift(x); StepIsShift(y); }
      REGISTER.add(REGISTER.step(x), REGISTER.step(y));
    }
  }

  lemma SumOfSums(a: bv32, b: bv32, p: bv32, q: bv32)
    ensures REGISTER.add(REGISTER.add(a, b), REGISTER.add(p, q))
         == REGISTER.add(REGISTER.add(a, p), REGISTER.add(b, q))
  {
    calc {
      REGISTER.add(REGISTER.add(a, b), REGISTER.add(p, q));
      { Add(a, b); Add(p, q); Add(a ^ b, p ^ q); }
      (a ^ b) ^ (p ^ q);
      { ExchangeXor(a, b, p, q); }
      (a ^ p) ^ (b ^ q);
      { Add(a, p); Add(b, q); Add(a ^ p, b ^ q); }
      REGISTER.add(REGISTER.add(a, p), REGISTER.add(b, q));
    }
  }

  lemma SumWithZero(x: bv32)
    ensures REGISTER.add(x, REGISTER.zero) == x && REGISTER.add(REGISTER.zero, x) == x
    ensures REGISTER.add(x, x) == REGISTER.zero
  {
    Add(x, 0);
    Add(0, x);
    Add(x, x);
    XorIdentity(x);
  }

  lemma LowOfSum(x: bv32, y: bv32)
    ensures REGISTER.low(REGISTER.add(x, y)) <==> REGISTER.low(x) != REGISTER.low(y)
  {
    Add(x, y);
    LowOfXor(x, y);
  }

  lemma LowOfUnit(i: nat)
    requires i < 32
    ensures REGISTER.low(REGISTER.unit(i)) <==> i == 0
  {
    UnitLow(i);
  }

  lemma UnitIs(i: nat)
    ensures REGISTER.unit(i) == Unit(i)
  {
  }

  lemma StepTo(u: bv32, v: bv32)
    requires Shift(u) == v
    ensures REGISTER.step(u) == v
  {
    StepIsShift(u);
  }

  lemma StepOfUnit(unit: nat -> bv32, i: nat)
    requires unit == REGISTER.unit && 0 < i < 32
    ensures REGISTER.step(unit(i)) == unit(i - 1)
  {
    UnitsShift(unit, i);
    StepTo(unit(i), unit(i - 1));
  }

  lemma UnitsShift(unit: nat -> bv32, i: nat)
    requires unit == REGISTER.unit && 0 < i < 32
    ensures Shift(unit(i)) == unit(i - 1)
  {
    UnitShift(i);
    UnitIs(i);
    UnitIs(i - 1);
  }

  lemma RegisterIsGroup()
    ensures Group(REGISTER)
  {
    forall x: bv32
      ensures REGISTER.add(x, REGISTER.zero) == x && REGISTER.add(REGISTER.zero, x) == x
      ensures REGISTER.add(x, x) == REGISTER.zero
    {
      SumWithZero(x);
    }
    forall a, b, p, q | Quad(a, b, p, q)
      ensures REGISTER.add(REGISTER.add(a, b), REGISTER.add(p, q))
           == REGISTER.add(REGISTER.add(a, p), REGISTER.add(b, q))
    {
      SumOfSums(a, b, p, q);
    }
  }

  lemma RegisterIsLinear()
    ensures Linear(REGISTER)
  {
    RegisterIsGroup();
    RegisterIsAdditive();
    forall x, y | REGISTER.step(x) == REGISTER.step(y)
      ensures x == y
    {
      StepIsShift(x);
      StepIsShift(y);
      ShiftInjective(x, y);
    }
  }

  lemma RegisterIsAdditive()
    ensures Additive(REGISTER)
  {
    StepIsShift(0);
    assert Shift(0) == 0;
    forall x, y
      ensures REGISTER.step(REGISTER.add(x, y)) == REGISTER.add(REGISTER.step(x), REGISTER.step(y))
    {
      StepOfSum(x, y);
    }
  }

  lemma RegisterIsGraded()
    ensures Graded(REGISTER)
  {
    forall x, y
      ensures REGISTER.low(REGISTER.add(x, y)) <==> REGISTER.low(x) != REGISTER.low(y)
    {
      LowOfSum(x, y);
    }
    forall i: nat | i < 32
      ensures REGISTER.low(REGISTER.unit(i)) <==> i == 0
      ensures i > 0 ==> REGISTER.step(REGISTER.unit(i)) == REGISTER.unit(i - 1)
    {
      LowOfUnit(i);
      if i > 0 {
        StepOfUnit(REGISTER.unit, i);
      }
    }
  }

  // ---- the table is eight steps ----

  lemma Orbit()
    ensures Shift(128) == 64 && Shift(64) == 32 && Shift(32) == 16 && Shift(16) == 8
    ensures Shift(8) == 4 && Shift(4) == 2 && Shift(2) == 1 && Shift(1) == 0xedb88320
    ensures Shift(0xedb88320) == 0x76dc4190 && Shift(0x76dc4190) == 0x3b6e20c8
    ensures Shift(0x3b6e20c8) == 0x1db71064 && Shift(0x1db71064) == 0x0edb8832
    ensures Shift(0x0edb8832) == 0x076dc419 && Shift(0x076dc419) == 0xee0e612c
    ensures Shift(0xee0e612c) == 0x77073096
  {
  }

  lemma EightSteps(c0: bv32, c1: bv32, c2: bv32, c3: bv32, c4: bv32,
                   c5: bv32, c6: bv32, c7: bv32, c8: bv32)
    requires Shift(c0) == c1 && Shift(c1) == c2 && Shift(c2) == c3 && Shift(c3) == c4
    requires Shift(c4) == c5 && Shift(c5) == c6 && Shift(c6) == c7 && Shift(c7) == c8
    ensures Steps(REGISTER, c0, 8) == c8
  {
    StepIsShift(c0);
    StepIsShift(c1);
    StepIsShift(c2);
    StepIsShift(c3);
    StepIsShift(c4);
    StepIsShift(c5);
    StepIsShift(c6);
    StepIsShift(c7);
    assert Steps(REGISTER, c6, 2) == c8;
    assert Steps(REGISTER, c4, 4) == Steps(REGISTER, c6, 2);
    assert Steps(REGISTER, c2, 6) == Steps(REGISTER, c4, 4);
  }

  lemma Basis(n: nat)
    requires n == 8
    ensures Table(0) == 0
    ensures Table(0x01) == Steps(REGISTER, 0x01, n) && Table(0x02) == Steps(REGISTER, 0x02, n)
    ensures Table(0x04) == Steps(REGISTER, 0x04, n) && Table(0x08) == Steps(REGISTER, 0x08, n)
    ensures Table(0x10) == Steps(REGISTER, 0x10, n) && Table(0x20) == Steps(REGISTER, 0x20, n)
    ensures Table(0x40) == Steps(REGISTER, 0x40, n) && Table(0x80) == Steps(REGISTER, 0x80, n)
  {
    Orbit();
    EightSteps(128, 64, 32, 16, 8, 4, 2, 1, 0xedb88320);
    EightSteps(64, 32, 16, 8, 4, 2, 1, 0xedb88320, 0x76dc4190);
    EightSteps(32, 16, 8, 4, 2, 1, 0xedb88320, 0x76dc4190, 0x3b6e20c8);
    EightSteps(16, 8, 4, 2, 1, 0xedb88320, 0x76dc4190, 0x3b6e20c8, 0x1db71064);
    EightSteps(8, 4, 2, 1, 0xedb88320, 0x76dc4190, 0x3b6e20c8, 0x1db71064, 0x0edb8832);
    EightSteps(4, 2, 1, 0xedb88320, 0x76dc4190, 0x3b6e20c8, 0x1db71064, 0x0edb8832, 0x076dc419);
    EightSteps(2, 1, 0xedb88320, 0x76dc4190, 0x3b6e20c8, 0x1db71064, 0x0edb8832, 0x076dc419,
      0xee0e612c);
    EightSteps(1, 0xedb88320, 0x76dc4190, 0x3b6e20c8, 0x1db71064, 0x0edb8832, 0x076dc419,
      0xee0e612c, 0x77073096);
  }

  lemma StepsOfXor(x: bv32, y: bv32, n: nat)
    ensures Steps(REGISTER, x ^ y, n) == Steps(REGISTER, x, n) ^ Steps(REGISTER, y, n)
  {
    calc {
      Steps(REGISTER, x ^ y, n);
      { Add(x, y); }
      Steps(REGISTER, REGISTER.add(x, y), n);
      { RegisterIsAdditive(); StepsLinear(REGISTER, x, y, n); }
      REGISTER.add(Steps(REGISTER, x, n), Steps(REGISTER, y, n));
      { Add(Steps(REGISTER, x, n), Steps(REGISTER, y, n)); }
      Steps(REGISTER, x, n) ^ Steps(REGISTER, y, n);
    }
  }

  ghost predicate StepsAt(t: bv8 -> bv32, j: bv8, n: nat) {
    t(j) == Steps(REGISTER, j as bv32, n)
  }

  lemma JoinedSteps(x: bv32, y: bv32, z: bv32, tx: bv32, ty: bv32, tz: bv32, n: nat)
    requires z == x ^ y && tz == tx ^ ty
    requires tx == Steps(REGISTER, x, n) && ty == Steps(REGISTER, y, n)
    ensures tz == Steps(REGISTER, z, n)
  {
    StepsOfXor(x, y, n);
  }

  /** Entries that are right for the halves of an index are right for the index. */
  lemma Joins(t: bv8 -> bv32, ab: bv8, a: bv8, b: bv8, n: nat)
    requires Halves(t, ab, a, b) && StepsAt(t, a, n) && StepsAt(t, b, n)
    ensures StepsAt(t, ab, n)
  {
    JoinedSteps(a as bv32, b as bv32, ab as bv32, t(a), t(b), t(ab), n);
  }

  /** An entry of at most one index bit. */
  lemma LeafSteps(t: bv8 -> bv32, a: bv8, bit: bv8, n: nat)
    requires t == Table && n == 8 && (a == 0 || a == bit)
    requires bit == 0x80 || bit == 0x40 || bit == 0x20 || bit == 0x10
          || bit == 0x08 || bit == 0x04 || bit == 0x02 || bit == 0x01
    ensures StepsAt(t, a, n)
  {
    SingleBitSteps(t, n);
    RegisterIsAdditive();
    StepsOfZero(REGISTER, n);
  }

  lemma SingleBitSteps(t: bv8 -> bv32, n: nat)
    requires t == Table && n == 8
    ensures t(0) == 0
    ensures StepsAt(t, 0x80, n) && StepsAt(t, 0x40, n) && StepsAt(t, 0x20, n) && StepsAt(t, 0x10, n)
    ensures StepsAt(t, 0x08, n) && StepsAt(t, 0x04, n) && StepsAt(t, 0x02, n) && StepsAt(t, 0x01, n)
  {
    Basis(n);
  }

  lemma PairSteps(t: bv8 -> bv32, i: bv8, p: bv8, q: bv8, n: nat)
    requires t == Table && n == 8 && i & (p | q) == i
    requires (p == 0x80 && q == 0x40) || (p == 0x20 && q == 0x10)
          || (p == 0x08 && q == 0x04) || (p == 0x02 && q == 0x01)
    ensures StepsAt(t, i, n)
  {
    var a, b := i & p, i & q;
    PairHalves(t, i, p, q, a, b);
    LeafSteps(t, a, p, n);
    LeafSteps(t, b, q, n);
    Joins(t, i, a, b, n);
  }

  lemma UpperNibbleSteps(t: bv8 -> bv32, i: bv8, n: nat)
    requires t == Table && n == 8 && i & 0x0F == 0
    ensures StepsAt(t, i, n)
  {
    var a, b := i & 0xC0, i & 0x30;
    UpperNibbleHalves(t, i, a, b);
    PairSteps(t, a, 0x80, 0x40, n);
    PairSteps(t, b, 0x20, 0x10, n);
    Joins(t, i, a, b, n);
  }

  lemma LowerNibbleSteps(t: bv8 -> bv32, i: bv8, n: nat)
    requires t == Table && n == 8 && i & 0xF0 == 0
    ensures StepsAt(t, i, n)
  {
    var a, b := i & 0x0C, i & 0x03;
    LowerNibbleHalves(t, i, a, b);
    PairSteps(t, a, 0x08, 0x04, n);
    PairSteps(t, b, 0x02, 0x01, n);
    Joins(t, i, a, b, n);
  }

  /** Every one of the 256 constants is its index after eight bit-steps. */
  lemma TableIsEightSteps(t: bv8 -> bv32, i: bv8, n: nat)
    requires n == 8 && t == Table
    ensures StepsAt(t, i, n)
  {
    var a, b := i & 0xF0, i & 0x0F;
    ByteHalves(t, i, a, b);
    UpperNibbleSteps(t, a, n);
    LowerNibbleSteps(t, b, n);
    Joins(t, i, a, b, n);
  }

  // ---- one table step consumes one byte ----

  lemma PackBit(bits: seq<bool>, i: nat)
    requires i < |bits| == 8
    ensures Pack(REGISTER, bits[i..], i)
         == Pack(REGISTER, bits[i + 1..], i + 1) ^ (if bits[i] then Unit(i) else 0)
  {
    var u := if bits[i] then Unit(i) else 0;
    calc {
      Pack(REGISTER, bits[i..], i);
      { assert bits[i..][1..] == bits[i + 1..]; }
      REGISTER.add(Pack(REGISTER, bits[i + 1..], i + 1), Scaled(REGISTER, bits[i], i));
      REGISTER.add(Pack(REGISTER, bits[i + 1..], i + 1), u);
      { Add(Pack(REGISTER, bits[i + 1..], i + 1), u); }
      Pack(REGISTER, bits[i + 1..], i + 1) ^ u;
    }
  }

  /** The bits of a byte from bit `k` upwards. */
  function Above(k: nat): bv8 {
    match k
    case 0 => 0xFF case 1 => 0xFE case 2 => 0xFC case 3 => 0xF8
    case 4 => 0xF0 case 5 => 0xE0 case 6 => 0xC0 case 7 => 0x80 case _ => 0
  }

  lemma AboveStep(b: bv8, k: nat)
    requires k < 8
    ensures (b & Above(k)) as bv32
         == ((b & Above(k + 1)) as bv32) ^ (if Bit(b, k) then Unit(k) else 0)
  {
  }

  lemma {:induction false} PackByte(b: bv8, k: nat)
    requires k <= 8
    ensures Pack(REGISTER, ByteBits(b)[k..], k) == (b & Above(k)) as bv32
    decreases 8 - k
  {
    if k < 8 {
      PackByte(b, k + 1);
      PackBit(ByteBits(b), k);
      AboveStep(b, k);
    }
  }

  function Halved(y: bv32, n: nat): bv32
    decreases n
  {
    if n == 0 then y else Halved(y >> 1, n - 1)
  }

  predicate LowZero(y: bv32, n: nat)
    decreases n
  {
    n == 0 || (y & 1 == 0 && LowZero(y >> 1, n - 1))
  }

  /** Bits that are not yet at the bottom only move down. */
  lemma {:induction false} StepsOfHighBits(y: bv32, n: nat)
    requires LowZero(y, n)
    ensures Steps(REGISTER, y, n) == Halved(y, n)
    decreases n
  {
    if n > 0 {
      StepIsShift(y);
      ShiftOfEven(y);
      StepsOfHighBits(y >> 1, n - 1);
    }
  }

  lemma EightHalvings(y: bv32)
    requires y & 0xFF == 0
    ensures LowZero(y, 8) && Halved(y, 8) == y >> 8
  {
  }

  /** The byte that selects the table entry, and the rest of the register. */
  lemma SplitByte(x: bv32, c: bv32, b: bv8, i: bv8, high: bv32, down: bv32)
    requires x == c ^ (b as bv32) && i == (x & 0xFF) as bv8
    requires high == x & 0xFFFF_FF00 && down == c >> 8
    ensures (i as bv32) ^ high == x && high >> 8 == down && high & 0xFF == 0
  {
  }

  lemma HighSteps(high: bv32, down: bv32, n: nat)
    requires n == 8 && high >> 8 == down && high & 0xFF == 0
    ensures down == Steps(REGISTER, high, n)
  {
    EightHalvings(high);
    StepsOfHighBits(high, n);
  }

  lemma StepsOfSplit(t: bv8 -> bv32, x: bv32, i: bv8, low: bv32, high: bv32, down: bv32, n: nat)
    requires low == i as bv32 && low ^ high == x && StepsAt(t, i, n)
    requires down == Steps(REGISTER, high, n)
    ensures Steps(REGISTER, x, n) == t(i) ^ down
  {
    JoinedSteps(low, high, x, t(i), down, t(i) ^ down, n);
  }

  lemma FeedIsSteps(c: bv32, b: bv8, x: bv32, n: nat)
    requires n == |ByteBits(b)| && x == c ^ (b as bv32)
    ensures Feed(REGISTER, c, ByteBits(b)) == Steps(REGISTER, x, n)
  {
    calc {
      Feed(REGISTER, c, ByteBits(b));
      { RegisterIsLinear(); RegisterIsGraded(); FeedIsAddThenSteps(REGISTER, c, ByteBits(b)); }
      Steps(REGISTER, REGISTER.add(c, Pack(REGISTER, ByteBits(b), 0)), n);
      { PackByte(b, 0); assert ByteBits(b)[0..] == ByteBits(b); assert b & Above(0) == b; }
      Steps(REGISTER, REGISTER.add(c, b as bv32), n);
      { Add(c, b as bv32); }
      Steps(REGISTER, x, n);
    }
  }

  /** One table step consumes one byte. */
  lemma FeedByte(t: bv8 -> bv32, c: bv32, b: bv8, i: bv8, down: bv32)
    requires i == ((c ^ (b as bv32)) & 0xFF) as bv8 && down == c >> 8
    requires StepsAt(t, i, BYTE)
    ensures Feed(REGISTER, c, ByteBits(b)) == t(i) ^ down
  {
    var x := c ^ (b as bv32);
    var high := x & 0xFFFF_FF00;
    SplitByte(x, c, b, i, high, down);
    FeedIsSteps(c, b, x, BYTE);
    HighSteps(high, down, BYTE);
    StepsOfSplit(t, x, i, i as bv32, high, down, BYTE);
  }

  lemma LoopStep(c: bv32, bits: seq<bool>, next: bv32, rest: seq<bool>)
    requires Feed(REGISTER, c, bits) == next
    ensures Feed(REGISTER, next, rest) == Feed(REGISTER, c, bits + rest)
  {
    FeedAppend(REGISTER, c, bits, rest);
  }
}
