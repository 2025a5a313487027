/** One bit-step of the CRC-32 register, on raw 32-bit vectors. */
module CrcStep {
  const POLY: bv32 := 0xEDB88320
  
  function Tap(low: bv32): bv32 {
    if low == 1 then POLY else 0
  }

  /** One step of reflected division by the polynomial, RFC 1952 section 8. */
  function Shift(c: bv32): bv32 {
    (c >> 1) ^ Tap(c & 1)
  }

  lemma HalfOfXor(x: bv32, y: bv32)
    ensures (x ^ y) >> 1 == (x >> 1) ^ (y >> 1)
  {
  }

  lemma TapLinear(x: bv32, y: bv32)
    ensures Tap((x ^ y) & 1) == Tap(x & 1) ^ Tap(y & 1)
  {
    assert x & 1 == 0 || x & 1 == 1;
    assert y & 1 == 0 || y & 1 == 1;
    assert (x ^ y) & 1 == (x & 1) ^ (y & 1);
  }

  lemma ExchangeXor(a: bv32, b: bv32, p: bv32, q: bv32)
    ensures (a ^ b) ^ (p ^ q) == (a ^ p) ^ (b ^ q)
  {
  }

  lemma ShiftLinear(x: bv32, y: bv32)
    ensures Shift(x ^ y) == Shift(x) ^ Shift(y)
  {
    HalfOfXor(x, y);
    TapLinear(x, y);
    ExchangeXor(x >> 1, y >> 1, Tap(x & 1), Tap(y & 1));
  }

  /** The polynomial's top bit is set, so no two registers step to the same register. */
  lemma ShiftInjective(x: bv32, y: bv32)
    requires Shift(x) == Shift(y)
    ensures x == y
  {
  }

  /** The register with only bit `i` set. */
  function Unit(i: nat): bv32 {
    match i
    case 0 => 0x1 case 1 => 0x2 case 2 => 0x4 case 3 => 0x8
    case 4 => 0x10 case 5 => 0x20 case 6 => 0x40 case 7 => 0x80
    case 8 => 0x100 case 9 => 0x200 case 10 => 0x400 case 11 => 0x800
    case 12 => 0x1000 case 13 => 0x2000 case 14 => 0x4000 case 15 => 0x8000
    case 16 => 0x1_0000 case 17 => 0x2_0000 case 18 => 0x4_0000 case 19 => 0x8_0000
    case 20 => 0x10_0000 case 21 => 0x20_0000 case 22 => 0x40_0000 case 23 => 0x80_0000
    case 24 => 0x100_0000 case 25 => 0x200_0000 case 26 => 0x400_0000 case 27 => 0x800_0000
    case 28 => 0x1000_0000 case 29 => 0x2000_0000 case 30 => 0x4000_0000 case _ => 0x8000_0000
  }

  lemma UnitLow(i: nat)
    requires i < 32
    ensures Unit(i) & 1 == if i == 0 then 1 else 0
  {
  }

  lemma UnitHalf(i: nat)
    requires 0 < i < 16 || 16 < i < 32
    ensures Unit(i) >> 1 == Unit(i - 1)
  {
  }

  lemma UnitShift(i: nat)
    requires 0 < i < 32
    ensures Shift(Unit(i)) == Unit(i - 1)
  {
    var u := Unit(i);
    UnitLow(i);
    assert u >> 1 == Unit(i - 1) by {
      if i != 16 {
        UnitHalf(i);
      }
    }
    ShiftOfEven(u);
  }

  lemma ShiftOfEven(u: bv32)
    requires u & 1 == 0
    ensures Shift(u) == u >> 1
  {
  }

  lemma LowOfXor(x: bv32, y: bv32)
    ensures (x ^ y) & 1 == 1 <==> (x & 1 == 1) != (y & 1 == 1)
  {
    assert x & 1 == 0 || x & 1 == 1;
    assert y & 1 == 0 || y & 1 == 1;
  }

  lemma XorIdentity(x: bv32)
    ensures x ^ 0 == x && 0 ^ x == x && x ^ x == 0
  {
  }
}
