/** What fixes the value of the checksum itself: its residue, its dependence on leading zeros, and the
    check value of CRC-32. Each would fail without the complement before or after the division. */
module CrcResidue {
  import opened Bytes
  import opened ShiftRegister
  import opened CrcTable
  import opened Crc32
  import opened CrcTheorems

  // ---- the register, one byte at a time ----

  /** The byte `b` selects entry `i` of the table when the register is `c`, and `down` is what is left
      of the register. */
  ghost predicate Selects(c: bv32, b: bv8, i: bv8, down: bv32) {
    forall k: nat {:trigger Show(k)} :: Show(k) ==> i == ((c ^ (b as bv32)) & 0xFF) as bv8 && down == c >> 8
  }

  ghost predicate Enters(t: bv8 -> bv32, c: bv32, b: bv8, next: bv32, i: bv8, down: bv32) {
    Selects(c, b, i, down) && next == t(i) ^ down
  }

  /** The register goes from `c` to `next` with the byte `b`. */
  ghost predicate Goes(t: bv8 -> bv32, c: bv32, b: bv8, next: bv32) {
    exists i, down :: Enters(t, c, b, next, i, down)
  }

  lemma EnteredFeeds(t: bv8 -> bv32, c: bv32, b: bv8, next: bv32, i: bv8, down: bv32)
    requires t == Table && Enters(t, c, b, next, i, down)
    ensures Feed(REGISTER, c, ByteBits(b)) == next
  {
    assert Show(0);
    TableIsEightSteps(t, i, BYTE);
    FeedByte(t, c, b, i, down);
  }

  lemma GoesFeeds(t: bv8 -> bv32, c: bv32, b: bv8, next: bv32, rest: seq<bv8>)
    requires t == Table && Goes(t, c, b, next)
    ensures Feed(REGISTER, c, Bits([b] + rest)) == Feed(REGISTER, next, Bits(rest))
  {
    var i, down :| Enters(t, c, b, next, i, down);
    EnteredFeeds(t, c, b, next, i, down);
    LoopStep(c, ByteBits(b), next, Bits(rest));
    assert ([b] + rest)[1..] == rest;
  }

  lemma Fed(c: bv32)
    ensures Feed(REGISTER, c, Bits([])) == c
  {
  }

  // ---- the residue ----

  function Low(w: bv32): bv8 {
    (w & 0xFF) as bv8
  }

  /** The `n` lowest bytes of `w`, the lowest first. */
  function LowBytes(w: bv32, n: nat): seq<bv8> {
    if n == 0 then [] else [Low(w)] + LowBytes(w >> 8, n - 1)
  }

  /** A checksum as it is appended to its message: four bytes, the low one first. */
  function LittleEndian(w: bv32): seq<bv8> {
    LowBytes(w, 4)
  }

  predicate FitsBytes(w: bv32, n: nat) {
    if n == 0 then w == 0 else FitsBytes(w >> 8, n - 1)
  }

  lemma WordFits(w: bv32)
    ensures FitsBytes(w, 4)
  {
    assert (((w >> 8) >> 8) >> 8) >> 8 == 0;
    assert FitsBytes((w >> 8) >> 8, 2);
  }

  /** What is left of a word, `w`, and the register, `c`, differ by `d`. */
  ghost predicate Apart(c: bv32, w: bv32, d: bv32) {
    forall k: nat {:trigger Show(k)} :: Show(k) ==> c ^ w == d
  }

  /** The word and the register select the entry that their difference selects alone. */
  lemma SelectsApart(c: bv32, w: bv32, d: bv32, i: bv8, down: bv32, v: bv32)
    requires Apart(c, w, d) && Selects(d, 0, i, down) && v == w >> 8
    ensures Selects(c, Low(w), i, down ^ v)
  {
    assert Show(0);
    SameIndex(c, w, d, Low(w));
  }

  lemma SameIndex(c: bv32, w: bv32, d: bv32, b: bv8)
    requires c ^ w == d && b == Low(w)
    ensures ((d ^ ((0 as bv8) as bv32)) & 0xFF) as bv8 == ((c ^ (b as bv32)) & 0xFF) as bv8
    ensures (d >> 8) ^ (w >> 8) == c >> 8
  {
  }

  lemma XorOrder(x: bv32, down: bv32, v: bv32, next: bv32, c': bv32)
    requires next == x ^ down && c' == next ^ v
    ensures c' == x ^ (down ^ v) && c' ^ v == next
  {
  }

  lemma NowApart(c: bv32, v: bv32, d: bv32)
    requires c ^ v == d
    ensures Apart(c, v, d)
  {
  }

  /** One byte of `w` is fed, and `v` is left of it. */
  lemma DifferenceStep(t: bv8 -> bv32, c: bv32, w: bv32, d: bv32, next: bv32, c': bv32, v: bv32)
    requires Apart(c, w, d) && Goes(t, d, 0, next) && v == w >> 8 && c' == next ^ v
    ensures Goes(t, c, Low(w), c') && Apart(c', v, next)
  {
    var i, down :| Enters(t, d, 0, next, i, down);
    SelectsApart(c, w, d, i, down, v);
    EntersApart(t, c, Low(w), next, c', v, i, down, t(i), down ^ v);
  }

  lemma EntersApart(t: bv8 -> bv32, c: bv32, b: bv8, next: bv32, c': bv32, v: bv32, i: bv8, down: bv32, x: bv32,
                    rest: bv32)
    requires Selects(c, b, i, rest) && x == t(i) && next == x ^ down && c' == next ^ v && rest == down ^ v
    ensures Goes(t, c, b, c') && Apart(c', v, next)
  {
    XorOrder(x, down, v, next, c');
    NowApart(c', v, next);
    EnteredAs(t, c, b, c', i, rest, x);
  }

  lemma EnteredAs(t: bv8 -> bv32, c: bv32, b: bv8, next: bv32, i: bv8, down: bv32, x: bv32)
    requires Selects(c, b, i, down) && x == t(i) && next == x ^ down
    ensures Goes(t, c, b, next)
  {
    assert Enters(t, c, b, next, i, down);
  }

  lemma Entered(t: bv8 -> bv32, c: bv32, b: bv8, next: bv32, i: bv8, down: bv32, x: bv32)
    requires i == ((c ^ (b as bv32)) & 0xFF) as bv8 && down == c >> 8 && x == t(i) && next == x ^ down
    ensures Goes(t, c, b, next)
  {
    EnteredAs(t, c, b, next, i, down, x);
  }

  /** The table's constants that the lemmas below come across. */
  lemma Constants(t: bv8 -> bv32)
    requires t == Table
    ensures t(0xFF) == 0x2D02_EF8D && t(0x72) == 0xBE0B_1010 && t(0x00) == 0 && t(0xED) == 0xDEBB_9EC5
    ensures t(0xCE) == 0x7CDC_EFB7 && t(0x7A) == 0xB0D0_9822 && t(0x01) == 0x7707_3096 && t(0x19) == 0x646B_A8C0
    ensures t(0x69) == 0x346E_D9FC && t(0xD5) == 0xF6B9_265B && t(0xA9) == 0xAF0A_1B4C && t(0x58) == 0x65B0_D9C6
  {
  }

  /** Where `n` zero bytes take the register from all ones. */
  function AfterZeros(n: nat): bv32 {
    match n
    case 0 => 0xFFFF_FFFF case 1 => 0x2DFD_1072 case 2 => 0xBE26_ED00 case 3 => 0x00BE_26ED case _ => 0xDEBB_20E3
  }

  lemma ZeroGoes(t: bv8 -> bv32, n: nat)
    requires t == Table && n < 4
    ensures Goes(t, AfterZeros(n), 0, AfterZeros(n + 1))
  {
    Constants(t);
    match n
    case 0 => Entered(t, 0xFFFF_FFFF, 0, 0x2DFD_1072, 0xFF, 0xFF_FFFF, 0x2D02_EF8D);
    case 1 => Entered(t, 0x2DFD_1072, 0, 0xBE26_ED00, 0x72, 0x2D_FD10, 0xBE0B_1010);
    case 2 => Entered(t, 0xBE26_ED00, 0, 0x00BE_26ED, 0x00, 0xBE_26ED, 0);
    case 3 => Entered(t, 0x00BE_26ED, 0, 0xDEBB_20E3, 0xED, 0xBE26, 0xDEBB_9EC5);
  }

  lemma WordStep(t: bv8 -> bv32, c: bv32, w: bv32, d: bv32, next: bv32, c': bv32, v: bv32, rest: seq<bv8>)
    requires t == Table && Apart(c, w, d) && Goes(t, d, 0, next) && v == w >> 8 && c' == next ^ v
    ensures Feed(REGISTER, c, Bits([Low(w)] + rest)) == Feed(REGISTER, c', Bits(rest))
    ensures Apart(c', v, next)
  {
    DifferenceStep(t, c, w, d, next, c', v);
    GoesFeeds(t, c, Low(w), c', rest);
  }

  lemma NothingLeft(c: bv32, d: bv32)
    requires Apart(c, 0, d)
    ensures c == d
  {
    assert Show(0);
    assert c ^ 0 == c;
  }

  /** A register fed with the word `w`, of which it is the opposite but for `k` bytes fed already. */
  lemma {:induction false} FedOpposite(t: bv8 -> bv32, c: bv32, w: bv32, k: nat)
    requires t == Table && k <= 4 && Apart(c, w, AfterZeros(k)) && FitsBytes(w, 4 - k)
    ensures Feed(REGISTER, c, Bits(LowBytes(w, 4 - k))) == 0xDEBB_20E3
    decreases 4 - k
  {
    if k == 4 {
      NothingLeft(c, 0xDEBB_20E3);
      Fed(c);
    } else {
      var v, next := w >> 8, AfterZeros(k + 1);
      ZeroGoes(t, k);
      WordStep(t, c, w, AfterZeros(k), next, next ^ v, v, LowBytes(v, 3 - k));
      FedOpposite(t, next ^ v, v, k + 1);
    }
  }

  lemma Opposite(c: bv32, w: bv32)
    requires w == !c
    ensures Apart(c, w, 0xFFFF_FFFF) && !w == c
  {
  }

  lemma ChecksumIs(buf: seq<bv8>, crc: bv32, start: bv32, c: bv32)
    requires start == !crc && c == Feed(REGISTER, start, Bits(buf))
    ensures Checksum(buf, crc) == !c
  {
  }

  lemma AppendedChecksum(buf: seq<bv8>, c: bv32, w: bv32, tail: seq<bv8>)
    requires w == Checksum(buf, 0) && !w == c && Feed(REGISTER, c, Bits(tail)) == 0xDEBB_20E3
    ensures Checksum(buf + tail, 0) == 0x2144_DF1C
  {
    Concatenation(buf, tail, 0);
    ChecksumIs(tail, w, c, 0xDEBB_20E3);
  }

  /** The residue law: a message followed by its own checksum, low byte first, has one checksum
      whatever the message. */
  lemma Residue(buf: seq<bv8>)
    ensures Checksum(buf + LittleEndian(Checksum(buf, 0)), 0) == 0x2144_DF1C
  {
    var c := Feed(REGISTER, 0xFFFF_FFFF, Bits(buf));
    var w := Checksum(buf, 0);
    ChecksumIs(buf, 0, 0xFFFF_FFFF, c);
    OwnChecksum(buf, c, w);
  }

  lemma OwnChecksum(buf: seq<bv8>, c: bv32, w: bv32)
    requires w == Checksum(buf, 0) && w == !c
    ensures Checksum(buf + LittleEndian(w), 0) == 0x2144_DF1C
  {
    Opposite(c, w);
    WordFits(w);
    FedOpposite(Table, c, w, 0);
    AppendedChecksum(buf, c, w, LittleEndian(w));
  }

  // ---- leading zeros ----

  lemma {:induction false} ZerosFed(t: bv8 -> bv32, z: seq<bv8>, k: nat)
    requires t == Table && k + |z| <= 4 && forall i :: 0 <= i < |z| ==> z[i] == 0
    ensures Feed(REGISTER, AfterZeros(k), Bits(z)) == AfterZeros(k + |z|)
    decreases |z|
  {
    if z == [] {
      Fed(AfterZeros(k));
    } else {
      ZeroGoes(t, k);
      GoesFeeds(t, AfterZeros(k), 0, AfterZeros(k + 1), z[1..]);
      assert z == [0] + z[1..];
      ZerosFed(t, z[1..], k + 1);
    }
  }

  lemma FeedsDiffer(x: bv32, y: bv32, buf: seq<bv8>)
    requires x != y
    ensures Feed(REGISTER, x, Bits(buf)) != Feed(REGISTER, y, Bits(buf))
  {
    if Feed(REGISTER, x, Bits(buf)) == Feed(REGISTER, y, Bits(buf)) {
      RegisterIsLinear();
      FeedInjective(REGISTER, x, y, Bits(buf));
    }
  }

  /** Leading zeros count: a message and the same message behind one to four zero bytes have different
      checksums. */
  lemma LeadingZeros(z: seq<bv8>, buf: seq<bv8>)
    requires 1 <= |z| <= 4 && forall i :: 0 <= i < |z| ==> z[i] == 0
    ensures Checksum(z + buf, 0) != Checksum(buf, 0)
  {
    var c := AfterZeros(|z|);
    ZerosFed(Table, z, 0);
    BitsAppend(z, buf);
    FeedAppend(REGISTER, 0xFFFF_FFFF, Bits(z), Bits(buf));
    FeedsDiffer(c, 0xFFFF_FFFF, buf);
    ChecksumIs(z + buf, 0, 0xFFFF_FFFF, Feed(REGISTER, c, Bits(buf)));
    ChecksumIs(buf, 0, 0xFFFF_FFFF, Feed(REGISTER, 0xFFFF_FFFF, Bits(buf)));
    ComplementInjective(Feed(REGISTER, c, Bits(buf)), Feed(REGISTER, 0xFFFF_FFFF, Bits(buf)));
  }

  // ---- the check value ----

  lemma DigitSteps(t: bv8 -> bv32)
    requires t == Table
    ensures Goes(t, 0xFFFF_FFFF, 0x31, 0x7C23_1048) && Goes(t, 0x7C23_1048, 0x32, 0xB0AC_BB32)
    ensures Goes(t, 0xB0AC_BB32, 0x33, 0x77B7_9C2D) && Goes(t, 0x77B7_9C2D, 0x34, 0x641C_1F5C)
    ensures Goes(t, 0x641C_1F5C, 0x35, 0x340A_C5E3) && Goes(t, 0x340A_C5E3, 0x36, 0xF68D_2C9E)
    ensures Goes(t, 0xF68D_2C9E, 0x37, 0xAFFC_9660) && Goes(t, 0xAFFC_9660, 0x38, 0x651F_2550)
    ensures Goes(t, 0x651F_2550, 0x39, 0x340B_C6D9)
  {
    Constants(t);
    Entered(t, 0xFFFF_FFFF, 0x31, 0x7C23_1048, 0xCE, 0xFF_FFFF, 0x7CDC_EFB7);
    Entered(t, 0x7C23_1048, 0x32, 0xB0AC_BB32, 0x7A, 0x7C_2310, 0xB0D0_9822);
    Entered(t, 0xB0AC_BB32, 0x33, 0x77B7_9C2D, 0x01, 0xB0_ACBB, 0x7707_3096);
    Entered(t, 0x77B7_9C2D, 0x34, 0x641C_1F5C, 0x19, 0x77_B79C, 0x646B_A8C0);
    Entered(t, 0x641C_1F5C, 0x35, 0x340A_C5E3, 0x69, 0x64_1C1F, 0x346E_D9FC);
    Entered(t, 0x340A_C5E3, 0x36, 0xF68D_2C9E, 0xD5, 0x34_0AC5, 0xF6B9_265B);
    Entered(t, 0xF68D_2C9E, 0x37, 0xAFFC_9660, 0xA9, 0xF6_8D2C, 0xAF0A_1B4C);
    Entered(t, 0xAFFC_9660, 0x38, 0x651F_2550, 0x58, 0xAF_FC96, 0x65B0_D9C6);
    Entered(t, 0x651F_2550, 0x39, 0x340B_C6D9, 0x69, 0x65_1F25, 0x346E_D9FC);
  }

  /** The published check value: the checksum of "123456789". */
  lemma CheckValue()
    ensures Checksum([0x31, 0x32, 0x33, 0x34, 0x35, 0x36, 0x37, 0x38, 0x39], 0) == 0xCBF4_3926
  {
    var t: bv8 -> bv32 := Table;
    DigitSteps(t);
    GoesFeeds(t, 0xFFFF_FFFF, 0x31, 0x7C23_1048, [0x32, 0x33, 0x34, 0x35, 0x36, 0x37, 0x38, 0x39]);
    GoesFeeds(t, 0x7C23_1048, 0x32, 0xB0AC_BB32, [0x33, 0x34, 0x35, 0x36, 0x37, 0x38, 0x39]);
    GoesFeeds(t, 0xB0AC_BB32, 0x33, 0x77B7_9C2D, [0x34, 0x35, 0x36, 0x37, 0x38, 0x39]);
    GoesFeeds(t, 0x77B7_9C2D, 0x34, 0x641C_1F5C, [0x35, 0x36, 0x37, 0x38, 0x39]);
    GoesFeeds(t, 0x641C_1F5C, 0x35, 0x340A_C5E3, [0x36, 0x37, 0x38, 0x39]);
    GoesFeeds(t, 0x340A_C5E3, 0x36, 0xF68D_2C9E, [0x37, 0x38, 0x39]);
    GoesFeeds(t, 0xF68D_2C9E, 0x37, 0xAFFC_9660, [0x38, 0x39]);
    GoesFeeds(t, 0xAFFC_9660, 0x38, 0x651F_2550, [0x39]);
    GoesFeeds(t, 0x651F_2550, 0x39, 0x340B_C6D9, []);
    Fed(0x340B_C6D9);
  }
}
