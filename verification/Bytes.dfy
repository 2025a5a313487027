/** Bytes, 32-bit little-endian words, and the two ways the program reads a 512-byte sector:
    as 128 words (a FAT sector) or as 16 slots of 32 bytes (directory records or id-table
    entries). */
module Bytes {

  const WRAP := 0x1_0000_0000

  type Byte = b: int | 0 <= b < 0x100

  type Word = w: int | 0 <= w < WRAP

  /** Byte `j` of `w` in memory order on a little-endian machine. */
  function ByteOf(w: Word, j: nat): Byte
    requires j < 4
  {
    if j == 0 then w % 0x100
    else if j == 1 then w / 0x100 % 0x100
    else if j == 2 then w / 0x1_0000 % 0x100
    else w / 0x100_0000
  }

  function Le(b0: Byte, b1: Byte, b2: Byte, b3: Byte): Word {
    b0 + 0x100 * b1 + 0x1_0000 * b2 + 0x100_0000 * b3
  }

  function WordBytes(w: Word): seq<Byte> {
    [ByteOf(w, 0), ByteOf(w, 1), ByteOf(w, 2), ByteOf(w, 3)]
  }

  lemma LeOfByteOf(w: Word)
    ensures Le(ByteOf(w, 0), ByteOf(w, 1), ByteOf(w, 2), ByteOf(w, 3)) == w
  {
    assert w / 0x1_0000 == w / 0x100 / 0x100;
    assert w / 0x100_0000 == w / 0x1_0000 / 0x100;
  }

  lemma ByteOfLe(b0: Byte, b1: Byte, b2: Byte, b3: Byte)
    ensures WordBytes(Le(b0, b1, b2, b3)) == [b0, b1, b2, b3]
  {
    var w := Le(b0, b1, b2, b3);
    assert w / 0x100 == b1 + 0x100 * b2 + 0x1_0000 * b3;
    assert w / 0x1_0000 == b2 + 0x100 * b3;
    assert w / 0x100_0000 == b3;
  }

  /** Always true. Some definitions are stated for "every `k` such that Show(k)", so that a
      proof sees through them only where it names the index it needs. */
  ghost predicate Show(k: nat) {
    true
  }

  const SECTOR_SIZE := 512

  function Zeros(n: nat): (z: seq<Byte>)
    ensures |z| == n && forall i :: 0 <= i < n ==> z[i] == 0
  {
    if n == 0 then [] else Zeros(n - 1) + [0]
  }

  type Sector = s: seq<Byte> | |s| == SECTOR_SIZE witness Zeros(SECTOR_SIZE)

  const BLANK: Sector := Zeros(SECTOR_SIZE)

  // ---- a sector as 128 words ----

  function WordAt(s: Sector, i: nat): Word
    requires i < 128
  {
    Le(s[4 * i], s[4 * i + 1], s[4 * i + 2], s[4 * i + 3])
  }

  function DecodeWords(s: Sector): (ws: seq<Word>)
    ensures |ws| == 128
  {
    seq(128, i requires 0 <= i < 128 => WordAt(s, i))
  }

  function EncodeWords(ws: seq<Word>): Sector
    requires |ws| == 128
  {
    seq(SECTOR_SIZE, k requires 0 <= k < SECTOR_SIZE => ByteOf(ws[k / 4], k % 4))
  }

  lemma EncodedWord(ws: seq<Word>, s: Sector, i: nat)
    requires |ws| == 128 && s == EncodeWords(ws) && i < 128
    ensures WordAt(s, i) == ws[i]
  {
    assert s[4 * i] == ByteOf(ws[i], 0) && s[4 * i + 1] == ByteOf(ws[i], 1);
    assert s[4 * i + 2] == ByteOf(ws[i], 2) && s[4 * i + 3] == ByteOf(ws[i], 3);
    LeOfByteOf(ws[i]);
  }

  lemma SectorRoundTrip(s: Sector)
    ensures EncodeWords(DecodeWords(s)) == s
  {
    forall k | 0 <= k < SECTOR_SIZE
      ensures EncodeWords(DecodeWords(s))[k] == s[k]
    {
      var i := k / 4;
      ByteOfLe(s[4 * i], s[4 * i + 1], s[4 * i + 2], s[4 * i + 3]);
      assert WordBytes(WordAt(s, i))[k % 4] == ByteOf(WordAt(s, i), k % 4);
      assert k == 4 * i + k % 4;
    }
  }

  // ---- a sector as 16 slots of 32 bytes ----

  type Slot = r: seq<Byte> | |r| == 32 witness Zeros(32)

  function SlotAt(s: Sector, i: nat): Slot
    requires i < 16
  {
    s[32 * i..32 * i + 32]
  }

  function DecodeSlots(s: Sector): (rs: seq<Slot>)
    ensures |rs| == 16
  {
    seq(16, i requires 0 <= i < 16 => SlotAt(s, i))
  }

  function EncodeSlots(rs: seq<Slot>): Sector
    requires |rs| == 16
  {
    seq(SECTOR_SIZE, k requires 0 <= k < SECTOR_SIZE => rs[k / 32][k % 32])
  }

  lemma SlotsRoundTrip(rs: seq<Slot>)
    requires |rs| == 16
    ensures DecodeSlots(EncodeSlots(rs)) == rs
  {
    forall i | 0 <= i < 16
      ensures SlotAt(EncodeSlots(rs), i) == rs[i]
    {
      var s := SlotAt(EncodeSlots(rs), i);
      forall j | 0 <= j < 32
        ensures s[j] == rs[i][j]
      {
        assert s[j] == EncodeSlots(rs)[32 * i + j];
        assert (32 * i + j) / 32 == i && (32 * i + j) % 32 == j;
      }
    }
  }
}
