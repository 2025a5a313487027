/** The bytes of a FAT32 card: partition table, volume header, FAT and data area, each field at its byte
    offset ("Boot Sector and BPB" and "FAT Data Structure" in the Microsoft FAT32 File System
    Specification). Nothing here refers to how the driver reads a field; the lemmas show that mounting
    and the model of the volume see exactly these bytes. */
module Layout {
  import opened Bytes
  import opened Card
  import opened Volume
  import opened Directory
  import opened Effects

  // ---- the card as bytes ----

  /** Byte `x` of the card. */
  function ByteAt(d: Image, x: nat): Byte {
    Read(d, x / SECTOR_SIZE)[x % SECTOR_SIZE]
  }

  /** The number in the `n` bytes from `x`, low byte first. */
  function Number(d: Image, x: nat, n: nat): nat
    decreases n
  {
    if n == 0 then 0 else ByteAt(d, x) + 0x100 * Number(d, x + 1, n - 1)
  }

  lemma ByteIn(d: Image, lba: nat, i: nat)
    requires i < SECTOR_SIZE
    ensures ByteAt(d, SECTOR_SIZE * lba + i) == Read(d, lba)[i]
  {
    assert (SECTOR_SIZE * lba + i) / SECTOR_SIZE == lba && (SECTOR_SIZE * lba + i) % SECTOR_SIZE == i;
  }

  /** The `n` bytes from `x` hold the number `v`. */
  ghost predicate Field(d: Image, x: nat, n: nat, v: nat) {
    forall k: nat {:trigger Show(k)} :: Show(k) ==> v == Number(d, x, n)
  }

  lemma TwoBytesIn(d: Image, lba: nat, i: nat, v: nat)
    requires i + 2 <= SECTOR_SIZE
    ensures HeaderField(d, lba, i, 2, v) <==> v == HalfWord(Read(d, lba), i)
  {
    ByteIn(d, lba, i);
    ByteIn(d, lba, i + 1);
    var x := SECTOR_SIZE * lba + i;
    assert Show(0) && Number(d, x + 2, 0) == 0;
    assert Number(d, x + 1, 1) == ByteAt(d, x + 1) as int;
  }

  lemma FourBytesIn(d: Image, lba: nat, i: nat, v: nat)
    requires i + 4 <= SECTOR_SIZE
    ensures HeaderField(d, lba, i, 4, v) <==> v == WordFrom(Read(d, lba), i)
  {
    ByteIn(d, lba, i);
    ByteIn(d, lba, i + 1);
    ByteIn(d, lba, i + 2);
    ByteIn(d, lba, i + 3);
    var x := SECTOR_SIZE * lba + i;
    assert Show(0) && Number(d, x + 4, 0) == 0;
    assert Number(d, x + 3, 1) == ByteAt(d, x + 3) as int;
    assert Number(d, x + 2, 2) == ByteAt(d, x + 2) as int + 0x100 * ByteAt(d, x + 3) as int;
    assert Number(d, x + 1, 3) ==
           ByteAt(d, x + 1) as int + 0x100 * ByteAt(d, x + 2) as int + 0x1_0000 * ByteAt(d, x + 3) as int;
  }

  // ---- a formatted card ----

  /** What a card was formatted with: which of the four partitions, its first sector and size, reserved
      sectors, number of FATs, sectors per FAT, sectors per cluster, root directory cluster. */
  datatype Format = Format(
    partition: nat, lba: nat, sectors: nat, reserved: nat, fats: nat, spf: nat, spc: nat, root: nat)

  /** A field of partition entry `i`. */
  ghost predicate EntryField(d: Image, i: nat, at: nat, n: nat, v: nat) {
    Field(d, 446 + 16 * i + at, n, v)
  }

  /** A field of the volume header in sector `lba`. */
  ghost predicate HeaderField(d: Image, lba: nat, at: nat, n: nat, v: nat) {
    Field(d, 512 * lba + at, n, v)
  }

  ghost predicate EntryMatches(d: Image, p: Format) {
    && p.partition < 4 && p.sectors != 0
    && EntryField(d, p.partition, 8, 4, p.lba) && EntryField(d, p.partition, 12, 4, p.sectors)
    && forall j: nat :: j < 4 && j != p.partition ==> EntryField(d, j, 12, 4, 0)
  }

  ghost predicate HeaderMatches(d: Image, p: Format) {
    && HeaderField(d, p.lba, 11, 2, 512)
    && HeaderField(d, p.lba, 13, 1, p.spc)
    && HeaderField(d, p.lba, 14, 2, p.reserved)
    && HeaderField(d, p.lba, 16, 1, p.fats)
    && HeaderField(d, p.lba, 36, 4, p.spf)
    && HeaderField(d, p.lba, 44, 4, p.root)
  }

  /** The card has one partition in use, and its header holds these parameters. */
  ghost predicate FormattedAs(d: Image, p: Format) {
    EntryMatches(d, p) && HeaderMatches(d, p)
  }

  /** The volume those parameters describe: the FATs follow the reserved sectors, the clusters follow
      all the FATs. */
  function Described(p: Format): Geometry {
    Geometry(p.lba, (p.lba + p.reserved) % WRAP, (p.lba + p.reserved + p.fats * p.spf) % WRAP, p.spc, p.root, p.spf)
  }

  lemma OneByteIn(d: Image, lba: nat, i: nat, v: nat)
    requires i < SECTOR_SIZE
    ensures HeaderField(d, lba, i, 1, v) <==> v == Read(d, lba)[i]
  {
    ByteIn(d, lba, i);
    assert Show(0) && Number(d, SECTOR_SIZE * lba + i + 1, 0) == 0;
  }

  lemma EntryIn(d: Image, i: nat, at: nat, v: nat)
    requires i < 4 && at + 4 <= 16
    ensures EntryField(d, i, at, 4, v) <==> v == WordFrom(Read(d, 0), 446 + 16 * i + at)
  {
    FourBytesIn(d, 0, 446 + 16 * i + at, v);
    assert HeaderField(d, 0, 446 + 16 * i + at, 4, v) <==> EntryField(d, i, at, 4, v);
  }

  /** Partition `i` is the only one in use. */
  ghost predicate Only(mbr: Sector, i: nat) {
    Used(mbr, i) && forall j: nat :: j != i ==> !Used(mbr, j)
  }

  lemma OthersUnused(d: Image, i: nat)
    ensures (forall j: nat :: j < 4 && j != i ==> EntryField(d, j, 12, 4, 0)) <==>
            forall j: nat :: j != i ==> !Used(Read(d, 0), j)
  {
    forall j: nat | j < 4
      ensures EntryField(d, j, 12, 4, 0) <==> !Used(Read(d, 0), j)
    {
      EntryIn(d, j, 12, 0);
    }
  }

  lemma TableIs(d: Image, p: Format)
    requires p.partition < 4
    ensures EntryMatches(d, p) <==>
            && p.lba == LbaBegin(Read(d, 0), p.partition) && p.sectors == NumSectors(Read(d, 0), p.partition)
            && Only(Read(d, 0), p.partition)
  {
    OthersUnused(d, p.partition);
    EntryIn(d, p.partition, 12, p.sectors);
    EntryIn(d, p.partition, 8, p.lba);
  }

  /** The fields of the header sector are those of `p`. */
  ghost predicate Describes(vol: Sector, p: Format) {
    && BytesPerSector(vol) == SECTOR_SIZE && p.spc == vol[13] && p.reserved == HalfWord(vol, 14)
    && p.fats == vol[16] && p.spf == WordFrom(vol, 36) && p.root == WordFrom(vol, 44)
  }

  lemma HeaderIs(d: Image, p: Format)
    ensures HeaderMatches(d, p) <==> Describes(Read(d, p.lba), p)
  {
    TwoBytesIn(d, p.lba, 11, 512);
    OneByteIn(d, p.lba, 13, p.spc);
    TwoBytesIn(d, p.lba, 14, p.reserved);
    OneByteIn(d, p.lba, 16, p.fats);
    FourBytesIn(d, p.lba, 36, p.spf);
    FourBytesIn(d, p.lba, 44, p.root);
  }

  lemma SumWraps(a: nat, b: nat)
    ensures (a % WRAP + b) % WRAP == (a + b) % WRAP
  {
  }

  lemma HeaderDescribes(vol: Sector, lba: Word, p: Format)
    requires p.lba == lba && Describes(vol, p)
    ensures HeaderGeometry(vol, lba) == Described(p)
  {
    var a, b := p.lba + p.reserved, p.fats * p.spf;
    assert p.spf * vol[16] == b;
    SumWraps(a, b);
  }

  /** Mounting reads the format back: a card formatted with `p` mounts as the volume `p` describes, and
      has no other outcome. */
  lemma FormatIsRead(d: Image, p: Format, r: Result<Geometry>)
    requires FormattedAs(d, p)
    ensures Mounts(d, r) <==> r == Ok(Described(p))
  {
    TableIs(d, p);
    HeaderIs(d, p);
    HeaderDescribes(Read(d, p.lba), p.lba, p);
    MountsOne(d, p.partition, Described(p));
    if Mounts(d, r) {
      MountsUnique(d, r, Ok(Described(p)));
    }
  }

  ghost predicate NoPartition(d: Image) {
    forall j: nat :: j < 4 ==> EntryField(d, j, 12, 4, 0)
  }

  lemma NoneUsed(d: Image)
    ensures NoPartition(d) <==> forall i :: !Used(Read(d, 0), i)
  {
    OthersUnused(d, 4);
  }

  /** And conversely: a card mounts as `g` only if it has no partition in use or is formatted with some
      parameters that describe `g`. */
  lemma MountedIsFormatted(d: Image, g: Geometry)
    ensures Mounts(d, Ok(g)) <==>
            if NoPartition(d) then g == NO_VOLUME
            else exists p :: FormattedAs(d, p) && g == Described(p)
  {
    NoneUsed(d);
    if NoPartition(d) {
      MountsNone(d);
      if Mounts(d, Ok(g)) {
        MountsUnique(d, Ok(g), Ok(NO_VOLUME));
      }
    } else if exists p :: FormattedAs(d, p) && g == Described(p) {
      var p :| FormattedAs(d, p) && g == Described(p);
      FormatIsRead(d, p, Ok(g));
    } else if Mounts(d, Ok(g)) {
      var p := FormatOf(d, g);
    }
  }

  lemma FormatOf(d: Image, g: Geometry) returns (p: Format)
    requires Mounts(d, Ok(g)) && !NoPartition(d)
    ensures FormattedAs(d, p) && g == Described(p)
  {
    NoneUsed(d);
    var i := UsedPartition(d, g);
    p := FormatAt(d, i);
    HeaderDescribes(Read(d, p.lba), p.lba, p);
  }

  lemma UsedPartition(d: Image, g: Geometry) returns (i: nat)
    requires Mounts(d, Ok(g)) && exists i :: Used(Read(d, 0), i)
    ensures Only(Read(d, 0), i)
    ensures var lba := LbaBegin(Read(d, 0), i);
            BytesPerSector(Read(d, lba)) == SECTOR_SIZE && g == HeaderGeometry(Read(d, lba), lba)
  {
    var mbr := Read(d, 0);
    i :| Used(mbr, i) && (forall j: nat :: j < i ==> !Used(mbr, j)) && Ok(g) == FromPartition(d, i);
  }

  lemma FormatAt(d: Image, i: nat) returns (p: Format)
    requires Only(Read(d, 0), i) && BytesPerSector(Read(d, LbaBegin(Read(d, 0), i))) == SECTOR_SIZE
    ensures FormattedAs(d, p) && p.lba == LbaBegin(Read(d, 0), i) && Describes(Read(d, p.lba), p)
  {
    var mbr := Read(d, 0);
    var vol := Read(d, LbaBegin(mbr, i));
    p := Format(i, LbaBegin(mbr, i), NumSectors(mbr, i), HalfWord(vol, 14), vol[16], WordFrom(vol, 36), vol[13],
                WordFrom(vol, 44));
    TableIs(d, p);
    HeaderIs(d, p);
  }

  // ---- formatting a card ----

  function Digits(x: nat, n: nat): (s: seq<Byte>)
    ensures |s| == n
  {
    if n == 0 then [] else [x % 0x100] + Digits(x / 0x100, n - 1)
  }

  /** Parameters whose fields have room. */
  predicate Encodable(p: Format) {
    && p.partition < 4 && 0 < p.lba < WRAP && 0 < p.sectors < WRAP
    && p.reserved < 0x1_0000 && p.fats < 0x100 && p.spf < WRAP && p.spc < 0x100 && p.root < WRAP
  }

  /** Byte `k` of a field at `at` in which the number `v` was placed, or what was there otherwise. */
  function FieldByte(k: nat, at: nat, n: nat, v: nat, otherwise: Byte): Byte {
    if at <= k < at + n then Digits(v, n)[k - at] else otherwise
  }

  function TableSector(p: Format): Sector {
    var entry := 446 + 16 * p.partition;
    seq(SECTOR_SIZE, k requires 0 <= k < SECTOR_SIZE =>
      FieldByte(k, entry + 8, 4, p.lba, FieldByte(k, entry + 12, 4, p.sectors, 0)))
  }

  function HeaderSector(p: Format): Sector {
    seq(SECTOR_SIZE, k requires 0 <= k < SECTOR_SIZE =>
      FieldByte(k, 11, 2, 512, FieldByte(k, 13, 1, p.spc, FieldByte(k, 14, 2, p.reserved, FieldByte(k, 16, 1, p.fats,
        FieldByte(k, 36, 4, p.spf, FieldByte(k, 44, 4, p.root, 0)))))))
  }

  /** A card formatted with `p`. */
  function Formatted(p: Format): Image
    requires Encodable(p)
  {
    map[0 := TableSector(p), p.lba := HeaderSector(p)]
  }

  function Power(n: nat): nat {
    if n == 0 then 1 else 0x100 * Power(n - 1)
  }

  lemma {:induction false} DigitsNumber(d: Image, lba: nat, at: nat, n: nat, v: nat)
    requires at + n <= SECTOR_SIZE && v < Power(n) && Read(d, lba)[at..at + n] == Digits(v, n)
    ensures Number(d, SECTOR_SIZE * lba + at, n) == v
    decreases n
  {
    if n > 0 {
      FirstDigit(Read(d, lba), at, n, v);
      ByteIn(d, lba, at);
      DigitsNumber(d, lba, at + 1, n - 1, v / 0x100);
    }
  }

  lemma FirstDigit(s: Sector, at: nat, n: nat, v: nat)
    requires n > 0 && at + n <= SECTOR_SIZE && s[at..at + n] == Digits(v, n)
    ensures s[at] == v % 0x100 && s[at + 1..at + 1 + (n - 1)] == Digits(v / 0x100, n - 1)
  {
    assert s[at..at + n][0] == s[at] && s[at..at + n][1..] == s[at + 1..at + n];
  }

  lemma DigitsField(d: Image, lba: nat, at: nat, n: nat, v: nat)
    requires at + n <= SECTOR_SIZE && v < Power(n)
    requires forall k :: at <= k < at + n ==> Read(d, lba)[k] == FieldByte(k, at, n, v, 0)
    ensures HeaderField(d, lba, at, n, v)
  {
    var s := Read(d, lba)[at..at + n];
    forall k | 0 <= k < n
      ensures s[k] == Digits(v, n)[k]
    {
      assert Read(d, lba)[at + k] == FieldByte(at + k, at, n, v, 0);
    }
    assert s == Digits(v, n);
    DigitsNumber(d, lba, at, n, v);
  }

  lemma Powers()
    ensures Power(1) == 0x100 && Power(2) == 0x1_0000 && Power(4) == WRAP
  {
    assert Power(3) == 0x100_0000;
  }

  lemma HeaderPlaced(p: Format)
    requires Encodable(p)
    ensures HeaderMatches(Formatted(p), p)
  {
    var d := Formatted(p);
    Powers();
    assert Read(d, p.lba) == HeaderSector(p);
    DigitsField(d, p.lba, 11, 2, 512);
    DigitsField(d, p.lba, 13, 1, p.spc);
    DigitsField(d, p.lba, 14, 2, p.reserved);
    DigitsField(d, p.lba, 16, 1, p.fats);
    DigitsField(d, p.lba, 36, 4, p.spf);
    DigitsField(d, p.lba, 44, 4, p.root);
  }

  lemma EntryBytes(p: Format, at: nat, v: nat, i: nat, k: nat)
    requires p.partition < 4 && i == 446 + 16 * p.partition + at && i <= k < i + 4
    requires (at == 8 && v == p.lba) || (at == 12 && v == p.sectors)
    ensures TableSector(p)[k] == FieldByte(k, i, 4, v, 0)
  {
  }

  lemma EntryPlaced(p: Format, at: nat, v: nat)
    requires Encodable(p) && ((at == 8 && v == p.lba) || (at == 12 && v == p.sectors))
    ensures EntryField(Formatted(p), p.partition, at, 4, v)
  {
    EntryPlacedAt(p, at, v, 446 + 16 * p.partition + at);
  }

  lemma EntryPlacedAt(p: Format, at: nat, v: nat, i: nat)
    requires Encodable(p) && ((at == 8 && v == p.lba) || (at == 12 && v == p.sectors))
    requires i == 446 + 16 * p.partition + at
    ensures Field(Formatted(p), i, 4, v)
  {
    var d := Formatted(p);
    forall k | i <= k < i + 4
      ensures Read(d, 0)[k] == FieldByte(k, i, 4, v, 0)
    {
      EntryBytes(p, at, v, i, k);
    }
    FieldPlaced(d, i, v);
  }

  lemma FieldPlaced(d: Image, i: nat, v: nat)
    requires i + 4 <= SECTOR_SIZE && v < WRAP
    requires forall k :: i <= k < i + 4 ==> Read(d, 0)[k] == FieldByte(k, i, 4, v, 0)
    ensures Field(d, i, 4, v)
  {
    Powers();
    DigitsField(d, 0, i, 4, v);
  }

  lemma OthersEmpty(p: Format, j: nat)
    requires Encodable(p) && j < 4 && j != p.partition
    ensures EntryField(Formatted(p), j, 12, 4, 0)
  {
    var d := Formatted(p);
    assert Read(d, 0) == TableSector(p);
    EntryIn(d, j, 12, 0);
  }

  /** Formatting, then mounting: whatever parameters a card was formatted with, in whichever partition,
      mounting it finds the volume they describe. */
  lemma FormatThenMount(p: Format, r: Result<Geometry>)
    requires Encodable(p)
    ensures Mounts(Formatted(p), r) <==> r == Ok(Described(p))
  {
    EntryPlaced(p, 8, p.lba);
    EntryPlaced(p, 12, p.sectors);
    forall j: nat | j < 4 && j != p.partition
      ensures EntryField(Formatted(p), j, 12, 4, 0)
    {
      OthersEmpty(p, j);
    }
    HeaderPlaced(p);
    FormatIsRead(Formatted(p), p, r);
  }

  // ---- the FATs and the data area ----

  /** No data or directory sector lies in any copy of the FAT; the header's byte 16 counts them. */
  lemma DataBehindEveryFat(g: Geometry, d: Image, n: nat, c: nat, s: nat)
    requires Sane(g) && Mounted(g, d) && IsCluster(g, c) && s < g.spc
    requires n == ByteAt(d, 512 * g.partBegin + 16) as nat && g.fatBegin + n * g.spf < WRAP
    ensures g.fatBegin + n * g.spf <= SectorLba(g, c, s)
  {
    var p := FormatOfVolume(g, d, n);
    BehindFats(p);
    AddressAtOrAbove(g, c, s);
  }

  lemma FormatOfVolume(g: Geometry, d: Image, n: nat) returns (p: Format)
    requires 0 < g.partBegin && Mounted(g, d) && n == ByteAt(d, 512 * g.partBegin + 16) as nat
    ensures FormattedAs(d, p) && g == Described(p) && n == p.fats
  {
    MountedMounts(g, d);
    SomePartition(g, d);
    p := FormatOf(d, g);
    FatCount(d, p, g, n);
  }

  lemma SomePartition(g: Geometry, d: Image)
    requires 0 < g.partBegin && Mounts(d, Ok(g))
    ensures !NoPartition(d)
  {
    if NoPartition(d) {
      NoneUsed(d);
      MountsNone(d);
      MountsUnique(d, Ok(g), Ok(NO_VOLUME));
    }
  }

  lemma FatCount(d: Image, p: Format, g: Geometry, n: nat)
    requires HeaderMatches(d, p) && g == Described(p) && n == ByteAt(d, 512 * g.partBegin + 16) as nat
    ensures n == p.fats
  {
    OneByteIs(d, p);
  }

  lemma BehindFats(p: Format)
    requires Described(p).fatBegin + p.fats * p.spf < WRAP
    ensures Described(p).clusterBegin == Described(p).fatBegin + p.fats * p.spf
  {
    var b := p.fats * p.spf;
    SumWraps(p.lba + p.reserved, b);
    NoWrap((p.lba + p.reserved) % WRAP + b);
  }

  lemma AddressAtOrAbove(g: Geometry, c: nat, s: nat)
    requires Sane(g) && IsCluster(g, c) && s < g.spc
    ensures g.clusterBegin <= SectorLba(g, c, s)
  {
    AddressRange(g, c, s);
  }

  lemma OneByteIs(d: Image, p: Format)
    requires HeaderMatches(d, p)
    ensures ByteAt(d, 512 * p.lba + 16) == p.fats
  {
    OneByteIn(d, p.lba, 16, p.fats);
    ByteIn(d, p.lba, 16);
  }

  /** Entry `k` of the FAT is the number in the four bytes at offset 4 * k of the FAT area. */
  lemma FatInBytes(g: Geometry, d: Image, k: nat)
    requires k < Entries(g)
    ensures FatOf(g, d)[k] == Number(d, 512 * g.fatBegin + 4 * k, 4)
  {
    FatEntry(g, d, k);
    EntryBytesIn(g, d, k, 512 * g.fatBegin + 4 * k);
  }

  lemma EntryBytesIn(g: Geometry, d: Image, k: nat, x: nat)
    requires x == 512 * g.fatBegin + 4 * k
    ensures Entry(g, d, k) as nat == Number(d, x, 4)
  {
    var i, j := k / WORDS_PER_SECTOR, k % WORDS_PER_SECTOR;
    FourBytesIn(d, g.fatBegin + i, 4 * j, Entry(g, d, k));
    assert 512 * (g.fatBegin + i) + 4 * j == x;
    FieldIs(d, x, 4, Entry(g, d, k));
  }

  lemma FieldIs(d: Image, x: nat, n: nat, v: nat)
    requires Field(d, x, n, v)
    ensures v == Number(d, x, n)
  {
    assert Show(0);
  }

  // ---- the directory ----

  /** The directory's slots are the 32-byte records of its clusters' sectors in order: slot `j` of sector
      `s` of its `i`-th cluster, whose first sector is the directory's `n`-th, byte by byte.
      Volume.AddressRange says where that sector is. */
  lemma SlotInBytes(g: Geometry, d: Image, root: seq<nat>, i: nat, s: nat, n: nat, j: nat, b: nat)
    requires i < |root| && s < g.spc && StartsAt(g, i, n) && j < 16 && b < 32
    ensures var t := 16 * (n + s) + j;
            && t < |RootSlots(g, d, root)|
            && RootSlots(g, d, root)[t][b] == ByteAt(d, 512 * SectorLba(g, root[i], s) + (32 * j + b))
  {
    ScannedSector(g, d, root, i, s, n);
    var sector := Read(d, SectorLba(g, root[i], s));
    SlotOfSector(RootSlots(g, d, root), n + s, sector, j);
    ByteIn(d, SectorLba(g, root[i], s), 32 * j + b);
  }

  lemma SlotOfSector(u: seq<Slot>, m: nat, sector: Sector, j: nat)
    requires SLOTS * m + SLOTS <= |u| && DecodeSlots(sector) == SectorSlots(u, m) && j < SLOTS
    ensures u[SLOTS * m + j] == sector[32 * j..32 * j + 32]
  {
    assert SectorSlots(u, m)[j] == DecodeSlots(sector)[j] == SlotAt(sector, j);
  }
}
