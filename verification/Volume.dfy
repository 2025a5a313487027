/** Where a FAT32 volume keeps its FAT and its clusters, as fat32_init reads it from the card
    (pi-src/fat32.c and the packed structures of pi-src/fat32.h). */
module Volume {
  import opened Bytes
  import opened Card

  datatype Geometry = Geometry(
    partBegin: nat, fatBegin: nat, clusterBegin: nat, spc: nat, root: nat, spf: nat)

  datatype Result<T> = Ok(value: T) | Panic(reason: Reason)

  datatype Reason = TwoPartitions | SectorSizeMismatch

  const WORDS_PER_SECTOR := 128

  /** Number of 32-bit entries in the FAT. */
  function Entries(g: Geometry): nat {
    WORDS_PER_SECTOR * g.spf
  }

  /** The volumes on which cluster and sector arithmetic does not wrap and no address collides:
      cluster numbers fit in 28 bits below the end mark, the root directory starts at cluster 2,
      and partition header, FAT and data follow one another. */
  ghost predicate Sane(g: Geometry) {
    && 0 < g.partBegin < g.fatBegin
    && 0 < g.spf && Entries(g) <= 0x0FFF_FFFF
    && g.fatBegin + g.spf <= g.clusterBegin
    && 0 < g.spc && g.root == 2
    && forall k: nat {:trigger Show(k)} :: Show(k) && k + 2 == Entries(g) ==>
                                             g.clusterBegin + k * g.spc <= WRAP
  }

  // ---- cluster addresses ----

  /** `cluster_no_to_lba`, in 32-bit arithmetic. */
  function ClusterLba(g: Geometry, c: nat): Word {
    (g.clusterBegin + (c - g.root) * g.spc) % WRAP
  }

  ghost predicate IsSectorLba(g: Geometry, c: nat, s: nat, lba: nat) {
    forall k: nat {:trigger Show(k)} :: Show(k) && k == s ==> lba == ClusterLba(g, c) + k
  }

  /** The address of sector `s` of cluster `c`: `cluster_no_to_lba(c) + s`. */
  ghost function SectorLba(g: Geometry, c: nat, s: nat): (lba: nat)
    ensures IsSectorLba(g, c, s, lba)
  {
    assert IsSectorLba(g, c, s, ClusterLba(g, c) + s);
    var lba :| IsSectorLba(g, c, s, lba);
    lba
  }

  lemma SectorLbaIs(g: Geometry, c: nat, s: nat)
    ensures SectorLba(g, c, s) == ClusterLba(g, c) + s
  {
    assert Show(s);
  }

  predicate InFat(g: Geometry, lba: nat) {
    g.fatBegin <= lba < g.fatBegin + g.spf
  }

  predicate IsCluster(g: Geometry, c: nat) {
    2 <= c < Entries(g)
  }

  lemma Product(a: nat, b: nat, k: nat)
    requires a <= b
    ensures a * k <= b * k
  {
  }

  lemma NextProduct(a: nat, k: nat)
    ensures (a + 1) * k == a * k + k && 0 <= a * k
  {
  }

  lemma NoWrap(x: nat)
    requires x < WRAP
    ensures x % WRAP == x
  {
  }

  /** On a sane volume no cluster address wraps, and every data sector lies past the FAT. */
  lemma AddressRange(g: Geometry, c: nat, s: nat)
    requires Sane(g) && IsCluster(g, c) && s < g.spc
    ensures SectorLba(g, c, s) == g.clusterBegin + (c - 2) * g.spc + s
    ensures g.clusterBegin <= SectorLba(g, c, s) < WRAP
    ensures !InFat(g, SectorLba(g, c, s))
  {
    var n := Entries(g) - 2;
    assert Show(n);
    Product(c - 1, n, g.spc);
    NextProduct(c - 2, g.spc);
    NoWrap(g.clusterBegin + (c - 2) * g.spc);
    SectorLbaIs(g, c, s);
  }

  lemma Separate(a: nat, b: nat, k: nat, s: nat, t: nat)
    requires a < b && s < k
    ensures a * k + s < b * k + t
  {
    Product(a + 1, b, k);
    assert (a + 1) * k == a * k + k;
  }

  /** Distinct (cluster, sector) pairs have distinct addresses. */
  lemma AddressInjective(g: Geometry, c: nat, s: nat, c': nat, s': nat)
    requires Sane(g) && IsCluster(g, c) && IsCluster(g, c') && s < g.spc && s' < g.spc
    requires c != c' || s != s'
    ensures SectorLba(g, c, s) != SectorLba(g, c', s')
  {
    AddressRange(g, c, s);
    AddressRange(g, c', s');
    if c < c' {
      Separate(c - 2, c' - 2, g.spc, s, s');
    } else if c' < c {
      Separate(c' - 2, c - 2, g.spc, s', s);
    }
  }

  // ---- the FAT on the card ----

  type Fat = seq<Word>

  /** Entry `k` of the first FAT on the card. */
  function Entry(g: Geometry, d: Image, k: nat): Word {
    WordAt(Read(d, g.fatBegin + k / WORDS_PER_SECTOR), k % WORDS_PER_SECTOR)
  }

  ghost predicate IsFatOf(g: Geometry, d: Image, f: Fat) {
    |f| == Entries(g) && forall k: nat {:trigger Show(k)} :: Show(k) && k < |f| ==> f[k] == Entry(g, d, k)
  }

  /** The first FAT as it stands on the card. */
  ghost function FatOf(g: Geometry, d: Image): (f: Fat)
    ensures IsFatOf(g, d, f)
    ensures |f| == Entries(g)
  {
    var w := seq(Entries(g), k requires 0 <= k < Entries(g) => Entry(g, d, k));
    assert IsFatOf(g, d, w);
    var f :| IsFatOf(g, d, f);
    f
  }

  lemma FatEntry(g: Geometry, d: Image, k: nat)
    requires k < Entries(g)
    ensures FatOf(g, d)[k] == Entry(g, d, k)
  {
    assert Show(k);
  }

  /** The 128 words of sector `i` of a FAT in memory. */
  function Slice(f: Fat, i: nat): (ws: seq<Word>)
    requires WORDS_PER_SECTOR * i + WORDS_PER_SECTOR <= |f|
    ensures |ws| == WORDS_PER_SECTOR
  {
    f[WORDS_PER_SECTOR * i..WORDS_PER_SECTOR * i + WORDS_PER_SECTOR]
  }

  lemma SectorOf(g: Geometry, c: nat)
    requires c < Entries(g)
    ensures c / WORDS_PER_SECTOR < g.spf
    ensures WORDS_PER_SECTOR * (c / WORDS_PER_SECTOR) + WORDS_PER_SECTOR <= Entries(g)
  {
  }

  lemma EntryIs(g: Geometry, d: Image, k: nat, i: nat, j: nat)
    requires k == WORDS_PER_SECTOR * i + j && j < WORDS_PER_SECTOR
    ensures Entry(g, d, k) == WordAt(Read(d, g.fatBegin + i), j)
    ensures k / WORDS_PER_SECTOR == i
  {
    assert k / WORDS_PER_SECTOR == i && k % WORDS_PER_SECTOR == j;
  }

  /** The sector holds these words. */
  ghost predicate HoldsWords(s: Sector, ws: seq<Word>) {
    |ws| == WORDS_PER_SECTOR && forall j :: 0 <= j < WORDS_PER_SECTOR ==> WordAt(s, j) == ws[j]
  }

  lemma EncodedHolds(ws: seq<Word>)
    requires |ws| == WORDS_PER_SECTOR
    ensures HoldsWords(EncodeWords(ws), ws)
  {
    forall j | 0 <= j < WORDS_PER_SECTOR
      ensures WordAt(EncodeWords(ws), j) == ws[j]
    {
      EncodedWord(ws, EncodeWords(ws), j);
    }
  }

  lemma FlushedEntry(g: Geometry, d: Image, f: Fat, i: nat, s: Sector, j: nat)
    requires |f| == Entries(g) && i < g.spf && j < WORDS_PER_SECTOR && HoldsWords(s, Slice(f, i))
    ensures Entry(g, d[g.fatBegin + i := s], WORDS_PER_SECTOR * i + j) == f[WORDS_PER_SECTOR * i + j]
  {
    EntryIs(g, d[g.fatBegin + i := s], WORDS_PER_SECTOR * i + j, i, j);
    assert WordAt(s, j) == Slice(f, i)[j];
  }

  /** Flushing the one sector in which the card's FAT differs from `f` makes the card's FAT `f`. */
  lemma FlushSector(g: Geometry, d: Image, f: Fat, i: nat, s: Sector)
    requires |f| == Entries(g) && i < g.spf && HoldsWords(s, Slice(f, i))
    requires forall k :: 0 <= k < Entries(g) && k / WORDS_PER_SECTOR != i ==> FatOf(g, d)[k] == f[k]
    ensures FatOf(g, d[g.fatBegin + i := s]) == f
  {
    var d' := d[g.fatBegin + i := s];
    var f' := FatOf(g, d');
    forall k | 0 <= k < Entries(g)
      ensures f'[k] == f[k]
    {
      FatEntry(g, d', k);
      FatEntry(g, d, k);
      if k / WORDS_PER_SECTOR == i {
        FlushedEntry(g, d, f, i, s, k % WORDS_PER_SECTOR);
      } else {
        SameEntry(g, d, d', k);
      }
    }
  }

  lemma SameEntry(g: Geometry, d: Image, d': Image, k: nat)
    requires Read(d, g.fatBegin + k / WORDS_PER_SECTOR) == Read(d', g.fatBegin + k / WORDS_PER_SECTOR)
    ensures Entry(g, d, k) == Entry(g, d', k)
  {
  }

  lemma SliceOfFat(g: Geometry, d: Image, i: nat, j: nat)
    requires i < g.spf && j < WORDS_PER_SECTOR
    ensures Slice(FatOf(g, d), i)[j] == WordAt(Read(d, g.fatBegin + i), j)
  {
    var k := WORDS_PER_SECTOR * i + j;
    FatEntry(g, d, k);
    EntryIs(g, d, k, i, j);
  }

  /** Each sector of the card's FAT is exactly its 128-word slice. */
  lemma MirrorBytes(g: Geometry, d: Image, i: nat)
    requires i < g.spf
    ensures Read(d, g.fatBegin + i) == EncodeWords(Slice(FatOf(g, d), i))
  {
    var s, ws := Read(d, g.fatBegin + i), Slice(FatOf(g, d), i);
    assert ws == DecodeWords(s) by {
      forall j | 0 <= j < WORDS_PER_SECTOR
        ensures ws[j] == DecodeWords(s)[j]
      {
        SliceOfFat(g, d, i, j);
      }
    }
    SectorRoundTrip(s);
  }

  lemma FatUntouched(g: Geometry, d: Image, lba: nat, s: Sector)
    requires !InFat(g, lba)
    ensures FatOf(g, d[lba := s]) == FatOf(g, d)
  {
    var d' := d[lba := s];
    forall k | 0 <= k < Entries(g)
      ensures FatOf(g, d')[k] == FatOf(g, d)[k]
    {
      FatEntry(g, d', k);
      FatEntry(g, d, k);
      assert InFat(g, g.fatBegin + k / WORDS_PER_SECTOR);
      SameEntry(g, d, d', k);
    }
  }

  // ---- reading the partition table and the volume header ----

  function HalfWord(s: Sector, at: nat): nat
    requires at + 2 <= SECTOR_SIZE
  {
    s[at] as int + 0x100 * (s[at + 1] as int)
  }

  function WordFrom(s: Sector, at: nat): Word
    requires at + 4 <= SECTOR_SIZE
  {
    Le(s[at], s[at + 1], s[at + 2], s[at + 3])
  }

  function LbaBegin(mbr: Sector, i: nat): Word
    requires i < 4
  {
    WordFrom(mbr, 446 + 16 * i + 8)
  }

  function NumSectors(mbr: Sector, i: nat): Word
    requires i < 4
  {
    WordFrom(mbr, 446 + 16 * i + 12)
  }

  function BytesPerSector(vol: Sector): nat {
    HalfWord(vol, 11)
  }

  /** The geometry computed from a volume header found at `lba`, in 32-bit arithmetic. */
  function HeaderGeometry(vol: Sector, lba: Word): Geometry {
    var fatBegin := (lba + HalfWord(vol, 14)) % WRAP;
    var spf := WordFrom(vol, 36);
    Geometry(lba, fatBegin, (fatBegin + spf * vol[16]) % WRAP, vol[13], WordFrom(vol, 44), spf)
  }

  /** The header at `lba` is usable and describes `g`. */
  ghost predicate HeaderAt(d: Image, lba: Word, g: Geometry) {
    BytesPerSector(Read(d, lba)) == SECTOR_SIZE && g == HeaderGeometry(Read(d, lba), lba)
  }

  const NO_VOLUME := Geometry(0, 0, 0, 0, 0, 0)

  predicate Used(mbr: Sector, i: nat) {
    i < 4 && NumSectors(mbr, i) != 0
  }

  /** What mounting a card means: its only used partition decides, if its sectors have 512
      bytes. */
  ghost predicate Mounts(d: Image, r: Result<Geometry>) {
    var mbr := Read(d, 0);
    if forall i :: !Used(mbr, i) then r == Ok(NO_VOLUME)
    else exists i :: Used(mbr, i) && (forall j: nat :: j < i ==> !Used(mbr, j)) && r == FromPartition(d, i)
  }

  /** The outcome when partition `i` is the first in use. */
  ghost function FromPartition(d: Image, i: nat): Result<Geometry>
    requires Used(Read(d, 0), i)
  {
    var mbr := Read(d, 0);
    var vol := Read(d, LbaBegin(mbr, i));
    if BytesPerSector(vol) != SECTOR_SIZE then Panic(SectorSizeMismatch)
    else if exists j: nat :: i < j && Used(mbr, j) then Panic(TwoPartitions)
    else Ok(HeaderGeometry(vol, LbaBegin(mbr, i)))
  }

  lemma MountsNone(d: Image)
    requires forall i :: !Used(Read(d, 0), i)
    ensures Mounts(d, Ok(NO_VOLUME))
  {
  }

  lemma MountsFirst(d: Image, i: nat, r: Result<Geometry>)
    requires Used(Read(d, 0), i) && forall j: nat :: j < i ==> !Used(Read(d, 0), j)
    requires r == FromPartition(d, i)
    ensures Mounts(d, r)
  {
  }

  lemma MountsTwo(d: Image, i: nat, j: nat, g: Geometry)
    requires Used(Read(d, 0), i) && forall k: nat :: k < i ==> !Used(Read(d, 0), k)
    requires i < j && Used(Read(d, 0), j) && HeaderAt(d, LbaBegin(Read(d, 0), i), g)
    ensures Mounts(d, Panic(TwoPartitions))
  {
    MountsFirst(d, i, Panic(TwoPartitions));
  }

  lemma MountsOne(d: Image, i: nat, g: Geometry)
    requires Used(Read(d, 0), i) && forall k: nat :: k != i ==> !Used(Read(d, 0), k)
    requires HeaderAt(d, LbaBegin(Read(d, 0), i), g)
    ensures Mounts(d, Ok(g))
  {
    MountsFirst(d, i, Ok(g));
  }

  lemma MountsBad(d: Image, i: nat)
    requires Used(Read(d, 0), i) && forall k: nat :: k < i ==> !Used(Read(d, 0), k)
    requires BytesPerSector(Read(d, LbaBegin(Read(d, 0), i))) != SECTOR_SIZE
    ensures Mounts(d, Panic(SectorSizeMismatch))
  {
    MountsFirst(d, i, Panic(SectorSizeMismatch));
  }

  /** A card has one outcome. */
  lemma MountsUnique(d: Image, r: Result<Geometry>, r': Result<Geometry>)
    requires Mounts(d, r) && Mounts(d, r')
    ensures r == r'
  {
    var mbr := Read(d, 0);
    if exists i :: Used(mbr, i) {
      var i :| Used(mbr, i) && (forall j: nat :: j < i ==> !Used(mbr, j)) && r == FromPartition(d, i);
      var j :| Used(mbr, j) && (forall k: nat :: k < j ==> !Used(mbr, k)) && r' == FromPartition(d, j);
      assert i == j;
    }
  }

  /** Mounting the card succeeds with this geometry. */
  ghost predicate Mounted(g: Geometry, d: Image) {
    forall k: nat {:trigger Show(k)} :: Show(k) ==> Mounts(d, Ok(g))
  }

  lemma MountedMounts(g: Geometry, d: Image)
    ensures Mounted(g, d) <==> Mounts(d, Ok(g))
  {
    assert Show(0);
  }

  /** Mounting reads only the partition table and the volume header. */
  lemma MountKept(d: Image, d': Image, g: Geometry)
    requires Mounted(g, d) && Read(d', 0) == Read(d, 0) && Read(d', g.partBegin) == Read(d, g.partBegin)
    ensures Mounted(g, d')
  {
    MountedMounts(g, d);
    var mbr := Read(d, 0);
    if exists i :: Used(mbr, i) {
      var i :| Used(mbr, i) && (forall j: nat :: j < i ==> !Used(mbr, j)) && Ok(g) == FromPartition(d, i);
      assert g.partBegin == LbaBegin(mbr, i);
      assert FromPartition(d', i) == Ok(g);
    }
  }
}
