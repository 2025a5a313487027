/** The FAT32 driver of pi-src/fat32.c: an in-memory copy of the FAT, flushed sector by sector as
    it changes, and the root directory on the card. */
module Fat32Driver {
  import opened Bytes
  import opened Card
  import opened CString
  import opened Volume
  import opened Chains
  import opened Directory
  import opened DirectoryBytes
  import opened Effects

  class Fat32 {
    const disk: SdCard
    const g: Geometry
    const FAT: array<Word>

    /** The in-memory FAT is the FAT on the card, so mounting the card again would rebuild exactly
        this object. */
    ghost predicate Valid()
      reads FAT, disk
    {
      && Sane(g)
      && FAT.Length == Entries(g)
      && FAT[..] == FatOf(g, disk.sectors)
      && Mounted(g, disk.sectors)
    }

    /** The tail of `fat32_init`: read the FAT into memory, one sector at a time. */
    constructor Load(disk: SdCard, g: Geometry)
      ensures this.disk == disk && this.g == g
      ensures fresh(FAT) && FAT[..] == FatOf(g, disk.sectors)
    {
      this.disk := disk;
      this.g := g;
      FAT := new Word[WORDS_PER_SECTOR * g.spf];
      new;
      var i := 0;
      while i < g.spf
        invariant i <= g.spf
        invariant forall k :: 0 <= k < WORDS_PER_SECTOR * i ==> FAT[k] == FatOf(g, disk.sectors)[k]
      {
        var s := disk.ReadSector(g.fatBegin + i);
        LoadSector(i, s);
        i := i + 1;
      }
    }

    method LoadSector(i: nat, s: Sector)
      requires i < g.spf && FAT.Length == Entries(g) && s == Read(disk.sectors, g.fatBegin + i)
      modifies FAT
      ensures forall k :: 0 <= k < WORDS_PER_SECTOR * i ==> FAT[k] == old(FAT[k])
      ensures forall k :: WORDS_PER_SECTOR * i <= k < WORDS_PER_SECTOR * (i + 1) ==>
                            FAT[k] == FatOf(g, disk.sectors)[k]
    {
      var j := 0;
      while j < WORDS_PER_SECTOR
        invariant j <= WORDS_PER_SECTOR
        invariant forall k :: 0 <= k < WORDS_PER_SECTOR * i ==> FAT[k] == old(FAT[k])
        invariant forall k :: WORDS_PER_SECTOR * i <= k < WORDS_PER_SECTOR * i + j ==>
                                FAT[k] == FatOf(g, disk.sectors)[k]
      {
        FatEntry(g, disk.sectors, WORDS_PER_SECTOR * i + j);
        FAT[WORDS_PER_SECTOR * i + j] := WordAt(s, j);
        assert (WORDS_PER_SECTOR * i + j) / WORDS_PER_SECTOR == i;
        j := j + 1;
      }
    }

    /** `fat32_init`: find the one partition in use, read its header, load its FAT. */
    static method Init(disk: SdCard) returns (r: Result<Fat32>)
      ensures r.Panic? ==> Mounts(disk.sectors, Panic(r.reason))
      ensures r.Ok? ==> Mounts(disk.sectors, Ok(r.value.g)) && r.value.disk == disk
      ensures r.Ok? ==> fresh(r.value) && fresh(r.value.FAT)
      ensures r.Ok? ==> r.value.FAT[..] == FatOf(r.value.g, disk.sectors)
      ensures r.Ok? && Sane(r.value.g) ==> r.value.Valid()
    {
      var mounted := FindPartition(disk);
      if mounted.Panic? {
        return Panic(mounted.reason);
      }
      MountedMounts(mounted.value, disk.sectors);
      var fs := new Fat32.Load(disk, mounted.value);
      r := Ok(fs);
    }

    /** Durability: calling `fat32_init` again, after any run of operations, rebuilds exactly the FAT
        held in memory. */
    method Remount() returns (r: Result<Fat32>)
      requires Valid()
      ensures r.Ok? && fresh(r.value) && r.value.disk == disk && r.value.g == g
      ensures r.Ok? && r.value.Valid() && r.value.FAT[..] == FAT[..]
    {
      r := Init(disk);
      MountedMounts(g, disk.sectors);
      MountsUnique(disk.sectors, Ok(g), if r.Ok? then Ok(r.value.g) else Panic(r.reason));
    }

    /** The partition loop of `fat32_init`. */
    static method FindPartition(disk: SdCard) returns (r: Result<Geometry>)
      ensures Mounts(disk.sectors, r)
    {
      var mbr := disk.ReadSector(0);
      var chosen: nat, valid := 0, 0;
      var geometry := NO_VOLUME;
      var i := 0;
      while i < 4
        invariant i <= 4 && valid <= 1
        invariant valid == 0 ==> geometry == NO_VOLUME && forall j: nat :: j < i ==> !Used(mbr, j)
        invariant valid == 1 ==> chosen < i && Used(mbr, chosen)
        invariant valid == 1 ==> forall j: nat :: j < i && j != chosen ==> !Used(mbr, j)
        invariant valid == 1 ==> HeaderAt(disk.sectors, LbaBegin(mbr, chosen), geometry)
      {
        if NumSectors(mbr, i) != 0 {
          valid := valid + 1;
          if valid == 2 {
            MountsTwo(disk.sectors, chosen, i, geometry);
            return Panic(TwoPartitions);
          }
          chosen := i;
          var vol := disk.ReadSector(LbaBegin(mbr, i));
          if BytesPerSector(vol) != SECTOR_SIZE {
            MountsBad(disk.sectors, i);
            return Panic(SectorSizeMismatch);
          }
          geometry := HeaderGeometry(vol, LbaBegin(mbr, i));
        }
        i := i + 1;
      }
      if valid == 0 {
        MountsNone(disk.sectors);
      } else {
        MountsOne(disk.sectors, chosen, geometry);
      }
      r := Ok(geometry);
    }

    method NextCluster(c: nat) returns (next: Word)
      requires Valid() && IsCluster(g, c)
      ensures next == Next(FAT[..], c)
    {
      next := ClusterNo(FAT[c]);
    }

    method FindFreeLocalCluster() returns (out: Word)
      requires Valid()
      ensures out == NOT_FOUND <==> CountFree(FAT[..]) == 0
      ensures out != NOT_FOUND ==> LeastFree(FAT[..], out)
    {
      var p := 2;
      while p != FAT.Length
        invariant 2 <= p <= FAT.Length
        invariant forall x :: 2 <= x < p ==> FAT[x] != 0
        decreases FAT.Length - p
      {
        if FAT[p] == 0 {
          assert p in FreeSet(FAT[..]);
          return p;
        }
        p := p + 1;
      }
      NoneFree(FAT[..]);
      return NOT_FOUND;
    }

    /** Writes FAT sector `i` as it stands in memory. */
    method WriteFatSector(i: nat) returns (ghost buf: Sector)
      requires FAT.Length == Entries(g) && i < g.spf
      modifies disk
      ensures disk.sectors == old(disk.sectors)[g.fatBegin + i := buf] && HoldsWords(buf, Slice(FAT[..], i))
      ensures disk.history == old(disk.history) + [disk.sectors]
    {
      var words := FAT[WORDS_PER_SECTOR * i..WORDS_PER_SECTOR * i + WORDS_PER_SECTOR];
      EncodedHolds(words);
      assert words == Slice(FAT[..], i);
      buf := EncodeWords(words);
      disk.WriteSector(EncodeWords(words), i + g.fatBegin);
    }

    /** Stores one entry and writes the FAT sector that holds it back to the card. */
    method StoreAndFlush(c: nat, v: Word)
      requires Valid() && c < Entries(g)
      modifies FAT, disk
      ensures Valid()
      ensures FAT[..] == old(FAT[..])[c := v]
      ensures disk.history == old(disk.history) + [disk.sectors]
      ensures SameOutsideFat(g, old(disk.sectors), disk.sectors)
    {
      ghost var d, f := disk.sectors, FAT[..];
      FAT[c] := v;
      ghost var f' := FAT[..];
      assert f' == f[c := v];
      SectorOf(g, c);
      ghost var buf := WriteFatSector(c / WORDS_PER_SECTOR);
      assert FAT[..] == f';
      FlushEntry(g, d, f, c, v, buf);
      MountKept(d, disk.sectors, g);
    }

    /** Hands out the least free cluster, marked as the end of a chain; its FAT sector is flushed,
        then its first data sector is blanked. */
    method AllocFreeLocalCluster() returns (out: Word, ghost middle: Image)
      requires Valid() && CountFree(FAT[..]) > 0
      modifies FAT, disk
      ensures Valid()
      ensures LeastFree(old(FAT[..]), out) && FAT[..] == old(FAT[..])[out := END]
      ensures disk.history == old(disk.history) + [middle, disk.sectors]
      ensures FatOf(g, middle) == FAT[..]
      ensures Quiet(g, old(disk.sectors), middle, {}) && Quiet(g, old(disk.sectors), disk.sectors, {})
      ensures OnlyBlanked(g, old(disk.sectors), disk.sectors, [out])
    {
      ghost var d := disk.sectors;
      out := FindFreeLocalCluster();
      StoreAndFlush(ClusterNo(out), END);
      middle := disk.sectors;
      BlankCluster(out, d);
    }

    /** Blanks the first sector of a cluster just marked. */
    method BlankCluster(out: Word, ghost d: Image)
      requires Valid() && LeastFree(FatOf(g, d), out) && FAT[..] == FatOf(g, d)[out := END]
      requires SameOutsideFat(g, d, disk.sectors) && Mounted(g, d)
      modifies disk
      ensures Valid()
      ensures disk.history == old(disk.history) + [disk.sectors]
      ensures Quiet(g, d, old(disk.sectors), {}) && Quiet(g, d, disk.sectors, {})
      ensures OnlyBlanked(g, d, disk.sectors, [out])
    {
      ghost var middle := disk.sectors;
      ClusterNoKeeps(out);
      SectorLbaIs(g, out, 0);
      disk.WriteSector(BLANK, ClusterLba(g, ClusterNo(out)));
      Claim(g, d, middle, disk.sectors, out);
      MountKept(d, disk.sectors, g);
    }

    /** `fat32_point_fat`: link cluster `prev` to `next`. */
    method PointFat(prev: nat, next: Word)
      requires Valid() && IsCluster(g, prev)
      modifies FAT, disk
      ensures Valid()
      ensures FAT[..] == old(FAT[..])[prev := next]
      ensures disk.history == old(disk.history) + [disk.sectors]
      ensures SameOutsideFat(g, old(disk.sectors), disk.sectors)
    {
      StoreAndFlush(prev, next);
    }

    /** `alloc_local_file_at`: fill in the record and hand out the clusters, each linked behind the
        one before. */
    method AllocLocalFileAt(dr: Slot, numClusters: nat, name: seq<Byte>)
      returns (rec: Slot, out: Word, ghost a: seq<nat>, ghost during: seq<Image>)
      requires Valid() && |name| >= 11 && CountFree(FAT[..]) >= Need(numClusters)
      modifies FAT, disk
      ensures Valid()
      ensures rec == FileRecord(dr, name, out)
      ensures Allocates(g, old(disk.sectors), disk.sectors, a, during)
      ensures |a| == (if numClusters == 0 then 1 else numClusters) && out == a[0]
      ensures disk.history == old(disk.history) + during
    {
      ghost var d, h := disk.sectors, disk.history;
      rec := FillName(dr, name);
      ghost var m;
      out, m := AllocFreeLocalCluster();
      during, a := [m, disk.sectors], [out as nat];
      AllocatesFirst(g, d, m, disk.sectors, out);
      rec := SetCluster(dr, rec, name, out);
      var prev, remaining := out, numClusters as int - 1;
      while remaining > 0
        invariant Valid() && Allocates(g, d, disk.sectors, a, during)
        invariant prev == a[|a| - 1] && out == a[0]
        invariant |a| + (if remaining > 0 then remaining else 0) == Need(numClusters)
        invariant disk.history == h + during
      {
        ghost var more;
        AllocatesLeaves(g, d, disk.sectors, a, during);
        prev, more := LinkOneMore(prev, d, a, during);
        a, during := a + [prev as nat], during + more;
        remaining := remaining - 1;
      }
    }

    /** The body of the allocation loop: hand out one cluster and link it behind `prev`. */
    method LinkOneMore(prev: Word, ghost d: Image, ghost a: seq<nat>, ghost during: seq<Image>)
      returns (next: Word, ghost more: seq<Image>)
      requires Valid() && Allocates(g, d, disk.sectors, a, during)
      requires prev == a[|a| - 1] && CountFree(FAT[..]) > 0
      modifies FAT, disk
      ensures Valid() && Allocates(g, d, disk.sectors, a + [next as nat], during + more)
      ensures disk.history == old(disk.history) + more
    {
      ghost var d1, m := disk.sectors, disk.sectors;
      AllocatesLeaves(g, d, d1, a, during);
      next, m := AllocFreeLocalCluster();
      ghost var d2 := disk.sectors;
      ClusterNoKeeps(prev);
      ClusterNoKeeps(next);
      PointFat(ClusterNo(prev), ClusterNo(next));
      AllocatesMore(g, d, d1, m, d2, disk.sectors, a, during, prev, next);
      more := [m, d2, disk.sectors];
    }

    /** The byte loop that copies the 11-byte name into a record. */
    method FillName(dr: Slot, name: seq<Byte>) returns (rec: Slot)
      requires |name| >= 11
      ensures rec == name[..11] + dr[11..]
    {
      rec := dr;
      var j := 0;
      while j < 11
        invariant j <= 11 && rec == name[..j] + dr[j..]
      {
        rec := rec[j := name[j]];
        j := j + 1;
      }
    }

    /** Both halves of the first cluster, low half first, and the attribute byte. */
    method SetCluster(ghost dr: Slot, named: Slot, name: seq<Byte>, c: Word) returns (rec: Slot)
      requires |name| >= 11 && named == name[..11] + dr[11..]
      ensures rec == FileRecord(dr, name, c)
    {
      rec := named[26 := ByteOf(c, 0)][27 := ByteOf(c, 1)];
      rec := rec[20 := ByteOf(c, 2)][21 := ByteOf(c, 3)];
      rec := rec[11 := 0];
    }

    /** The slots of the root directory, whose clusters are `root`. */
    ghost function DirSlots(root: seq<nat>): seq<Slot>
      reads disk
    {
      RootSlots(g, disk.sectors, root)
    }

    /** The record loop of one sector, the `j`-th of the directory. */
    method ScanSector(records: seq<Slot>, ghost root: seq<nat>, ghost j: nat) returns (r: nat)
      requires NoTerminal(DirSlots(root), SLOTS * j) && SLOTS * j + SLOTS <= |DirSlots(root)|
      requires records == SectorSlots(DirSlots(root), j)
      ensures r <= SLOTS
      ensures r < SLOTS ==> Terminal(DirSlots(root)) == SLOTS * j + r
      ensures r == SLOTS ==> NoTerminal(DirSlots(root), SLOTS * j + SLOTS)
    {
      ghost var s := DirSlots(root);
      r := 0;
      while r < SLOTS
        invariant r <= SLOTS
        invariant NoTerminal(s, SLOTS * j + r)
      {
        assert records[r] == s[SLOTS * j + r];
        if IsTerminal(records[r]) {
          TerminalFound(s, SLOTS * j + r);
          return;
        }
        NoTerminalStep(s, SLOTS * j + r);
        r := r + 1;
      }
    }

    /** The buffer holds the last of the first `j` sectors of the directory. */
    ghost predicate LastRead(root: seq<nat>, j: nat, records: seq<Slot>)
      reads disk
    {
      var s := DirSlots(root);
      0 < j && SLOTS * j <= |s| && records == s[SLOTS * j - SLOTS..SLOTS * j]
    }

    lemma LastReadNext(root: seq<nat>, n: nat, records: seq<Slot>)
      requires SLOTS * n + SLOTS <= |DirSlots(root)| && records == SectorSlots(DirSlots(root), n)
      ensures LastRead(root, n + 1, records)
    {
    }

    /** The records of one sector of the directory. */
    method ReadSlots(cur: Word, sectorNo: nat, ghost root: seq<nat>, ghost i: nat, ghost j: nat)
      returns (records: seq<Slot>)
      requires i < |root| && cur == root[i] && sectorNo < g.spc && StartsAt(g, i, j)
      ensures |records| == SLOTS && records == DecodeSlots(Read(disk.sectors, SectorLba(g, cur, sectorNo)))
      ensures SLOTS * (j + sectorNo) + SLOTS <= |DirSlots(root)|
      ensures records == SectorSlots(DirSlots(root), j + sectorNo)
    {
      ScannedSector(g, disk.sectors, root, i, sectorNo, j);
      SectorLbaIs(g, cur, sectorNo);
      var sector := disk.ReadSector(ClusterLba(g, cur) + sectorNo);
      records := DecodeSlots(sector);
    }

    /** The sector loop of one directory cluster, the `i`-th of the chain, whose first sector is
        the `j`-th of the directory. */
    method ScanCluster(cur: Word, ghost root: seq<nat>, ghost i: nat, ghost j: nat)
      returns (found: bool, sectorNo: nat, r: nat, records: seq<Slot>)
      requires g.spc > 0 && i < |root| && cur == root[i] && StartsAt(g, i, j) && NoTerminal(DirSlots(root), SLOTS * j)
      ensures |records| == SLOTS
      ensures found ==> sectorNo < g.spc && r < SLOTS
      ensures found ==> records == DecodeSlots(Read(disk.sectors, SectorLba(g, cur, sectorNo)))
      ensures found ==> Terminal(DirSlots(root)) == SLOTS * (j + sectorNo) + r < |DirSlots(root)|
      ensures !found ==> NoTerminal(DirSlots(root), SLOTS * (j + g.spc)) && LastRead(root, j + g.spc, records)
    {
      sectorNo, r, records := 0, 0, DecodeSlots(BLANK);
      while sectorNo < g.spc
        invariant sectorNo <= g.spc && |records| == SLOTS
        invariant NoTerminal(DirSlots(root), SLOTS * (j + sectorNo))
        invariant sectorNo > 0 ==> LastRead(root, j + sectorNo, records)
      {
        records := ReadSlots(cur, sectorNo, root, i, j);
        r := ScanSector(records, root, j + sectorNo);
        if r < SLOTS {
          found := true;
          return;
        }
        LastReadNext(root, j + sectorNo, records);
        sectorNo := sectorNo + 1;
      }
      found := false;
    }

    /** The cluster loop of `fat32_alloc_local_file`: where the terminal is, or the last cluster
        and the last sector when there is none. */
    method ScanRoot(ghost root: seq<nat>)
      returns (found: bool, cur: Word, sectorNo: nat, r: nat, records: seq<Slot>, ghost i: nat, ghost j: nat)
      requires Valid() && RootChain(g, disk.sectors, root)
      ensures |records| == SLOTS
      ensures found ==> i < |root| && cur == root[i] && sectorNo < g.spc && r < SLOTS
      ensures found ==> records == DecodeSlots(Read(disk.sectors, SectorLba(g, cur, sectorNo)))
      ensures found ==> StartsAt(g, i, j) && Terminal(DirSlots(root)) == SLOTS * (j + sectorNo) + r < |DirSlots(root)|
      ensures !found ==> cur == root[|root| - 1] && Terminal(DirSlots(root)) == |DirSlots(root)|
      ensures !found ==> SLOTS <= |DirSlots(root)| && records == DirSlots(root)[|DirSlots(root)| - SLOTS..]
    {
      var prev: Word := g.root;
      cur, sectorNo, r, records, i, j := g.root, 0, 0, DecodeSlots(BLANK), 0, 0;
      StartsFirst(g);
      while cur != END
        invariant i <= |root| && StartsAt(g, i, j) && cur == if i < |root| then root[i] as Word else END
        invariant NoTerminal(DirSlots(root), SLOTS * j) && |records| == SLOTS
        invariant i > 0 ==> prev == root[i - 1] && LastRead(root, j, records)
        decreases |root| - i
      {
        found, sectorNo, r, records := ScanCluster(cur, root, i, j);
        if found {
          return;
        }
        prev := cur;
        RootNext(g, disk.sectors, root, i);
        cur := NextCluster(cur);
        StartsNext(g, i, j);
        i, j := i + 1, j + g.spc;
      }
      found, cur := false, prev;
      ScanEnd(root, j, records);
    }

    /** A scan that passed all clusters saw no terminal, and its buffer holds the last sector. */
    lemma ScanEnd(root: seq<nat>, j: nat, records: seq<Slot>)
      requires StartsAt(g, |root|, j) && NoTerminal(DirSlots(root), SLOTS * j) && LastRead(root, j, records)
      ensures Terminal(DirSlots(root)) == |DirSlots(root)| >= SLOTS
      ensures records == DirSlots(root)[|DirSlots(root)| - SLOTS..]
    {
      StartsEnd(g, disk.sectors, root, j);
      TerminalFound(DirSlots(root), |DirSlots(root)|);
    }

    /** `fat32_alloc_local_file`: scan the root directory for its terminal; insert the record there,
        or behind a new cluster when the chain ends without one. */
    method AllocLocalFile(numClusters: nat, name: seq<Byte>, ghost root: seq<nat>)
      returns (out: Word, ghost e: Creation)
      requires Valid() && |name| >= 11 && RootChain(g, disk.sectors, root)
      requires CountFree(FAT[..]) >= Need(numClusters) + if Terminal(DirSlots(root)) == |DirSlots(root)| then 1 else 0
      modifies FAT, disk
      ensures Valid() && Creates(g, old(disk.sectors), e)
      ensures e.root == root && e.n == numClusters && e.name == name && e.out == out
      ensures disk.history == old(disk.history) + Images(e) && disk.sectors == Final(e)
    {
      var found, cur, sectorNo, r, records;
      ghost var i, j;
      found, cur, sectorNo, r, records, i, j := ScanRoot(root);
      if found {
        out, e := InsertRecord(cur, sectorNo, records, r, numClusters, name, root, i, j);
      } else {
        out, e := ExtendRoot(cur, records, numClusters, name, root);
      }
    }

    /** The terminal is slot `r` of sector `sectorNo` of cluster `cur`, the `i`-th of the root
        directory: put the record there and the terminal after it. */
    method InsertRecord(cur: Word, sectorNo: nat, buffer: seq<Slot>, r: nat, numClusters: nat,
                        name: seq<Byte>, ghost root: seq<nat>, ghost i: nat, ghost j: nat)
      returns (out: Word, ghost e: Creation)
      requires Valid() && |name| >= 11 && RootChain(g, disk.sectors, root)
      requires i < |root| && cur == root[i] && sectorNo < g.spc && r < SLOTS
      requires buffer == DecodeSlots(Read(disk.sectors, SectorLba(g, cur, sectorNo)))
      requires StartsAt(g, i, j) && Terminal(DirSlots(root)) == SLOTS * (j + sectorNo) + r
      requires CountFree(FAT[..]) >= Need(numClusters)
      modifies FAT, disk
      ensures Valid() && InPlace(g, old(disk.sectors), e)
      ensures e.root == root && e.n == numClusters && e.name == name && e.out == out
      ensures disk.history == old(disk.history) + Images(e) && disk.sectors == Final(e)
    {
      ghost var d := disk.sectors;
      var rec;
      ghost var a, during;
      rec, out, a, during := AllocLocalFileAt(buffer[r], numClusters, name);
      ghost var mid := disk.sectors;
      var records := buffer[r := rec];
      e := Creation(root, numClusters, name, out, [], a, [], d, during, mid,
                    DirImages(mid, SectorLba(g, cur, sectorNo), records, r, sectorNo == g.spc - 1));
      InPlaceHolds(g, d, e, i, j, sectorNo, r, buffer);
      WriteRecord(cur, sectorNo, records, r);
      assert Images(e) == during + e.tail;
    }

    /** Writes back the sector with the new record in slot `r`, and the terminal after it. */
    method WriteRecord(cur: Word, sectorNo: nat, buffer: seq<Slot>, r: nat)
      requires Valid() && IsCluster(g, cur) && sectorNo < g.spc && r < SLOTS == |buffer|
      modifies disk
      ensures Valid()
      ensures var images := DirImages(old(disk.sectors), SectorLba(g, cur, sectorNo), buffer, r, sectorNo == g.spc - 1);
              disk.history == old(disk.history) + images && disk.sectors == images[|images| - 1]
    {
      if r == SLOTS - 1 {
        WriteDirSector(cur, sectorNo, buffer);
        if sectorNo != g.spc - 1 {
          NextSector(g, cur, sectorNo);
          WriteDirSector(cur, sectorNo + 1, buffer[0 := Cleared(buffer[0])]);
        }
      } else {
        WriteDirSector(cur, sectorNo, buffer[r + 1 := Cleared(buffer[r + 1])]);
      }
    }

    /** Writes sixteen slots to sector `k` of cluster `c`. */
    method WriteDirSector(c: Word, k: nat, records: seq<Slot>)
      requires Valid() && IsCluster(g, c) && k < g.spc && |records| == SLOTS
      modifies disk
      ensures Valid()
      ensures disk.sectors == old(disk.sectors)[SectorLba(g, c, k) := EncodeSlots(records)]
      ensures disk.history == old(disk.history) + [disk.sectors]
    {
      ghost var d := disk.sectors;
      SectorLbaIs(g, c, k);
      disk.WriteSector(EncodeSlots(records), ClusterLba(g, c) + k);
      DataWriteKeeps(g, d, c, k, EncodeSlots(records));
      MountKept(d, disk.sectors, g);
    }

    /** The root directory has no terminal: give it a cluster, then write the record there. */
    method ExtendRoot(prev: Word, buffer: seq<Slot>, numClusters: nat, name: seq<Byte>, ghost root: seq<nat>)
      returns (out: Word, ghost e: Creation)
      requires Valid() && |name| >= 11 && RootChain(g, disk.sectors, root)
      requires prev == root[|root| - 1] && Terminal(DirSlots(root)) == |DirSlots(root)|
      requires |buffer| == SLOTS <= |DirSlots(root)| && buffer == DirSlots(root)[|DirSlots(root)| - SLOTS..]
      requires CountFree(FAT[..]) >= Need(numClusters) + 1
      modifies FAT, disk
      ensures Valid() && Extended(g, old(disk.sectors), e)
      ensures e.root == root && e.n == numClusters && e.name == name && e.out == out
      ensures disk.history == old(disk.history) + Images(e) && disk.sectors == Final(e)
    {
      ghost var d, s, h := disk.sectors, DirSlots(root), disk.history;
      var grown;
      ghost var before, a, during, mid;
      grown, before := GrowRoot(prev, root);
      ghost var linked := disk.sectors;
      out, a, during, mid := FillFresh(grown, buffer, numClusters, name, s);
      e := Creation(root, numClusters, name, out, [grown as nat], a, before, linked, during, mid, [disk.sectors]);
      ExtendedHolds(g, d, e, grown);
      GrownImages(h, e, disk.sectors);
    }

    /** Allocates the file and writes its record, alone but for the terminal and stale slots, to
        the first sector of the fresh directory cluster. */
    method FillFresh(grown: Word, buffer: seq<Slot>, numClusters: nat, name: seq<Byte>, ghost s: seq<Slot>)
      returns (out: Word, ghost a: seq<nat>, ghost during: seq<Image>, ghost mid: Image)
      requires Valid() && |name| >= 11 && IsCluster(g, grown) && grown == ClusterNo(grown)
      requires |buffer| == SLOTS <= |s| && buffer == s[|s| - SLOTS..]
      requires CountFree(FAT[..]) >= Need(numClusters)
      modifies FAT, disk
      ensures Valid()
      ensures Allocates(g, old(disk.sectors), mid, a, during)
      ensures |a| == Need(numClusters) && out == a[0]
      ensures disk.sectors == mid[SectorLba(g, grown, 0) := EncodeSlots(FreshSector(s, name, out))]
      ensures disk.history == old(disk.history) + during + [disk.sectors]
    {
      var rec;
      rec, out, a, during := AllocLocalFileAt(buffer[0], numClusters, name);
      mid := disk.sectors;
      FreshSectorIs(s, buffer, name, out);
      WriteDirSector(ClusterNo(grown), 0, buffer[0 := rec][1 := Cleared(buffer[1])]);
    }

    /** A new cluster, linked behind the last cluster `prev` of the root directory. */
    method GrowRoot(prev: Word, ghost root: seq<nat>) returns (grown: Word, ghost before: seq<Image>)
      requires Valid() && RootChain(g, disk.sectors, root) && prev == root[|root| - 1]
      requires CountFree(FAT[..]) > 0
      modifies FAT, disk
      ensures Valid() && IsCluster(g, grown) && grown == ClusterNo(grown)
      ensures Grows(g, old(disk.sectors), root, grown, before, disk.sectors)
      ensures CountFree(FAT[..]) == old(CountFree(FAT[..])) - 1
      ensures disk.history == old(disk.history) + before + [disk.sectors]
    {
      ghost var d, m := disk.sectors, disk.sectors;
      grown, m := AllocFreeLocalCluster();
      ghost var d2 := disk.sectors;
      ClusterNoKeeps(prev);
      ClusterNoKeeps(grown);
      PointFat(ClusterNo(prev), ClusterNo(grown));
      before := [m, d2];
      GrowsHolds(g, d, m, d2, disk.sectors, root, grown);
      GrowsCount(g, d, d2, disk.sectors, root, grown);
    }

    /** The record loop of a lookup: `done` when the sector decided the search. */
    method SearchSector(records: seq<Slot>, name: seq<Byte>, ghost s: seq<Slot>, ghost j: nat)
      returns (done: bool, c: Word)
      requires Readable(name, 11) && NoHit(s, SLOTS * j, name) && SLOTS * j + SLOTS <= |s|
      requires records == SectorSlots(s, j)
      ensures done ==> c == Lookup(Listing(s), name) && Decisive(s, name)
      ensures !done ==> NoHit(s, SLOTS * j + SLOTS, name)
    {
      var i := 0;
      while i < SLOTS
        invariant i <= SLOTS && NoHit(s, SLOTS * j + i, name)
      {
        var r := records[i];
        assert r == s[SLOTS * j + i];
        if !IsLfn(r) {
          if r[0] == 0 {
            MissAt(s, name, SLOTS * j + i);
            return true, NOT_FOUND;
          }
          var cmp := Strncmp(Name(r), name, 11);
          if cmp == 0 {
            HitAt(s, name, SLOTS * j + i);
            return true, FirstCluster(r);
          }
        }
        NoHitStep(s, SLOTS * j + i, name);
        i := i + 1;
      }
      return false, NOT_FOUND;
    }

    /** The sector loop of a lookup. */
    method SearchCluster(cur: Word, name: seq<Byte>, ghost root: seq<nat>, ghost i: nat, ghost j: nat)
      returns (done: bool, c: Word)
      requires Valid() && i < |root| && cur == root[i] && StartsAt(g, i, j)
      requires Readable(name, 11) && NoHit(DirSlots(root), SLOTS * j, name)
      ensures done ==> c == Lookup(Listing(DirSlots(root)), name) && Decisive(DirSlots(root), name)
      ensures !done ==> NoHit(DirSlots(root), SLOTS * (j + g.spc), name)
    {
      done, c := false, NOT_FOUND;
      var sectorNo := 0;
      while sectorNo < g.spc
        invariant sectorNo <= g.spc && NoHit(DirSlots(root), SLOTS * (j + sectorNo), name)
      {
        var records := ReadSlots(cur, sectorNo, root, i, j);
        done, c := SearchSector(records, name, DirSlots(root), j + sectorNo);
        if done {
          return;
        }
        sectorNo := sectorNo + 1;
      }
    }

    /** `fat32_get_cluster_no`: the first cluster of a file by name, or -1. Nothing is written. */
    method GetClusterNo(name: seq<Byte>, ghost root: seq<nat>) returns (c: Word)
      requires Valid() && Readable(name, 11) && RootChain(g, disk.sectors, root)
      ensures c == Lookup(Listing(DirSlots(root)), name)
      ensures Finds(DirSlots(root), name, c)
      ensures PlainNames(DirSlots(root), name) ==> FindsCalled(DirSlots(root), name[..11], c)
    {
      LookupMeans(DirSlots(root), name);
      var cur: Word := g.root;
      ghost var i: nat, j: nat := 0, 0;
      StartsFirst(g);
      while cur != END
        invariant i <= |root| && StartsAt(g, i, j) && cur == if i < |root| then root[i] as Word else END
        invariant NoHit(DirSlots(root), SLOTS * j, name)
        decreases |root| - i
      {
        var done;
        done, c := SearchCluster(cur, name, root, i, j);
        if done {
          return;
        }
        RootNext(g, disk.sectors, root, i);
        cur := NextCluster(cur);
        StartsNext(g, i, j);
        i, j := i + 1, j + g.spc;
      }
      StartsEnd(g, disk.sectors, root, j);
      MissAt(DirSlots(root), name, SLOTS * j);
      c := NOT_FOUND;
    }
  }
}
