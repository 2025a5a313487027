/** Three places where pi-src/fat32.c does not do what the rest of it relies on, modelled as written:
    the loader's stride, the end test of the directory scans, and allocation on a full disk. For each
    there is the exact condition under which the code as written agrees with Fat32Driver. */
module AsWritten {
  import opened Bytes
  import opened Card
  import opened CString
  import opened Volume
  import opened Chains
  import opened Directory
  import opened Effects
  import opened Fat32Driver

  // ---- the loader ----

  /** Words per `struct sector` of the loader: it holds SD_SECTOR_SIZE words, not bytes. */
  const STRIDE := 512

  /** Word `k` of the FAT area after the loader as written ran on memory that held `mem`: sector `i`
      of the FAT lands at word 512 * i. */
  function AsLoaded(g: Geometry, d: Image, mem: nat -> Word, k: nat): Word {
    if k % STRIDE < WORDS_PER_SECTOR && k / STRIDE < g.spf
    then Entry(g, d, WORDS_PER_SECTOR * (k / STRIDE) + k % STRIDE)
    else mem(k)
  }

  /** The loading loop of `fat32_init` as written, into the memory behind the kernel. */
  method LoadStrided(disk: SdCard, g: Geometry, memory: array<Word>, ghost mem: nat -> Word)
    requires STRIDE * g.spf <= memory.Length && forall k :: 0 <= k < memory.Length ==> memory[k] == mem(k)
    modifies memory
    ensures forall k :: 0 <= k < memory.Length ==> memory[k] == AsLoaded(g, disk.sectors, mem, k)
  {
    var i := 0;
    while i < g.spf
      invariant i <= g.spf
      invariant forall k :: 0 <= k < STRIDE * i ==> memory[k] == AsLoaded(g, disk.sectors, mem, k)
      invariant forall k :: STRIDE * i <= k < memory.Length ==> memory[k] == mem(k)
    {
      var s := disk.ReadSector(g.fatBegin + i);
      StoreSector(disk, g, memory, mem, i, s);
      i := i + 1;
    }
  }

  /** One sector of 128 words goes to the front of a `struct sector`. */
  method StoreSector(disk: SdCard, g: Geometry, memory: array<Word>, ghost mem: nat -> Word, i: nat, s: Sector)
    requires i < g.spf && STRIDE * i + STRIDE <= memory.Length && s == Read(disk.sectors, g.fatBegin + i)
    requires forall k :: STRIDE * i <= k < memory.Length ==> memory[k] == mem(k)
    modifies memory
    ensures forall k :: 0 <= k < STRIDE * i ==> memory[k] == old(memory[k])
    ensures forall k :: STRIDE * i <= k < STRIDE * i + STRIDE ==> memory[k] == AsLoaded(g, disk.sectors, mem, k)
    ensures forall k :: STRIDE * i + STRIDE <= k < memory.Length ==> memory[k] == mem(k)
  {
    var j := 0;
    while j < WORDS_PER_SECTOR
      invariant j <= WORDS_PER_SECTOR
      invariant forall k :: 0 <= k < STRIDE * i ==> memory[k] == old(memory[k])
      invariant forall x :: 0 <= x < j ==> memory[STRIDE * i + x] == WordAt(s, x)
      invariant forall k :: STRIDE * i + j <= k < memory.Length ==> memory[k] == mem(k)
    {
      memory[STRIDE * i + j] := WordAt(s, j);
      j := j + 1;
    }
    forall k | STRIDE * i <= k < STRIDE * i + STRIDE
      ensures memory[k] == AsLoaded(g, disk.sectors, mem, k)
    {
      var x := k - STRIDE * i;
      assert k / STRIDE == i && k % STRIDE == x;
      if x < WORDS_PER_SECTOR {
        EntryIs(g, disk.sectors, WORDS_PER_SECTOR * i + x, i, x);
      }
    }
  }

  /** Entry `c` of the FAT is not loaded: in its place stands whatever memory held. */
  lemma NotLoaded(g: Geometry, d: Image, mem: nat -> Word, c: nat)
    requires c % STRIDE >= WORDS_PER_SECTOR
    ensures AsLoaded(g, d, mem, c) == mem(c)
  {
  }

  /** The loader as written loads the FAT on the card, whatever memory held before, if and only if
      the FAT has at most one sector. The same goes for durability: mounting again restores the FAT
      that the driver mirrors on the card. */
  lemma LoaderIsExact(g: Geometry, d: Image)
    ensures (forall mem: nat -> Word, k: nat :: k < Entries(g) ==> AsLoaded(g, d, mem, k) == FatOf(g, d)[k])
       <==> g.spf <= 1
  {
    if g.spf <= 1 {
      forall mem: nat -> Word, k: nat | k < Entries(g)
        ensures AsLoaded(g, d, mem, k) == FatOf(g, d)[k]
      {
        FatEntry(g, d, k);
      }
    } else {
      var w: Word := if FatOf(g, d)[128] == 0 then 1 else 0;
      var mem: nat -> Word := (k: nat) => w;
      NotLoaded(g, d, mem, 128);
      assert AsLoaded(g, d, mem, 128) != FatOf(g, d)[128];
    }
  }

  /** A volume whose FAT has two sectors, and a card on which cluster 128 is in use. */
  const TWO_SECTORS := Geometry(1, 2, 4, 1, 2, 2)

  function InUse128(): Image {
    map[3 := EncodeWords(seq(WORDS_PER_SECTOR, i => if i == 0 then END else 0))]
  }

  /** There the loader as written, over cleared memory, takes a cluster in use for a free one. */
  lemma LoaderLosesCluster()
    ensures Sane(TWO_SECTORS) && FatOf(TWO_SECTORS, InUse128())[128] == END
    ensures AsLoaded(TWO_SECTORS, InUse128(), _ => 0, 128) == 0
  {
    var ws: seq<Word> := seq(WORDS_PER_SECTOR, i => if i == 0 then END else 0);
    FatEntry(TWO_SECTORS, InUse128(), 128);
    EncodedWord(ws, EncodeWords(ws), 0);
    NotLoaded(TWO_SECTORS, InUse128(), _ => 0, 128);
  }

  // ---- the end of the directory ----

  /** The cluster loop of `fat32_alloc_local_file` as written, up to the point where it would read a
      cluster that has no FAT entry. It never ends by its own test; it finds a terminal or, if and
      only if the directory has none, goes on to cluster 0x0fffffff. The code after the loop, which
      would extend the directory, is not reached. */
  method ScanRootAsWritten(fs: Fat32, ghost root: seq<nat>) returns (found: bool, cur: Word)
    requires fs.Valid() && RootChain(fs.g, fs.disk.sectors, root)
    ensures found <==> Terminal(fs.DirSlots(root)) < |fs.DirSlots(root)|
    ensures found ==> cur in root
    ensures !found ==> cur == END && Entries(fs.g) <= cur
  {
    cur := fs.g.root;
    ghost var i: nat, j: nat := 0, 0;
    StartsFirst(fs.g);
    while cur != NOT_FOUND
      invariant i <= |root| && StartsAt(fs.g, i, j) && cur == if i < |root| then root[i] as Word else END
      invariant NoTerminal(fs.DirSlots(root), SLOTS * j)
      decreases |root| - i
    {
      if cur >= fs.FAT.Length {
        StartsEnd(fs.g, fs.disk.sectors, root, j);
        TerminalFound(fs.DirSlots(root), |fs.DirSlots(root)|);
        return false, cur;
      }
      var sectorNo, r, records;
      found, sectorNo, r, records := fs.ScanCluster(cur, root, i, j);
      if found {
        ScannedSector(fs.g, fs.disk.sectors, root, i, sectorNo, j);
        return;
      }
      RootNext(fs.g, fs.disk.sectors, root, i);
      cur := fs.NextCluster(cur);
      StartsNext(fs.g, i, j);
      i, j := i + 1, j + fs.g.spc;
    }
  }

  /** The cluster loop of `fat32_get_cluster_no` as written. It returns, with what the lookup is to
      return, or, if and only if the directory has neither a terminal nor a match, goes on to cluster
      0x0fffffff. */
  method GetClusterNoAsWritten(fs: Fat32, name: seq<Byte>, ghost root: seq<nat>)
    returns (done: bool, c: Word, cur: Word)
    requires fs.Valid() && Readable(name, 11) && RootChain(fs.g, fs.disk.sectors, root)
    ensures var s := fs.DirSlots(root);
            done <==> Terminal(s) < |s| || !NoneMatch(Listing(s), name)
    ensures done ==> c == Lookup(Listing(fs.DirSlots(root)), name)
    ensures !done ==> cur == END && Entries(fs.g) <= cur
  {
    cur := fs.g.root;
    ghost var i: nat, j: nat := 0, 0;
    StartsFirst(fs.g);
    while cur != NOT_FOUND
      invariant i <= |root| && StartsAt(fs.g, i, j) && cur == if i < |root| then root[i] as Word else END
      invariant NoHit(fs.DirSlots(root), SLOTS * j, name)
      decreases |root| - i
    {
      DecisiveIs(fs.DirSlots(root), name);
      if cur >= fs.FAT.Length {
        StartsEnd(fs.g, fs.disk.sectors, root, j);
        MissAt(fs.DirSlots(root), name, SLOTS * j);
        return false, NOT_FOUND, cur;
      }
      done, c := fs.SearchCluster(cur, name, root, i, j);
      if done {
        return;
      }
      RootNext(fs.g, fs.disk.sectors, root, i);
      cur := fs.NextCluster(cur);
      StartsNext(fs.g, i, j);
      i, j := i + 1, j + fs.g.spc;
    }
  }

  // ---- a full disk ----

  /** The index at which `alloc_free_local_cluster` stores the end mark: inside the FAT if and only if
      a cluster is free. On a full disk it is 0x0fffffff, past the last entry. */
  method StoreIndex(fs: Fat32) returns (index: Word)
    requires fs.Valid()
    ensures index < Entries(fs.g) <==> CountFree(fs.FAT[..]) > 0
    ensures CountFree(fs.FAT[..]) == 0 ==> index == END
  {
    var out := fs.FindFreeLocalCluster();
    if out != NOT_FOUND {
      ClusterNoKeeps(out);
    }
    index := ClusterNo(out);
  }
}
