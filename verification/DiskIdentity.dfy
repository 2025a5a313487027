/** The pi's side of a boot, without its serial line: mount the card, find or create the
    configuration file (pi-src/fat32-dfs.c), and look the filesystem name up in its id table
    (pi-src/main.c). An id once recorded is never changed by later boots or file creations. */
module DiskIdentity {
  import opened Bytes
  import opened Card
  import opened CString
  import opened Volume
  import opened Chains
  import opened Directory
  import opened Effects
  import opened FileCreation
  import opened FileSystem
  import opened FileContents
  import opened FileLookup
  import opened PowerFailure
  import opened FileRuns
  import opened CrashSafety
  import opened IdTable
  import opened ConfigTable
  import opened Fat32Driver

  /** FAT32_DFS_CFG_FILENAME, "FS32-DFSCFG", with its terminator. */
  const CONFIG_NAME: seq<Byte> := [70, 83, 51, 50, 45, 68, 70, 83, 67, 70, 71, 0]

  // ---- the state of a disk ----

  ghost function ConfigCluster(g: Geometry, d: Image, root: seq<nat>): Word {
    Lookup(ListOf(g, d, root), CONFIG_NAME)
  }

  ghost function ConfigSector(g: Geometry, d: Image, root: seq<nat>): Sector {
    Read(d, SectorLba(g, ConfigCluster(g, d, root), 0))
  }

  /** The disk's id table; a disk without a configuration file has none. */
  ghost function TableOf(g: Geometry, d: Image, root: seq<nat>): seq<Row> {
    if ConfigCluster(g, d, root) == NOT_FOUND then [] else Rows(ConfigSector(g, d, root))
  }

  /** A healthy, mountable card whose configuration file, if it has one, is not an empty file and
      holds a packed table. */
  ghost predicate Ready(g: Geometry, d: Image, root: seq<nat>) {
    && Sane(g) && Healthy(g, d, root) && Mounted(g, d)
    && ConfigCluster(g, d, root) != 0
    && (ConfigCluster(g, d, root) != NOT_FOUND ==> Packed(ConfigSector(g, d, root)))
  }

  lemma ConfigNameStarts()
    ensures Plain(CONFIG_NAME[..1]) && Readable(CONFIG_NAME, 11)
  {
    assert CONFIG_NAME[..1] == [70];
  }

  /** The configuration file's first cluster is in use, and not one of the directory's. */
  lemma ConfigInUse(g: Geometry, d: Image, root: seq<nat>)
    requires Ready(g, d, root) && ConfigCluster(g, d, root) != NOT_FOUND
    ensures InUse(g, d, ConfigCluster(g, d, root)) && ConfigCluster(g, d, root) !in root
    ensures !NoneMatch(ListOf(g, d, root), CONFIG_NAME)
  {
    HealthyIs(g, d, root);
    ConfigNameStarts();
    AbsentMeansAbsent(g, d, root, CONFIG_NAME);
    var list := ListOf(g, d, root);
    var k := FirstMatch(list, CONFIG_NAME);
    LookupAt(list, CONFIG_NAME, k);
    MatchIsNoTombstone(list[k], CONFIG_NAME);
    var p :| Heads(FatOf(g, d), p, FirstCluster(list[k]));
    assert p[0] in p;
    ChainAllocated(FatOf(g, d), p, p[0]);
    assert Disjoint(p, root);
  }

  // ---- finding or creating the configuration file ----

  /** After creating the configuration file, a lookup finds it and its table is empty. */
  lemma FreshConfig(g: Geometry, d: Image, e: Creation)
    requires Ready(g, d, e.root) && ConfigCluster(g, d, e.root) == NOT_FOUND
    requires Creates(g, d, e) && e.name == CONFIG_NAME
    ensures Ready(g, Final(e), NewRoot(e)) && ConfigCluster(g, Final(e), NewRoot(e)) == e.out != NOT_FOUND
    ensures TableOf(g, Final(e), NewRoot(e)) == []
  {
    HealthyIs(g, d, e.root);
    ConfigNameStarts();
    AbsentMeansAbsent(g, d, e.root, CONFIG_NAME);
    CreateThenFind(g, d, e);
    CreationHealthy(g, d, e);
    CreationForest(g, d, e);
    assert e.out in e.files;
    FreshFileIsBlank(g, d, e, e.out);
    BlankIsEmpty();
  }

  /** If the configuration file has to be created there are two clusters for it, and one more for the
      directory if that has no terminal. */
  ghost predicate RoomForConfig(g: Geometry, d: Image, root: seq<nat>) {
    ConfigCluster(g, d, root) == NOT_FOUND ==>
      var s := RootSlots(g, d, root);
      CountFree(FatOf(g, d)) >= 2 + if Terminal(s) == |s| then 1 else 0
  }

  /** A file of two clusters was made, headed by `c`: so many clusters fewer are free, and one more went
      to the directory if that had no terminal. */
  ghost predicate MadeConfig(g: Geometry, d: Image, root: seq<nat>, d': Image, c: nat) {
    && (exists x: nat :: IsChain(FatOf(g, d'), [c, x]))
    && var s := RootSlots(g, d, root);
       CountFree(FatOf(g, d')) == CountFree(FatOf(g, d)) - 2 - if Terminal(s) == |s| then 1 else 0
  }

  lemma TwoClusters(g: Geometry, d: Image, e: Creation)
    requires Sane(g) && Creates(g, d, e) && e.n == 2
    ensures MadeConfig(g, d, e.root, Final(e), e.out)
  {
    CreationForest(g, d, e);
    CreationCount(g, d, e);
    assert e.files == [e.out, e.files[1]];
  }

  /** `dfs_init_config`. */
  method InitConfig(fs: Fat32, ghost root: seq<nat>) returns (c: Word, ghost root': seq<nat>)
    requires fs.Valid() && Ready(fs.g, fs.disk.sectors, root)
    requires RoomForConfig(fs.g, fs.disk.sectors, root)
    modifies fs.FAT, fs.disk
    ensures fs.Valid() && Ready(fs.g, fs.disk.sectors, root')
    ensures ConfigCluster(fs.g, fs.disk.sectors, root') == c != NOT_FOUND
    ensures TableOf(fs.g, fs.disk.sectors, root') == old(TableOf(fs.g, fs.disk.sectors, root))
    ensures old(ConfigCluster(fs.g, fs.disk.sectors, root)) == NOT_FOUND ==>
              MadeConfig(fs.g, old(fs.disk.sectors), root, fs.disk.sectors, c)
    ensures old(ConfigCluster(fs.g, fs.disk.sectors, root)) != NOT_FOUND ==>
              root' == root && fs.disk.sectors == old(fs.disk.sectors) && fs.disk.history == old(fs.disk.history)
  {
    ConfigNameStarts();
    HealthyIs(fs.g, fs.disk.sectors, root);
    root' := root;
    c := fs.GetClusterNo(CONFIG_NAME, root);
    if c == NOT_FOUND {
      ghost var e, d := EmptyCreation(), fs.disk.sectors;
      c, e := fs.AllocLocalFile(2, CONFIG_NAME, root);
      root' := NewRoot(e);
      FreshConfig(fs.g, d, e);
      TwoClusters(fs.g, d, e);
    }
  }

  ghost function EmptyCreation(): Creation {
    Creation([], 0, [], 0, [], [], [], map[], [], map[], [])
  }

  // ---- a boot ----

  /** Writing back the configuration sector after a call that returned -1. */
  lemma TableCall(g: Geometry, d: Image, root: seq<nat>, name: seq<Byte>, assign: int)
    requires Ready(g, d, root) && ConfigCluster(g, d, root) != NOT_FOUND && Plain(name) && name != []
    requires Respond(TableOf(g, d, root), name, assign) == Unassigned
    ensures var c, s := ConfigCluster(g, d, root), ConfigSector(g, d, root);
            var d' := d[SectorLba(g, c, 0) := Answered(s, name, assign)];
            && Ready(g, d', root) && ConfigCluster(g, d', root) == c
            && TableOf(g, d', root) == Updated(TableOf(g, d, root), name, assign)
  {
    var c, s := ConfigCluster(g, d, root), ConfigSector(g, d, root);
    HealthyIs(g, d, root);
    ConfigInUse(g, d, root);
    StepHealthy(g, d, root, Rewrite(c, Answered(s, name, assign)));
    RewriteKeeps(g, d, root, c, Answered(s, name, assign));
    AnsweredRows(s, name, assign);
  }

  /** What a boot under `name`, offering the id `assign`, does to a disk's table. */
  ghost predicate Boots(g: Geometry, d: Image, root: seq<nat>, d': Image, root': seq<nat>,
                        name: seq<Byte>, assign: int, r: Answer) {
    && Ready(g, d', root')
    && r == Respond(TableOf(g, d, root), name, assign)
    && TableOf(g, d', root') == Updated(TableOf(g, d, root), name, assign)
    && (r.Recorded? ==> d' == d)
  }

  /** The part of `entry` that works on the disk, from mounting the card to the id. */
  method Identify(disk: SdCard, dfsName: seq<Byte>, idIfUnassigned: Byte, ghost g: Geometry, ghost root: seq<nat>)
    returns (r: Answer, ghost root': seq<nat>)
    requires Ready(g, disk.sectors, root) && |dfsName| == NAME_LEN && Text(dfsName) != []
    requires RoomForConfig(g, disk.sectors, root)
    modifies disk
    ensures Boots(g, old(disk.sectors), root, disk.sectors, root', Text(dfsName), idIfUnassigned, r)
    ensures r.Recorded? ==> disk.history == old(disk.history)
  {
    ghost var d := disk.sectors;
    var mounted := Fat32.Init(disk);
    MountedMounts(g, d);
    if mounted.Panic? {
      MountsUnique(d, Ok(g), Panic(mounted.reason));
    }
    var fs := mounted.value;
    MountsUnique(d, Ok(g), Ok(fs.g));
    r, root' := Look(fs, dfsName, idIfUnassigned, root);
  }

  method Look(fs: Fat32, dfsName: seq<Byte>, idIfUnassigned: Byte, ghost root: seq<nat>)
    returns (r: Answer, ghost root': seq<nat>)
    requires fs.Valid() && Ready(fs.g, fs.disk.sectors, root) && |dfsName| == NAME_LEN && Text(dfsName) != []
    requires RoomForConfig(fs.g, fs.disk.sectors, root)
    modifies fs.FAT, fs.disk
    ensures Boots(fs.g, old(fs.disk.sectors), root, fs.disk.sectors, root', Text(dfsName), idIfUnassigned, r)
    ensures r.Recorded? ==> fs.disk.history == old(fs.disk.history)
  {
    var c;
    c, root' := InitConfig(fs, root);
    ConfigInUse(fs.g, fs.disk.sectors, root');
    ghost var d := fs.disk.sectors;
    r := IdForDfs(fs, c, dfsName, idIfUnassigned);
    if r == Unassigned {
      TableCall(fs.g, d, root', Text(dfsName), idIfUnassigned);
    }
  }

  // ---- ids over a run ----

  /** The run rewrites the configuration sector only as boots do. */
  ghost predicate OnlyBoots(g: Geometry, d: Image, root: seq<nat>, ops: seq<Op>)
    decreases |ops|
  {
    ops == [] || (IsBoot(g, d, root, ops[0]) && OnlyBoots(g, After(g, d, ops[0]), RootAfter(root, ops[0]), ops[1..]))
  }

  ghost predicate IsBoot(g: Geometry, d: Image, root: seq<nat>, op: Op) {
    op.Rewrite? && op.c == ConfigCluster(g, d, root) ==>
      exists name, assign: int :: IsCall(ConfigSector(g, d, root), name, assign, op.x)
  }

  ghost predicate IsCall(s: Sector, name: seq<Byte>, assign: int, s': Sector) {
    Plain(name) && name != [] && Respond(Rows(s), name, assign) == Unassigned && s' == Answered(s, name, assign)
  }

  /** The disk is ready, has a configuration file, and answers `name` with the id `id`. */
  ghost predicate Knows(g: Geometry, d: Image, root: seq<nat>, name: seq<Byte>, id: nat) {
    && Ready(g, d, root) && ConfigCluster(g, d, root) != NOT_FOUND
    && forall assign: int :: Respond(TableOf(g, d, root), name, assign) == Recorded(id)
  }

  lemma SameConfig(g: Geometry, d: Image, root: seq<nat>, d': Image, root': seq<nat>, name: seq<Byte>, id: nat)
    requires Knows(g, d, root, name, id) && Healthy(g, d', root') && Mounted(g, d')
    requires ConfigCluster(g, d', root') == ConfigCluster(g, d, root)
    requires ConfigSector(g, d', root') == ConfigSector(g, d, root)
    ensures Knows(g, d', root', name, id)
  {
    var rows := TableOf(g, d, root);
    assert TableOf(g, d', root') == rows;
    assert forall assign: int :: Respond(rows, name, assign) == Recorded(id);
  }

  lemma CreationKeepsConfig(g: Geometry, d: Image, e: Creation)
    requires Ready(g, d, e.root) && ConfigCluster(g, d, e.root) != NOT_FOUND && Creates(g, d, e)
    ensures ConfigCluster(g, Final(e), NewRoot(e)) == ConfigCluster(g, d, e.root)
    ensures ConfigSector(g, Final(e), NewRoot(e)) == ConfigSector(g, d, e.root)
  {
    var c := ConfigCluster(g, d, e.root);
    ConfigInUse(g, d, e.root);
    FoundStaysFound(g, d, e, CONFIG_NAME);
    CreationKeepsClusters(g, d, e, c);
    FirstSectorKept(g, d, Final(e), c);
  }

  lemma FirstSectorKept(g: Geometry, d: Image, d': Image, c: nat)
    requires g.spc > 0 && KeepsCluster(g, d, d', c)
    ensures Read(d', SectorLba(g, c, 0)) == Read(d, SectorLba(g, c, 0))
  {
  }

  lemma CreationKeepsId(g: Geometry, d: Image, e: Creation, name: seq<Byte>, id: nat)
    requires Knows(g, d, e.root, name, id) && Creates(g, d, e) && |e.name| >= 11 && e.name[0] != 0
    ensures Knows(g, Final(e), NewRoot(e), name, id)
  {
    CreationHealthy(g, d, e);
    CreationKeepsConfig(g, d, e);
    SameConfig(g, d, e.root, Final(e), NewRoot(e), name, id);
  }

  lemma CutKeepsConfig(g: Geometry, d: Image, e: Creation, k: nat)
    requires Ready(g, d, e.root) && Creates(g, d, e) && k + 1 < |Images(e)| && !Midway(e, k)
    ensures Healthy(g, Images(e)[k], CutRoot(e, k)) && Mounted(g, Images(e)[k])
    ensures ConfigCluster(g, Images(e)[k], CutRoot(e, k)) == ConfigCluster(g, d, e.root)
    ensures ConfigCluster(g, d, e.root) != NOT_FOUND ==>
              ConfigSector(g, Images(e)[k], CutRoot(e, k)) == ConfigSector(g, d, e.root)
  {
    var c := ConfigCluster(g, d, e.root);
    CutIsHealthy(g, d, e, k);
    if c != NOT_FOUND {
      ConfigInUse(g, d, e.root);
      CreationKeepsClusters(g, d, e, c);
      FirstSectorKept(g, d, Images(e)[k], c);
    }
  }

  lemma CallKeepsId(g: Geometry, d: Image, root: seq<nat>, x: Sector, name: seq<Byte>, id: nat,
                    other: seq<Byte>, offered: int)
    requires Knows(g, d, root, name, id) && IsCall(ConfigSector(g, d, root), other, offered, x)
    ensures Knows(g, d[SectorLba(g, ConfigCluster(g, d, root), 0) := x], root, name, id)
  {
    TableCall(g, d, root, other, offered);
    var rows := TableOf(g, d, root);
    forall assign: int
      ensures Respond(Updated(rows, other, offered), name, assign) == Recorded(id)
    {
      RecordedStays(rows, name, assign, other, offered);
    }
  }

  lemma OtherRewriteKeepsId(g: Geometry, d: Image, root: seq<nat>, c: nat, x: Sector, name: seq<Byte>, id: nat)
    requires Knows(g, d, root, name, id) && InUse(g, d, c) && c !in root && c != ConfigCluster(g, d, root)
    ensures Knows(g, d[SectorLba(g, c, 0) := x], root, name, id)
  {
    var d' := d[SectorLba(g, c, 0) := x];
    HealthyIs(g, d, root);
    ConfigInUse(g, d, root);
    StepHealthy(g, d, root, Rewrite(c, x));
    RewriteKeeps(g, d, root, c, x);
    RewriteElsewhere(g, d, c, x, ConfigCluster(g, d, root));
    FirstSectorKept(g, d, d', ConfigCluster(g, d, root));
    SameConfig(g, d, root, d', root, name, id);
  }

  lemma RewriteKeepsId(g: Geometry, d: Image, root: seq<nat>, c: nat, x: Sector, name: seq<Byte>, id: nat)
    requires Knows(g, d, root, name, id) && InUse(g, d, c) && c !in root && IsBoot(g, d, root, Rewrite(c, x))
    ensures Knows(g, d[SectorLba(g, c, 0) := x], root, name, id)
  {
    if c == ConfigCluster(g, d, root) {
      assert Rewrite(c, x).x == x;
      var other, offered: int :| IsCall(ConfigSector(g, d, root), other, offered, x);
      CallKeepsId(g, d, root, x, name, id, other, offered);
    } else {
      OtherRewriteKeepsId(g, d, root, c, x, name, id);
    }
  }

  /** Id stability. Once a disk has an id under a name, every later boot answers with that id, after
      any run of file creations, completed or cut short by power failures, of boots under any names,
      and of rewrites of other files. Such a boot writes nothing (see Identify). */
  lemma {:induction false} IdNeverChanges(g: Geometry, d: Image, root: seq<nat>, ops: seq<Op>, name: seq<Byte>, id: nat)
    requires Knows(g, d, root, name, id) && Run(g, d, root, ops) && NamesStart(ops) && OnlyBoots(g, d, root, ops)
    ensures Knows(g, End(g, d, ops), EndRoot(root, ops), name, id)
    decreases |ops|
  {
    if ops != [] {
      MadeFirst(ops);
      match ops[0] {
        case Create(e) =>
          assert ops[0].e == e && |e.name| >= 11;
          CreationKeepsId(g, d, e, name, id);
        case Rewrite(c, x) =>
          assert ops[0] == Rewrite(c, x);
          RewriteKeepsId(g, d, root, c, x, name, id);
        case Cut(e, k, n) =>
          CutKeepsConfig(g, d, e, k);
          SameConfig(g, d, root, Images(e)[k], CutRoot(e, k), name, id);
      }
      IdNeverChanges(g, After(g, d, ops[0]), RootAfter(root, ops[0]), ops[1..], name, id);
    }
  }
}
