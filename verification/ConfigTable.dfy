/** The id table a disk keeps in the first sector of its configuration file (pi-src/main.c,
    pi-src/fat32-dfs.h): sixteen entries of a 30-byte filesystem name and a 16-bit id. */
module ConfigTable {
  import opened Bytes
  import opened Card
  import opened CString
  import opened Volume
  import opened Effects
  import opened Fat32Driver
  import opened IdTable

  // ---- the table as a list of rows ----

  function NameField(s: Sector, k: nat): (f: seq<Byte>)
    requires k < ENTRIES
    ensures |f| == NAME_LEN
  {
    s[32 * k..32 * k + NAME_LEN]
  }

  predicate Vacant(s: Sector, k: nat)
    requires k < ENTRIES
  {
    s[32 * k] == 0
  }

  function RowAt(s: Sector, k: nat): Row
    requires k < ENTRIES
  {
    Row(Text(NameField(s, k)), s[32 * k + 30] as nat + 0x100 * s[32 * k + 31] as nat)
  }

  /** Index of the first vacant entry at or after `k`, or 16. */
  function FirstVacant(s: Sector, k: nat): (v: nat)
    requires k <= ENTRIES
    ensures k <= v <= ENTRIES
    ensures forall i :: k <= i < v ==> !Vacant(s, i)
    ensures v < ENTRIES ==> Vacant(s, v)
    decreases ENTRIES - k
  {
    if k == ENTRIES || Vacant(s, k) then k else FirstVacant(s, k + 1)
  }

  /** The rows a scan sees: those before the first vacant entry. */
  function Rows(s: Sector): (rows: seq<Row>)
    ensures |rows| == FirstVacant(s, 0) <= ENTRIES
    ensures forall k :: 0 <= k < |rows| ==> rows[k] == RowAt(s, k)
  {
    seq(FirstVacant(s, 0), k requires 0 <= k < FirstVacant(s, 0) => RowAt(s, k))
  }

  /** No entry in use hides behind a vacant one. */
  predicate Packed(s: Sector) {
    forall k :: FirstVacant(s, 0) <= k < ENTRIES ==> Vacant(s, k)
  }

  lemma RowsCount(s: Sector, n: nat)
    requires n <= ENTRIES && forall k :: 0 <= k < n ==> !Vacant(s, k)
    requires n < ENTRIES ==> Vacant(s, n)
    ensures |Rows(s)| == n
  {
  }

  // ---- filling an entry ----

  /** An entry after a name and an id were stored in it: the name cut to 29 bytes and terminated,
      the bytes behind the terminator left as they were, the id cut to 16 bits. */
  function Stored(old32: Slot, name: seq<Byte>, id: int): Slot {
    var text := Clip(name, NAME_LEN - 1);
    text + [0] + old32[|text| + 1..NAME_LEN] + [id % 0x100, id / 0x100 % 0x100]
  }

  function Filled(s: Sector, k: nat, name: seq<Byte>, id: int): (u: Sector)
    requires k < ENTRIES
  {
    s[..32 * k] + Stored(SlotAt(s, k), name, id) + s[32 * k + 32..]
  }

  lemma FilledOthers(s: Sector, k: nat, name: seq<Byte>, id: int, i: nat)
    requires k < ENTRIES && i < ENTRIES && i != k
    ensures RowAt(Filled(s, k, name, id), i) == RowAt(s, i)
    ensures Vacant(Filled(s, k, name, id), i) <==> Vacant(s, i)
  {
    var u := Filled(s, k, name, id);
    assert |u| == |s| && u[..32 * k] == s[..32 * k] && u[32 * k + 32..] == s[32 * k + 32..];
    assert forall x :: 32 * i <= x < 32 * i + 32 ==> u[x] == s[x];
    assert NameField(u, i) == NameField(s, i);
  }

  lemma StoredRow(r: Slot, name: seq<Byte>, id: int)
    requires Plain(name)
    ensures var u := Stored(r, name, id);
            Text(u[..NAME_LEN]) == Clip(name, NAME_LEN - 1) && (u[0] == 0 <==> name == [])
            && u[30] as int + 0x100 * u[31] as int == id % 0x1_0000
  {
    var text, rest := Clip(name, NAME_LEN - 1), r[|Clip(name, NAME_LEN - 1)| + 1..NAME_LEN];
    assert Stored(r, name, id)[..NAME_LEN] == text + ([0] + rest);
    TextOfPlain(text, [0] + rest);
    TwoBytes(id);
  }

  lemma FilledRow(s: Sector, k: nat, name: seq<Byte>, id: int)
    requires k < ENTRIES && Plain(name)
    ensures RowAt(Filled(s, k, name, id), k) == Row(Clip(name, NAME_LEN - 1), id % 0x1_0000)
    ensures Vacant(Filled(s, k, name, id), k) <==> name == []
  {
    var e := Stored(SlotAt(s, k), name, id);
    StoredRow(SlotAt(s, k), name, id);
    PlacedRow(s[..32 * k], e, s[32 * k + 32..], k);
  }

  lemma PlacedRow(a: seq<Byte>, e: Slot, b: seq<Byte>, k: nat)
    requires k < ENTRIES && |a| == 32 * k && |b| == SECTOR_SIZE - 32 * k - 32
    ensures NameField(a + e + b, k) == e[..NAME_LEN]
    ensures RowAt(a + e + b, k) == Row(Text(e[..NAME_LEN]), e[30] as nat + 0x100 * e[31] as nat)
    ensures Vacant(a + e + b, k) <==> e[0] == 0
  {
    var u: Sector := a + e + b;
    assert forall x :: 0 <= x < 32 ==> u[32 * k + x] == e[x];
    assert NameField(u, k) == e[..NAME_LEN];
  }

  lemma TwoBytes(id: int)
    ensures id % 0x100 + 0x100 * (id / 0x100 % 0x100) == id % 0x1_0000
  {
  }

  /** Storing a name in the first vacant entry of a packed table appends one row. */
  lemma FilledAppends(s: Sector, name: seq<Byte>, id: int)
    requires Packed(s) && |Rows(s)| < ENTRIES && Plain(name) && name != []
    ensures var u := Filled(s, |Rows(s)|, name, id);
            Packed(u) && Rows(u) == Rows(s) + [Row(Clip(name, NAME_LEN - 1), id % 0x1_0000)]
  {
    var n := |Rows(s)|;
    var u := Filled(s, n, name, id);
    FilledRow(s, n, name, id);
    forall i | 0 <= i < ENTRIES && i != n
      ensures RowAt(u, i) == RowAt(s, i) && (Vacant(u, i) <==> Vacant(s, i))
    {
      FilledOthers(s, n, name, id, i);
    }
    RowsCount(u, n + 1);
  }

  /** A fresh configuration file reads as an empty table. */
  lemma BlankIsEmpty()
    ensures Rows(BLANK) == [] && Packed(BLANK)
  {
    assert forall k :: 0 <= k < ENTRIES ==> Vacant(BLANK, k);
  }

  // ---- the lookup that assigns ----

  /** `id_for_dfs`. */
  method IdForDfs(fs: Fat32, cluster: nat, dfsName: seq<Byte>, idIfUnassigned: int) returns (r: Answer)
    requires fs.Valid() && IsCluster(fs.g, cluster) && |dfsName| == NAME_LEN
    modifies fs.disk
    ensures fs.Valid()
    ensures var lba, name := SectorLba(fs.g, cluster, 0), Text(dfsName);
            var s := Read(old(fs.disk.sectors), lba);
            && r == Respond(Rows(s), name, idIfUnassigned)
            && CallInBytes(s, dfsName, idIfUnassigned, r, Answered(s, name, idIfUnassigned))
            && if r == Unassigned
               then fs.disk.sectors == old(fs.disk.sectors)[lba := Answered(s, name, idIfUnassigned)]
                    && fs.disk.history == old(fs.disk.history) + [fs.disk.sectors]
               else fs.disk.sectors == old(fs.disk.sectors) && fs.disk.history == old(fs.disk.history)
  {
    var sector := ReadTable(fs, cluster);
    var written;
    r, written := AnswerFrom(sector, dfsName, idIfUnassigned);
    if r == Unassigned {
      WriteTable(fs, cluster, written);
    }
  }

  /** Reads the configuration sector. */
  method ReadTable(fs: Fat32, cluster: nat) returns (s: Sector)
    ensures s == Read(fs.disk.sectors, SectorLba(fs.g, cluster, 0))
  {
    SectorLbaIs(fs.g, cluster, 0);
    s := fs.disk.ReadSector(ClusterLba(fs.g, cluster));
  }

  /** The call on the sector that was read: the answer and the sector in memory afterwards. */
  method AnswerFrom(sector: Sector, dfsName: seq<Byte>, idIfUnassigned: int) returns (r: Answer, written: Sector)
    requires |dfsName| == NAME_LEN
    ensures r == Respond(Rows(sector), Text(dfsName), idIfUnassigned)
    ensures r == Unassigned ==> written == Answered(sector, Text(dfsName), idIfUnassigned)
    ensures CallInBytes(sector, dfsName, idIfUnassigned, r, Answered(sector, Text(dfsName), idIfUnassigned))
  {
    CallBytes(sector, dfsName, idIfUnassigned);
    var s := Buffer(sector);
    r := ScanTable(s, dfsName, idIfUnassigned);
    written := s[..];
  }

  /** A sector in memory. */
  method Buffer(sector: Sector) returns (s: array<Byte>)
    ensures fresh(s) && s[..] == sector
  {
    s := new Byte[SECTOR_SIZE](i requires 0 <= i < SECTOR_SIZE => sector[i]);
    assert s[..] == sector;
  }

  /** Writes the configuration sector back. */
  method WriteTable(fs: Fat32, cluster: nat, s: Sector)
    requires fs.Valid() && IsCluster(fs.g, cluster)
    modifies fs.disk
    ensures fs.Valid() && fs.disk.sectors == old(fs.disk.sectors)[SectorLba(fs.g, cluster, 0) := s]
    ensures fs.disk.history == old(fs.disk.history) + [fs.disk.sectors]
  {
    ghost var d := fs.disk.sectors;
    SectorLbaIs(fs.g, cluster, 0);
    fs.disk.WriteSector(s, ClusterLba(fs.g, cluster));
    DataWriteKeeps(fs.g, d, cluster, 0, s);
    MountKept(d, fs.disk.sectors, fs.g);
  }

  /** The sector a call that returns -1 writes back: with one more row, or as it was when full. */
  function Answered(s: Sector, name: seq<Byte>, assign: int): Sector {
    if |Rows(s)| < ENTRIES then Filled(s, |Rows(s)|, name, assign) else s
  }

  /** The loop over the entries of the sector held in memory. */
  method ScanTable(s: array<Byte>, dfsName: seq<Byte>, idIfUnassigned: int) returns (r: Answer)
    requires s.Length == SECTOR_SIZE && |dfsName| == NAME_LEN
    modifies s
    ensures r == Respond(Rows(old(s[..])), Text(dfsName), idIfUnassigned)
    ensures s[..] == if r == Unassigned then Answered(old(s[..]), Text(dfsName), idIfUnassigned) else old(s[..])
  {
    ghost var sector: Sector, name := s[..], Text(dfsName);
    var i := 0;
    while i < ENTRIES
      invariant i <= ENTRIES && s[..] == sector && Passed(sector, name, i)
    {
      assert s[32 * i] == sector[32 * i];
      if s[32 * i] == 0 {
        Missed(sector, name, i, idIfUnassigned);
        if idIfUnassigned == -1 {
          return Halt;
        }
        StoreEntry(s, i, dfsName, idIfUnassigned);
        return Unassigned;
      }
      var cmp, id := CompareEntry(s, i, dfsName);
      if cmp == 0 {
        FoundRow(sector, name, i, idIfUnassigned);
        return Recorded(id);
      }
      PassedStep(sector, name, i);
      i := i + 1;
    }
    Missed(sector, name, ENTRIES, idIfUnassigned);
    return Unassigned;
  }

  /** Compares the name of entry `i` and reads its id. */
  method CompareEntry(s: array<Byte>, i: nat, dfsName: seq<Byte>) returns (cmp: int, id: nat)
    requires s.Length == SECTOR_SIZE && i < ENTRIES && |dfsName| == NAME_LEN
    ensures cmp == 0 <==> Alike(RowAt(s[..], i).name, Text(dfsName))
    ensures id == RowAt(s[..], i).id
  {
    var field := s[32 * i..32 * i + NAME_LEN];
    assert field == NameField(s[..], i);
    cmp := Strncmp(field, dfsName, NAME_LEN);
    WholeNames(field, dfsName);
    id := s[32 * i + 30] as int + 0x100 * s[32 * i + 31] as int;
  }

  /** The first `n` entries are in use and hold other names. */
  ghost predicate Passed(s: Sector, name: seq<Byte>, n: nat) {
    n <= ENTRIES && forall k: nat {:trigger Show(k)} :: Show(k) && k < n ==>
                                                          !Vacant(s, k) && !Alike(RowAt(s, k).name, name)
  }

  lemma PassedStep(s: Sector, name: seq<Byte>, n: nat)
    requires Passed(s, name, n) && n < ENTRIES && !Vacant(s, n) && !Alike(RowAt(s, n).name, name)
    ensures Passed(s, name, n + 1)
  {
  }

  lemma WholeNames(a: seq<Byte>, b: seq<Byte>)
    requires |a| == NAME_LEN && |b| == NAME_LEN
    ensures SameName(a, b, NAME_LEN) <==> Alike(Text(a), Text(b))
  {
    assert Clip(a, NAME_LEN) == a && Clip(b, NAME_LEN) == b;
  }

  lemma PassedRows(s: Sector, name: seq<Byte>, n: nat)
    requires Passed(s, name, n)
    ensures forall k :: 0 <= k < n ==> !Vacant(s, k) && !Alike(RowAt(s, k).name, name)
  {
    forall k: nat | k < n
      ensures !Vacant(s, k) && !Alike(RowAt(s, k).name, name)
    {
      assert Show(k);
    }
  }

  /** The scan reached the end of the rows without a match. */
  lemma Missed(s: Sector, name: seq<Byte>, n: nat, assign: int)
    requires Passed(s, name, n) && (n < ENTRIES ==> Vacant(s, n))
    ensures Respond(Rows(s), name, assign) == if n < ENTRIES && assign == -1 then Halt else Unassigned
    ensures Answered(s, name, assign) == if n < ENTRIES then Filled(s, n, name, assign) else s
  {
    PassedRows(s, name, n);
    RowsCount(s, n);
    FindIs(Rows(s), name, n);
  }

  /** The scan met a match. */
  lemma FoundRow(s: Sector, name: seq<Byte>, n: nat, assign: int)
    requires n < ENTRIES && !Vacant(s, n) && Alike(RowAt(s, n).name, name) && Passed(s, name, n)
    ensures Respond(Rows(s), name, assign) == Recorded(RowAt(s, n).id)
  {
    PassedRows(s, name, n);
    var rows := Rows(s);
    assert |rows| > n && rows[n] == RowAt(s, n);
    FindIs(rows, name, n);
  }

  /** Copies a name and an id into entry `i` of the sector held in memory. */
  method StoreEntry(s: array<Byte>, i: nat, dfsName: seq<Byte>, id: int)
    requires s.Length == SECTOR_SIZE && i < ENTRIES && |dfsName| == NAME_LEN
    modifies s
    ensures s[..] == Filled(old(s[..]), i, Text(dfsName), id)
  {
    ghost var was: seq<Byte> := s[..];
    Strncpy(s, 32 * i, dfsName, NAME_LEN);
    ghost var named: seq<Byte> := s[..];
    s[32 * i + 30] := id % 0x100;
    s[32 * i + 31] := id / 0x100 % 0x100;
    assert s[..] == named[32 * i + 30 := id % 0x100][32 * i + 31 := id / 0x100 % 0x100];
    FilledIs(was, i, Text(dfsName), id, named);
  }

  lemma FilledIs(was: Sector, i: nat, name: seq<Byte>, id: int, named: seq<Byte>)
    requires i < ENTRIES
    requires var text := Clip(name, NAME_LEN - 1);
             named == was[..32 * i] + text + [0] + was[32 * i + |text| + 1..]
    ensures named[32 * i + 30 := id % 0x100][32 * i + 31 := id / 0x100 % 0x100] == Filled(was, i, name, id)
  {
    var text := Clip(name, NAME_LEN - 1);
    var e := Stored(SlotAt(was, i), name, id);
    var now := named[32 * i + 30 := id % 0x100][32 * i + 31 := id / 0x100 % 0x100];
    assert now[..32 * i] == was[..32 * i];
    assert now[32 * i + 32..] == was[32 * i + 32..];
    forall x | 0 <= x < 32
      ensures now[32 * i + x] == e[x]
    {
      if |text| < x < NAME_LEN {
        assert e[x] == SlotAt(was, i)[x] == was[32 * i + x];
      }
    }
    assert now[32 * i..32 * i + 32] == e;
    assert now == now[..32 * i] + now[32 * i..32 * i + 32] + now[32 * i + 32..];
  }

  // ---- the rows after a call ----

  /** On a packed table the sector written back holds the rows the call comes to. */
  lemma AnsweredRows(s: Sector, name: seq<Byte>, assign: int)
    requires Packed(s) && Plain(name) && name != [] && Respond(Rows(s), name, assign) == Unassigned
    ensures Packed(Answered(s, name, assign)) && Rows(Answered(s, name, assign)) == Updated(Rows(s), name, assign)
  {
    if |Rows(s)| < ENTRIES {
      FilledAppends(s, name, assign);
    }
  }

  // ---- the same in the bytes of the sector ----

  /** Entry `k` of the sixteen is in use, as are all before it. */
  ghost predicate EntryInUse(s: Sector, k: nat) {
    k < 16 && forall j: nat :: j <= k ==> s[32 * j] != 0
  }

  /** `strncmp` takes the name in entry `k` for `name`. */
  ghost predicate EntryFor(s: Sector, k: nat, name: seq<Byte>) {
    EntryInUse(s, k) && Agree(s[32 * k..32 * k + 30], name, 30)
  }

  ghost predicate First(s: Sector, k: nat, name: seq<Byte>) {
    EntryFor(s, k, name) && forall j: nat :: j < k ==> !EntryFor(s, j, name)
  }

  /** The first entry taken for the name has the id, low byte at 30 and high byte at 31; where there is
      none, and an entry to spare, an offer of -1 halts. */
  ghost predicate AnswersInBytes(s: Sector, name: seq<Byte>, assign: int, r: Answer) {
    if exists k: nat :: EntryFor(s, k, name)
    then exists k: nat :: First(s, k, name) && r == Recorded(s[32 * k + 30] as nat + 0x100 * s[32 * k + 31] as nat)
    else r == if assign == -1 && HasRoom(s) then Halt else Unassigned
  }

  ghost predicate HasRoom(s: Sector) {
    exists k :: 0 <= k < 16 && s[32 * k] == 0
  }

  lemma EntryInUseIs(s: Sector, k: nat)
    ensures EntryInUse(s, k) <==> k < |Rows(s)|
  {
    if EntryInUse(s, k) && FirstVacant(s, 0) <= k {
      assert Vacant(s, FirstVacant(s, 0));
    }
    if k < |Rows(s)| {
      forall j: nat | j <= k
        ensures s[32 * j] != 0
      {
        assert !Vacant(s, j);
      }
    }
  }

  lemma EntryForIs(s: Sector, k: nat, name: seq<Byte>)
    requires |name| == NAME_LEN
    ensures EntryFor(s, k, name) <==> k < |Rows(s)| && Alike(Rows(s)[k].name, Text(name))
  {
    EntryInUseIs(s, k);
    if k < 16 {
      WholeNames(NameField(s, k), name);
      SameNameBytes(NameField(s, k), name, NAME_LEN);
    }
  }

  lemma FullIs(s: Sector)
    ensures HasRoom(s) <==> |Rows(s)| < ENTRIES
  {
    if |Rows(s)| < ENTRIES {
      assert Vacant(s, |Rows(s)|);
    }
    if k :| 0 <= k < 16 && s[32 * k] == 0 {
      assert Vacant(s, k);
    }
  }

  lemma TakenRows(s: Sector, name: seq<Byte>)
    requires |name| == NAME_LEN
    ensures forall j: nat :: EntryFor(s, j, name) <==> j < |Rows(s)| && Alike(Rows(s)[j].name, Text(name))
  {
    forall j: nat
      ensures EntryFor(s, j, name) <==> j < |Rows(s)| && Alike(Rows(s)[j].name, Text(name))
    {
      EntryForIs(s, j, name);
    }
  }

  lemma FirstTaken(s: Sector, name: seq<Byte>, k: nat)
    requires |name| == NAME_LEN && k == Find(Rows(s), Text(name)) < |Rows(s)|
    ensures First(s, k, name)
    ensures Rows(s)[k].id == s[32 * k + 30] as nat + 0x100 * s[32 * k + 31] as nat
  {
    TakenRows(s, name);
    assert Rows(s)[k] == RowAt(s, k);
  }

  lemma NoneTaken(s: Sector, name: seq<Byte>)
    requires |name| == NAME_LEN && Find(Rows(s), Text(name)) == |Rows(s)|
    ensures forall j: nat :: !EntryFor(s, j, name)
  {
    TakenRows(s, name);
  }

  /** What a call answers, in bytes. */
  lemma AnswerBytes(s: Sector, name: seq<Byte>, assign: int)
    requires |name| == NAME_LEN
    ensures AnswersInBytes(s, name, assign, Respond(Rows(s), Text(name), assign))
  {
    var k, r := Find(Rows(s), Text(name)), Respond(Rows(s), Text(name), assign);
    if k < |Rows(s)| {
      FirstTaken(s, name, k);
      AnswersFirst(s, name, assign, r, k);
    } else {
      NoneTaken(s, name);
      FullIs(s);
    }
  }

  lemma AnswersFirst(s: Sector, name: seq<Byte>, assign: int, r: Answer, k: nat)
    requires First(s, k, name) && r == Recorded(s[32 * k + 30] as nat + 0x100 * s[32 * k + 31] as nat)
    ensures AnswersInBytes(s, name, assign, r)
  {
  }

  /** `u` is `s` with one entry filled, the first vacant one: the name, at most 29 bytes of it, then 0,
      and the id cut to 16 bits at 30, low byte first. Without a vacant entry it is `s`. */
  ghost predicate WritesInBytes(s: Sector, u: Sector, name: seq<Byte>, id: int) {
    if exists k: nat :: FirstFree(s, k)
    then exists k: nat :: FirstFree(s, k) && FillsEntry(s, u, k, name, id)
    else u == s
  }

  ghost predicate FirstFree(s: Sector, k: nat) {
    k < 16 && s[32 * k] == 0 && forall j: nat :: j < k ==> s[32 * j] != 0
  }

  ghost predicate FillsEntry(s: Sector, u: Sector, k: nat, name: seq<Byte>, id: int)
    requires k < 16
  {
    var n := if |name| < 29 then |name| else 29;
    && (forall x :: 0 <= x < n ==> u[32 * k + x] == name[x]) && u[32 * k + n] == 0
    && u[32 * k + 30] as int + 0x100 * u[32 * k + 31] as int == id % 0x1_0000
    && forall x :: 0 <= x < 512 && !(32 * k <= x <= 32 * k + n) && x != 32 * k + 30 && x != 32 * k + 31 ==> u[x] == s[x]
  }

  lemma FirstFreeIs(s: Sector, k: nat)
    ensures FirstFree(s, k) <==> k == |Rows(s)| < ENTRIES
  {
    if FirstFree(s, k) {
      forall j | 0 <= j < k
        ensures !Vacant(s, j)
      {
        assert s[32 * j] != 0;
      }
      assert Vacant(s, k);
      RowsCount(s, k);
    }
    if k == |Rows(s)| < ENTRIES {
      forall j: nat | j < k
        ensures s[32 * j] != 0
      {
        assert !Vacant(s, j);
      }
      assert Vacant(s, k);
    }
  }

  lemma StoredBytes(e: Slot, name: seq<Byte>, id: int, n: nat)
    requires n == if |name| < 29 then |name| else 29
    ensures var u := Stored(e, name, id);
            && (forall x :: 0 <= x < n ==> u[x] == name[x]) && u[n] == 0
            && u[30] as int + 0x100 * u[31] as int == id % 0x1_0000
            && forall x :: n < x < 30 ==> u[x] == e[x]
  {
    TwoBytes(id);
  }

  lemma FilledBytes(s: Sector, k: nat, name: seq<Byte>, id: int)
    requires k < 16
    ensures FillsEntry(s, Filled(s, k, name, id), k, name, id)
  {
    var e, n := SlotAt(s, k), if |name| < 29 then |name| else 29;
    var f, u := Stored(e, name, id), Filled(s, k, name, id);
    StoredBytes(e, name, id, n);
    FilledAt(s, k, f, u);
  }

  lemma FilledAt(s: Sector, k: nat, f: Slot, u: Sector)
    requires k < 16 && u == s[..32 * k] + f + s[32 * k + 32..]
    ensures forall x :: 0 <= x < 32 ==> u[32 * k + x] == f[x]
    ensures forall x :: 0 <= x < 512 && !(32 * k <= x < 32 * k + 32) ==> u[x] == s[x]
    ensures forall x :: 32 * k <= x < 32 * k + 32 ==> u[x] == f[x - 32 * k] && s[x] == SlotAt(s, k)[x - 32 * k]
  {
  }

  /** What a call that returns -1 writes back, in bytes. */
  lemma AnsweredBytes(s: Sector, name: seq<Byte>, assign: int)
    ensures WritesInBytes(s, Answered(s, name, assign), name, assign)
  {
    var k := |Rows(s)|;
    forall j: nat
      ensures FirstFree(s, j) <==> j == k < ENTRIES
    {
      FirstFreeIs(s, j);
    }
    if k < ENTRIES {
      FilledBytes(s, k, name, assign);
      assert FirstFree(s, k);
    }
  }

  /** The answer of a call and, if that is -1, the sector it writes, in bytes. */
  ghost predicate CallInBytes(s: Sector, name: seq<Byte>, assign: int, r: Answer, u: Sector) {
    forall k: nat {:trigger Show(k)} ::
      Show(k) ==> AnswersInBytes(s, name, assign, r) && (r == Unassigned ==> WritesInBytes(s, u, Text(name), assign))
  }

  lemma CallBytes(s: Sector, name: seq<Byte>, assign: int)
    requires |name| == NAME_LEN
    ensures CallInBytes(s, name, assign, Respond(Rows(s), Text(name), assign), Answered(s, Text(name), assign))
  {
    AnswerBytes(s, name, assign);
    AnsweredBytes(s, Text(name), assign);
  }
}