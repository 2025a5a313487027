/** What the operations of pi-src/fat32.c do to the card, write by write. The methods of Fat32 are
    proved to have these effects; CrashSafety and FileSystem reason about them. */
module Effects {
  import opened Bytes
  import opened Card
  import opened Volume
  import opened Chains
  import opened Directory

  // ---- writes that disturb nothing in use ----

  /** Going from `d` to `d'` left alone the partition table, the volume header, every FAT entry in
      use except those of clusters in `ex`, and every sector of every cluster in use. */
  ghost predicate Quiet(g: Geometry, d: Image, d': Image, ex: set<nat>) {
    && Read(d', 0) == Read(d, 0) && Read(d', g.partBegin) == Read(d, g.partBegin)
    && (forall c: nat :: c < Entries(g) && c !in ex && (c < 2 || FatOf(g, d)[c] != 0) ==>
                           FatOf(g, d')[c] == FatOf(g, d)[c])
    && (forall c: nat, s: nat :: IsCluster(g, c) && FatOf(g, d)[c] != 0 && s < g.spc ==>
                                   Read(d', SectorLba(g, c, s)) == Read(d, SectorLba(g, c, s)))
  }

  lemma QuietTrans(g: Geometry, d: Image, d': Image, d'': Image, ex: set<nat>)
    requires Quiet(g, d, d', ex) && Quiet(g, d', d'', {})
    requires forall c :: c in ex && c < Entries(g) ==> FatOf(g, d')[c] != 0
    ensures Quiet(g, d, d'', ex)
    ensures forall c :: c in ex && c < Entries(g) ==> FatOf(g, d'')[c] == FatOf(g, d')[c]
  {
  }

  ghost predicate SameOutsideFat(g: Geometry, d: Image, d': Image) {
    forall lba: nat :: !InFat(g, lba) ==> Read(d', lba) == Read(d, lba)
  }

  /** Rewriting the FAT is quiet when the entries in use keep their values. */
  lemma QuietFatWrite(g: Geometry, d: Image, d': Image, d'': Image, ex: set<nat>)
    requires Sane(g) && Quiet(g, d, d', ex) && SameOutsideFat(g, d', d'')
    requires var f, f'' := FatOf(g, d), FatOf(g, d'');
             forall c: nat :: c < Entries(g) && c !in ex && (c < 2 || f[c] != 0) ==> f''[c] == f[c]
    ensures Quiet(g, d, d'', ex)
  {
    forall c: nat, s: nat | IsCluster(g, c) && FatOf(g, d)[c] != 0 && s < g.spc
      ensures Read(d'', SectorLba(g, c, s)) == Read(d, SectorLba(g, c, s))
    {
      AddressRange(g, c, s);
    }
  }

  /** Writing a sector of a free cluster is quiet. */
  lemma QuietDataWrite(g: Geometry, d: Image, d': Image, c: nat, k: nat, s: Sector, ex: set<nat>)
    requires Sane(g) && Quiet(g, d, d', ex) && IsCluster(g, c) && k < g.spc && FatOf(g, d)[c] == 0
    ensures Quiet(g, d, d'[SectorLba(g, c, k) := s], ex)
    ensures FatOf(g, d'[SectorLba(g, c, k) := s]) == FatOf(g, d')
  {
    AddressRange(g, c, k);
    FatUntouched(g, d', SectorLba(g, c, k), s);
    forall x: nat, y: nat | IsCluster(g, x) && FatOf(g, d)[x] != 0 && y < g.spc
      ensures SectorLba(g, x, y) != SectorLba(g, c, k)
    {
      AddressInjective(g, x, y, c, k);
    }
  }

  // ---- handing out clusters ----

  /** Outside the FAT, only the first sectors of the clusters `a` changed, and they are blank. */
  ghost predicate OnlyBlanked(g: Geometry, d: Image, d': Image, a: seq<nat>) {
    && (forall lba: nat :: !InFat(g, lba) && (forall c :: c in a ==> lba != SectorLba(g, c, 0)) ==>
                             Read(d', lba) == Read(d, lba))
    && (forall c :: c in a ==> Read(d', SectorLba(g, c, 0)) == BLANK)
  }

  /** Flushing the sector of the one entry that changed. */
  lemma FlushEntry(g: Geometry, d: Image, f: Fat, c: nat, v: Word, s: Sector)
    requires Sane(g) && c < Entries(g) && f == FatOf(g, d)
    requires HoldsWords(s, Slice(f[c := v], c / WORDS_PER_SECTOR))
    ensures var d' := d[g.fatBegin + c / WORDS_PER_SECTOR := s];
            FatOf(g, d') == f[c := v] && SameOutsideFat(g, d, d')
  {
    FlushSector(g, d, f[c := v], c / WORDS_PER_SECTOR, s);
  }

  /** The two writes that hand out the free cluster `c`: its entry, then its blank sector. */
  lemma Claim(g: Geometry, d: Image, m: Image, d': Image, c: nat)
    requires Sane(g) && LeastFree(FatOf(g, d), c)
    requires FatOf(g, m) == FatOf(g, d)[c := END] && SameOutsideFat(g, d, m)
    requires d' == m[SectorLba(g, c, 0) := BLANK]
    ensures FatOf(g, d') == FatOf(g, m)
    ensures Quiet(g, d, m, {}) && Quiet(g, d, d', {}) && OnlyBlanked(g, d, d', [c])
  {
    QuietFatWrite(g, d, d, m, {});
    QuietDataWrite(g, d, m, c, 0, BLANK, {});
  }

  lemma OnlyBlankedTrans(g: Geometry, d: Image, d': Image, d'': Image, a: seq<nat>, c: nat)
    requires Sane(g) && OnlyBlanked(g, d, d', a) && OnlyBlanked(g, d', d'', [c])
    requires forall x :: x in a ==> IsCluster(g, x)
    ensures OnlyBlanked(g, d, d'', a + [c])
  {
    assert c in [c] && c in a + [c];
    forall lba: nat | !InFat(g, lba) && (forall x :: x in a + [c] ==> lba != SectorLba(g, x, 0))
      ensures Read(d'', lba) == Read(d, lba)
    {
      assert forall x :: x in a ==> x in a + [c];
    }
    forall x | x in a + [c]
      ensures Read(d'', SectorLba(g, x, 0)) == BLANK
    {
      if SectorLba(g, x, 0) != SectorLba(g, c, 0) {
        assert x in a;
        AddressRange(g, x, 0);
      }
    }
  }

  /** One round of the allocation loop: hand out `c` (image `m`, then `d2`), then link it behind the
      last cluster of `a` (image `d3`). */
  lemma AllocStep(g: Geometry, d: Image, d1: Image, m: Image, d2: Image, d3: Image, a: seq<nat>, c: nat)
    requires Sane(g) && |a| > 0 && FirstFit(FatOf(g, d), a)
    requires Linked(FatOf(g, d), FatOf(g, d1), a) && OnlyBlanked(g, d, d1, a) && Quiet(g, d, d1, {})
    requires LeastFree(FatOf(g, d1), c) && FatOf(g, d2) == FatOf(g, d1)[c := END]
    requires Quiet(g, d1, m, {}) && Quiet(g, d1, d2, {}) && OnlyBlanked(g, d1, d2, [c])
    requires FatOf(g, d3) == FatOf(g, d2)[a[|a| - 1] := c] && SameOutsideFat(g, d2, d3)
    ensures FirstFit(FatOf(g, d), a + [c]) && Linked(FatOf(g, d), FatOf(g, d3), a + [c])
    ensures OnlyBlanked(g, d, d3, a + [c])
    ensures Quiet(g, d, m, {}) && Quiet(g, d, d2, {}) && Quiet(g, d, d3, {})
  {
    var f := FatOf(g, d);
    FirstFitExtends(f, FatOf(g, d1), a, c);
    LinkedExtends(f, FatOf(g, d1), a, c);
    QuietTrans(g, d, d1, m, {});
    QuietTrans(g, d, d1, d2, {});
    assert Allocatable(f, a[|a| - 1]);
    QuietFatWrite(g, d, d2, d3, {});
    BlankStep(g, d, d1, d2, d3, a, c);
  }

  lemma BlankStep(g: Geometry, d: Image, d1: Image, d2: Image, d3: Image, a: seq<nat>, c: nat)
    requires Sane(g) && FirstFit(FatOf(g, d), a + [c])
    requires OnlyBlanked(g, d, d1, a) && OnlyBlanked(g, d1, d2, [c]) && SameOutsideFat(g, d2, d3)
    ensures OnlyBlanked(g, d, d3, a + [c])
  {
    forall x | x in a + [c]
      ensures IsCluster(g, x) && !InFat(g, SectorLba(g, x, 0))
    {
      var i :| 0 <= i < |a + [c]| && (a + [c])[i] == x;
      assert Allocatable(FatOf(g, d), (a + [c])[i]);
      AddressRange(g, x, 0);
    }
    assert forall x :: x in a ==> x in a + [c];
    OnlyBlankedTrans(g, d, d1, d2, a, c);
  }

  /** The clusters `a` were handed out first-fit and linked into one chain; `during` are the
      images after each sector write, the last of them being `d'`. */
  ghost predicate AllocatesBody(g: Geometry, d: Image, d': Image, a: seq<nat>, during: seq<Image>) {
    && |a| > 0
    && FirstFit(FatOf(g, d), a)
    && Linked(FatOf(g, d), FatOf(g, d'), a)
    && OnlyBlanked(g, d, d', a)
    && (forall k :: 0 <= k < |during| ==> Quiet(g, d, during[k], {}))
    && LosesWithin(g, d, a, during)
    && |during| > 0 && during[|during| - 1] == d'
  }

  /** Each of the images has lost no free cluster but some first ones of `a`. */
  ghost predicate LosesWithin(g: Geometry, d: Image, a: seq<nat>, images: seq<Image>) {
    forall k: nat {:trigger Show(k)} :: Show(k) && k < |images| ==> LosesSome(FatOf(g, d), FatOf(g, images[k]), a)
  }

  ghost predicate Allocates(g: Geometry, d: Image, d': Image, a: seq<nat>, during: seq<Image>) {
    |a| > 0 && forall k: nat {:trigger Show(k)} :: Show(k) ==> AllocatesBody(g, d, d', a, during)
  }

  lemma AllocatesFacts(g: Geometry, d: Image, d': Image, a: seq<nat>, during: seq<Image>)
    requires Allocates(g, d, d', a, during)
    ensures FirstFit(FatOf(g, d), a) && Linked(FatOf(g, d), FatOf(g, d'), a) && OnlyBlanked(g, d, d', a)
    ensures Quiet(g, d, d', {}) && |during| > 0 && during[|during| - 1] == d'
    ensures forall k :: 0 <= k < |during| ==> Quiet(g, d, during[k], {})
  {
    assert Show(0);
  }

  lemma AllocatesWithin(g: Geometry, d: Image, d': Image, a: seq<nat>, during: seq<Image>, k: nat)
    requires Allocates(g, d, d', a, during) && k < |during|
    ensures LosesSome(FatOf(g, d), FatOf(g, during[k]), a)
  {
    assert Show(k);
  }

  lemma LosesWithinFirst(g: Geometry, d: Image, m: Image, d': Image, c: nat)
    requires LeastFree(FatOf(g, d), c)
    requires FatOf(g, m) == FatOf(g, d)[c := END] && FatOf(g, d') == FatOf(g, d)[c := END]
    ensures LosesWithin(g, d, [c], [m, d'])
  {
    EndedFree(FatOf(g, d), c);
    assert Elements([c]) == {c};
    LosesAll(FatOf(g, d), FatOf(g, m), [c]);
  }

  lemma LosesWithinMore(g: Geometry, d: Image, d1: Image, m: Image, d2: Image, d3: Image, a: seq<nat>,
                        during: seq<Image>, c: nat)
    requires Sane(g) && LosesWithin(g, d, a, during) && |a| > 0
    requires FirstFit(FatOf(g, d), a) && Linked(FatOf(g, d), FatOf(g, d1), a) && LeastFree(FatOf(g, d1), c)
    requires FatOf(g, m) == FatOf(g, d1)[c := END] && FatOf(g, d2) == FatOf(g, d1)[c := END]
    requires FatOf(g, d3) == FatOf(g, d2)[a[|a| - 1] := c]
    ensures LosesWithin(g, d, a + [c], during + [m, d2, d3])
  {
    var f := FatOf(g, d);
    NewlyLost(f, FatOf(g, d1), FatOf(g, d2), FatOf(g, d3), a, c);
    var more := during + [m, d2, d3];
    forall k: nat {:trigger Show(k)} | k < |more|
      ensures LosesSome(f, FatOf(g, more[k]), a + [c])
    {
      if k < |during| {
        assert Show(k) && more[k] == during[k];
        LosesLonger(f, FatOf(g, during[k]), a, c);
      }
    }
  }

  lemma NewlyLost(f: Fat, f1: Fat, f2: Fat, f3: Fat, a: seq<nat>, c: nat)
    requires |f| <= END && |a| > 0 && FirstFit(f, a) && Linked(f, f1, a) && LeastFree(f1, c)
    requires f2 == f1[c := END] && f3 == f2[a[|a| - 1] := c]
    ensures LosesSome(f, f2, a + [c]) && LosesSome(f, f3, a + [c])
  {
    assert FreeSet(f2) == FreeSet(f) - Elements(a + [c]) by {
      FreeAccounting(f, f1, a);
      EndedFree(f1, c);
      ElementsSnoc(a, c);
    }
    assert FreeSet(f3) == FreeSet(f2) by {
      LinkKeepsFree(f, f1, f2, a, c);
    }
    LosesAll(f, f2, a + [c]);
    LosesAll(f, f3, a + [c]);
  }

  lemma LinkKeepsFree(f: Fat, f1: Fat, f2: Fat, a: seq<nat>, c: nat)
    requires |f| <= END && |a| > 0 && FirstFit(f, a) && Linked(f, f1, a) && LeastFree(f1, c)
    requires f2 == f1[c := END]
    ensures a[|a| - 1] < |f2| && FreeSet(f2[a[|a| - 1] := c]) == FreeSet(f2)
  {
    assert Allocatable(f, a[|a| - 1]);
    FirstFitExtends(f, f1, a, c);
    LinkedFree(f2, a[|a| - 1], c);
  }

  /** Two writes, with images `m` and `d'`, handed out the least free cluster `c`: it has the end mark
      from the first write on, and is blank after the second. */
  ghost predicate HandsOut(g: Geometry, d: Image, m: Image, d': Image, c: nat) {
    && LeastFree(FatOf(g, d), c) && FatOf(g, m) == FatOf(g, d)[c := END] && FatOf(g, d') == FatOf(g, d)[c := END]
    && Quiet(g, d, m, {}) && Quiet(g, d, d', {}) && OnlyBlanked(g, d, d', [c])
  }

  lemma AllocatesFirst(g: Geometry, d: Image, m: Image, d': Image, c: nat)
    requires Sane(g) && HandsOut(g, d, m, d', c)
    ensures Allocates(g, d, d', [c], [m, d'])
  {
    LosesWithinFirst(g, d, m, d', c);
    LinkedStarts(FatOf(g, d), c);
  }

  lemma AllocatesMore(g: Geometry, d: Image, d1: Image, m: Image, d2: Image, d3: Image, a: seq<nat>,
                      during: seq<Image>, prev: nat, c: nat)
    requires Sane(g) && Allocates(g, d, d1, a, during) && HandsOut(g, d1, m, d2, c)
    requires prev == a[|a| - 1] && prev < Entries(g)
    requires FatOf(g, d3) == FatOf(g, d2)[prev := c] && SameOutsideFat(g, d2, d3)
    ensures Allocates(g, d, d3, a + [c], during + [m, d2, d3])
  {
    assert Show(0);
    AllocStep(g, d, d1, m, d2, d3, a, c);
    LosesWithinMore(g, d, d1, m, d2, d3, a, during, c);
    MoreImages(g, d, during, m, d2, d3);
  }

  lemma MoreImages(g: Geometry, d: Image, during: seq<Image>, m: Image, d2: Image, d3: Image)
    requires forall k :: 0 <= k < |during| ==> Quiet(g, d, during[k], {})
    requires Quiet(g, d, m, {}) && Quiet(g, d, d2, {}) && Quiet(g, d, d3, {})
    ensures var more := during + [m, d2, d3];
            (forall k :: 0 <= k < |more| ==> Quiet(g, d, more[k], {})) && more[|more| - 1] == d3
  {
  }

  /** The last cluster handed out so far, and how many are still free. */
  lemma AllocatesLeaves(g: Geometry, d: Image, d': Image, a: seq<nat>, during: seq<Image>)
    requires Sane(g) && Allocates(g, d, d', a, during)
    ensures IsCluster(g, a[|a| - 1]) && a[|a| - 1] < Entries(g)
    ensures CountFree(FatOf(g, d')) == CountFree(FatOf(g, d)) - |a|
  {
    assert Show(0);
    FreeAccounting(FatOf(g, d), FatOf(g, d'), a);
    assert Allocatable(FatOf(g, d), a[|a| - 1]);
  }

  /** Number of clusters a request for `n` gets: never less than one. */
  function Need(n: nat): nat {
    if n == 0 then 1 else n
  }

  // ---- creating a file ----

  /** A run of file creation: the root directory's clusters, the request, the result, and the
      image after each sector write in order. `linked` is the image from which the file's own
      clusters are taken: the starting image, or the one after the root directory got the cluster
      `grown`. `mid` is the image just before the directory itself is written. */
  datatype Creation = Creation(
    root: seq<nat>, n: nat, name: seq<Byte>, out: Word, grown: seq<nat>, files: seq<nat>,
    before: seq<Image>, linked: Image, during: seq<Image>, mid: Image, tail: seq<Image>)

  ghost function RootSlots(g: Geometry, d: Image, root: seq<nat>): (s: seq<Slot>)
    ensures |s| == SLOTS * (|root| * g.spc)
  {
    Slots(d, DirLbas(g, root))
  }

  function SectorSlots(s: seq<Slot>, j: nat): (rs: seq<Slot>)
    requires SLOTS * j + SLOTS <= |s|
    ensures |rs| == SLOTS
  {
    s[SLOTS * j..SLOTS * j + SLOTS]
  }

  lemma DecodedSlots(s: Sector, rs: seq<Slot>)
    requires |rs| == SLOTS && forall i :: 0 <= i < SLOTS ==> rs[i] == SlotAt(s, i)
    ensures DecodeSlots(s) == rs
  {
  }

  /** The `i`-th cluster of a directory starts with its `j`-th sector. */
  ghost predicate StartsAt(g: Geometry, i: nat, j: nat) {
    forall k: nat {:trigger Show(k)} :: Show(k) && k == i ==> j == k * g.spc
  }

  lemma StartsFirst(g: Geometry)
    ensures StartsAt(g, 0, 0)
  {
  }

  lemma StartsNext(g: Geometry, i: nat, j: nat)
    requires StartsAt(g, i, j)
    ensures StartsAt(g, i + 1, j + g.spc)
  {
    assert Show(i);
    NextProduct(i, g.spc);
  }

  lemma StartsEnd(g: Geometry, d: Image, root: seq<nat>, j: nat)
    requires StartsAt(g, |root|, j)
    ensures |RootSlots(g, d, root)| == SLOTS * j
  {
    assert Show(|root|);
  }

  /** The sector a scan reads at cluster `i`, sector `k` is the next sixteen slots; `j` sectors
      of the directory belong to the clusters before. */
  lemma ScannedSector(g: Geometry, d: Image, root: seq<nat>, i: nat, k: nat, j: nat)
    requires i < |root| && k < g.spc && StartsAt(g, i, j)
    ensures j + k < |DirLbas(g, root)| && DirLbas(g, root)[j + k] == SectorLba(g, root[i], k)
    ensures SLOTS * (j + k) + SLOTS <= |RootSlots(g, d, root)|
    ensures DecodeSlots(Read(d, SectorLba(g, root[i], k))) == SectorSlots(RootSlots(g, d, root), j + k)
  {
    assert Show(i);
    DirLbaAt(g, root, i, k);
    SectorRead(d, DirLbas(g, root), j + k);
  }

  lemma SectorRead(d: Image, a: seq<nat>, j: nat)
    requires j < |a|
    ensures DecodeSlots(Read(d, a[j])) == SectorSlots(Slots(d, a), j)
  {
    var s, sector := Slots(d, a), Read(d, a[j]);
    forall x | 0 <= x < SLOTS
      ensures SectorSlots(s, j)[x] == SlotAt(sector, x)
    {
      SlotsAt(d, a, SLOTS * j + x);
      assert (SLOTS * j + x) / SLOTS == j && (SLOTS * j + x) % SLOTS == x;
    }
    DecodedSlots(sector, SectorSlots(s, j));
  }

  /** The images after each write of the directory, when the sector at `lba` holds the slots `w`
      with the new record at index `i`. */
  function DirImages(mid: Image, lba: nat, w: seq<Slot>, i: nat, last: bool): (r: seq<Image>)
    requires |w| == SLOTS && i < SLOTS
    ensures |r| > 0
  {
    if i < SLOTS - 1 then [mid[lba := EncodeSlots(w[i + 1 := Cleared(w[i + 1])])]]
    else if last then [mid[lba := EncodeSlots(w)]]
    else
      var m := mid[lba := EncodeSlots(w)];
      [m, m[lba + 1 := EncodeSlots(w[0 := Cleared(w[0])])]]
  }

  /** Slot `t` of the directory is slot `i` of sector `k` of cluster `c`. */
  lemma SlotPosition(g: Geometry, c: nat, j: nat, k: nat, i: nat, t: nat)
    requires StartsAt(g, c, j) && k < g.spc && i < SLOTS && t == SLOTS * (j + k) + i
    ensures t / SLOTS == j + k && t % SLOTS == i
    ensures InLastSector(t, g.spc) <==> k == g.spc - 1
  {
    assert Show(c);
    assert t / SLOTS == j + k;
    var q := c * g.spc + k + 1;
    if k == g.spc - 1 {
      assert q == (c + 1) * g.spc;
      ModOf(c + 1, g.spc, 0);
    } else {
      ModOf(c, g.spc, k + 1);
    }
  }

  lemma ModOf(c: nat, n: nat, r: nat)
    requires r < n
    ensures (c * n + r) % n == r
  {
    var x := c * n + r;
    var q, m := x / n, x % n;
    assert x == q * n + m && m < n;
    if q < c {
      Separate(q, c, n, m, r);
    } else if c < q {
      Separate(c, q, n, r, m);
    }
  }

  ghost predicate RootChain(g: Geometry, d: Image, root: seq<nat>) {
    IsChain(FatOf(g, d), root) && root[0] == g.root
  }

  /** The scan goes from each cluster of the directory to the next, and from the last to the end. */
  lemma RootNext(g: Geometry, d: Image, root: seq<nat>, i: nat)
    requires RootChain(g, d, root) && i < |root|
    ensures IsCluster(g, root[i])
    ensures Next(FatOf(g, d), root[i]) == if i + 1 < |root| then root[i + 1] as Word else END
  {
  }

  /** A terminal was found and the record was written over it. */
  ghost predicate InPlaceBody(g: Geometry, d: Image, e: Creation) {
    && RootChain(g, d, e.root) && g.spc > 0 && |e.name| >= 11
    && e.before == [] && e.linked == d && e.grown == []
    && Allocates(g, d, e.mid, e.files, e.during)
    && |e.files| == Need(e.n) && e.out == e.files[0]
    && var s := RootSlots(g, d, e.root);
       var t := Terminal(s);
       && t < |s|
       && e.tail == DirImages(e.mid, DirLbas(g, e.root)[t / SLOTS],
                              SectorSlots(s, t / SLOTS)[t % SLOTS := FileRecord(s[t], e.name, e.out)],
                              t % SLOTS, InLastSector(t, g.spc))
  }

  /** The root directory was full, so it was given the cluster `c` first: images `before` while it
      was handed out, then `linked`. */
  ghost predicate Grows(g: Geometry, d: Image, root: seq<nat>, c: nat, before: seq<Image>, linked: Image) {
    |root| > 0 &&
    var f, last := FatOf(g, d), root[|root| - 1];
    && LeastFree(f, c)
    && |before| == 2 && Quiet(g, d, before[0], {}) && Quiet(g, d, before[1], {})
    && FatOf(g, before[0]) == f[c := END] && FatOf(g, before[1]) == f[c := END]
    && Appended(f, FatOf(g, linked), last, c)
    && Quiet(g, d, linked, {last})
    && OnlyBlanked(g, d, linked, [c])
  }

  ghost predicate ExtendedBody(g: Geometry, d: Image, e: Creation) {
    && RootChain(g, d, e.root) && g.spc > 0 && |e.name| >= 11
    && |e.grown| == 1 && Grows(g, d, e.root, e.grown[0], e.before, e.linked)
    && Allocates(g, e.linked, e.mid, e.files, e.during)
    && |e.files| == Need(e.n) && e.out == e.files[0]
    && var s := RootSlots(g, d, e.root);
       && Terminal(s) == |s| >= SLOTS
       && e.tail == [e.mid[SectorLba(g, e.grown[0], 0) := EncodeSlots(FreshSector(s, e.name, e.out))]]
  }

  ghost predicate InPlace(g: Geometry, d: Image, e: Creation) {
    forall k: nat {:trigger Show(k)} :: Show(k) ==> InPlaceBody(g, d, e)
  }

  ghost predicate Extended(g: Geometry, d: Image, e: Creation) {
    forall k: nat {:trigger Show(k)} :: Show(k) ==> ExtendedBody(g, d, e)
  }

  ghost predicate Creates(g: Geometry, d: Image, e: Creation) {
    InPlace(g, d, e) || Extended(g, d, e)
  }

  /** All images after each write of a creation, in order. */
  ghost function Images(e: Creation): seq<Image> {
    e.before + (if e.grown == [] then [] else [e.linked]) + e.during + e.tail
  }

  lemma GrownImages(h: seq<Image>, e: Creation, x: Image)
    requires e.grown != [] && e.tail == [x]
    ensures h + e.before + [e.linked] + e.during + [x] == h + Images(e)
  {
  }

  /** The image a completed creation leaves. */
  function Final(e: Creation): Image {
    if e.tail == [] then e.mid else e.tail[|e.tail| - 1]
  }

  // ---- the directory writes ----

  /** Writing a data sector changes neither the FAT nor what mounting finds. */
  lemma DataWriteKeeps(g: Geometry, d: Image, c: nat, k: nat, s: Sector)
    requires Sane(g) && IsCluster(g, c) && k < g.spc
    ensures var d' := d[SectorLba(g, c, k) := s];
            FatOf(g, d') == FatOf(g, d) && Read(d', 0) == Read(d, 0) && Read(d', g.partBegin) == Read(d, g.partBegin)
  {
    AddressRange(g, c, k);
    FatUntouched(g, d, SectorLba(g, c, k), s);
  }

  /** Consecutive sectors of one cluster have consecutive addresses. */
  lemma NextSector(g: Geometry, c: nat, k: nat)
    ensures SectorLba(g, c, k + 1) == SectorLba(g, c, k) + 1
  {
    SectorLbaIs(g, c, k);
    SectorLbaIs(g, c, k + 1);
  }

  /** The record goes to slot `r` of sector `k` of the `i`-th root cluster. */
  lemma InPlaceHolds(g: Geometry, d: Image, e: Creation, i: nat, j: nat, k: nat, r: nat, buffer: seq<Slot>)
    requires RootChain(g, d, e.root) && g.spc > 0 && |e.name| >= 11
    requires e.before == [] && e.linked == d && e.grown == []
    requires Allocates(g, d, e.mid, e.files, e.during) && |e.files| == Need(e.n) && e.out == e.files[0]
    requires i < |e.root| && StartsAt(g, i, j) && k < g.spc && r < SLOTS
    requires buffer == DecodeSlots(Read(d, SectorLba(g, e.root[i], k)))
    requires Terminal(RootSlots(g, d, e.root)) == SLOTS * (j + k) + r
    requires e.tail == DirImages(e.mid, SectorLba(g, e.root[i], k), buffer[r := FileRecord(buffer[r], e.name, e.out)],
                                 r, k == g.spc - 1)
    ensures InPlace(g, d, e)
  {
    var s := RootSlots(g, d, e.root);
    var t := Terminal(s);
    ScannedSector(g, d, e.root, i, k, j);
    SlotPosition(g, i, j, k, r, t);
    assert buffer[r] == s[t];
    assert e.tail == DirImages(e.mid, DirLbas(g, e.root)[t / SLOTS],
                               SectorSlots(s, t / SLOTS)[t % SLOTS := FileRecord(s[t], e.name, e.out)],
                               t % SLOTS, InLastSector(t, g.spc));
  }

  /** The cluster `c` was handed out (images `m`, `d2`) and linked behind the root chain. */
  lemma GrowsHolds(g: Geometry, d: Image, m: Image, d2: Image, linked: Image, root: seq<nat>, c: nat)
    requires Sane(g) && RootChain(g, d, root) && HandsOut(g, d, m, d2, c)
    requires FatOf(g, linked) == FatOf(g, d2)[root[|root| - 1] := c] && SameOutsideFat(g, d2, linked)
    ensures Grows(g, d, root, c, [m, d2], linked)
  {
    var last := root[|root| - 1];
    ChainAllocated(FatOf(g, d), root, last);
    QuietFatWrite(g, d, d2, linked, {last});
    AddressRange(g, c, 0);
  }

  lemma GrowsCount(g: Geometry, d: Image, d2: Image, linked: Image, root: seq<nat>, c: nat)
    requires Sane(g) && RootChain(g, d, root)
    requires LeastFree(FatOf(g, d), c) && FatOf(g, d2) == FatOf(g, d)[c := END]
    requires FatOf(g, linked) == FatOf(g, d2)[root[|root| - 1] := c]
    ensures CountFree(FatOf(g, linked)) == CountFree(FatOf(g, d)) - 1
  {
    var f := FatOf(g, d);
    ChainAllocated(f, root, root[|root| - 1]);
    LinkedStarts(f, c);
    FreeAccounting(f, FatOf(g, d2), [c]);
    assert FreeSet(FatOf(g, linked)) == FreeSet(FatOf(g, d2));
  }

  lemma FreshSectorIs(s: seq<Slot>, buffer: seq<Slot>, name: seq<Byte>, c: Word)
    requires |s| >= SLOTS && |name| >= 11 && buffer == s[|s| - SLOTS..]
    ensures buffer[0 := FileRecord(buffer[0], name, c)][1 := Cleared(buffer[1])] == FreshSector(s, name, c)
  {
  }

  lemma ExtendedHolds(g: Geometry, d: Image, e: Creation, c: nat)
    requires RootChain(g, d, e.root) && g.spc > 0 && |e.name| >= 11
    requires e.grown == [c] && Grows(g, d, e.root, c, e.before, e.linked)
    requires Allocates(g, e.linked, e.mid, e.files, e.during) && |e.files| == Need(e.n) && e.out == e.files[0]
    requires var s := RootSlots(g, d, e.root);
             Terminal(s) == |s| >= SLOTS
             && e.tail == [e.mid[SectorLba(g, c, 0) := EncodeSlots(FreshSector(s, e.name, e.out))]]
    ensures Extended(g, d, e)
  {
  }
}
