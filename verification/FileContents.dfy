/** What creating a file does to the contents of clusters: every cluster in use outside the
    directory keeps its sectors in every image along the way, and the new file starts out blank. */
module FileContents {
  import opened Bytes
  import opened Card
  import opened Volume
  import opened Chains
  import opened Directory
  import opened Effects
  import opened FileCreation
  import opened FileSystem

  /** Cluster `c` has the same sectors in both images. */
  ghost predicate KeepsCluster(g: Geometry, d: Image, d': Image, c: nat) {
    forall s: nat :: s < g.spc ==> Read(d', SectorLba(g, c, s)) == Read(d, SectorLba(g, c, s))
  }

  // ---- the directory writes ----

  /** A write to the directory leaves clusters outside it alone. */
  lemma DirSectorElsewhere(g: Geometry, m: Image, p: seq<nat>, j: nat, x: Sector, c: nat)
    requires Sane(g) && ClustersDistinct(g, p) && j < |DirLbas(g, p)| && IsCluster(g, c) && c !in p
    ensures KeepsCluster(g, m, m[DirLbas(g, p)[j] := x], c)
  {
    var i, k := SectorOwner(g, p, j);
    forall s: nat | s < g.spc
      ensures SectorLba(g, c, s) != DirLbas(g, p)[j]
    {
      AddressInjective(g, c, s, p[i], k);
    }
  }

  lemma DirImagesElsewhere(g: Geometry, m: Image, p: seq<nat>, j: nat, w: seq<Slot>, i: nat, c: nat, k: nat)
    requires Sane(g) && ClustersDistinct(g, p) && j < |DirLbas(g, p)| && IsCluster(g, c) && c !in p
    requires |w| == SLOTS && i < SLOTS
    requires k < |DirImages(m, DirLbas(g, p)[j], w, i, (j + 1) % g.spc == 0)|
    ensures KeepsCluster(g, m, DirImages(m, DirLbas(g, p)[j], w, i, (j + 1) % g.spc == 0)[k], c)
  {
    var lba := DirLbas(g, p)[j];
    if i < SLOTS - 1 {
      DirSectorElsewhere(g, m, p, j, EncodeSlots(w[i + 1 := Cleared(w[i + 1])]), c);
    } else {
      DirSectorElsewhere(g, m, p, j, EncodeSlots(w), c);
      if (j + 1) % g.spc != 0 {
        NextDirSector(g, p, j);
        DirSectorElsewhere(g, m[lba := EncodeSlots(w)], p, j + 1, EncodeSlots(w[0 := Cleared(w[0])]), c);
      }
    }
  }

  lemma InPlaceTail(g: Geometry, d: Image, e: Creation, c: nat, k: nat)
    requires Sane(g) && InPlace(g, d, e) && IsCluster(g, c) && c !in NewRoot(e) && k < |e.tail|
    ensures KeepsCluster(g, e.mid, e.tail[k], c)
  {
    var t := TerminalSlot(g, d, e);
    var j, i := t / SLOTS, t % SLOTS;
    InPlaceReady(g, d, e, j, i);
    assert InLastSector(t, g.spc) <==> (j + 1) % g.spc == 0;
    DirImagesElsewhere(g, e.mid, e.root, j, SectorSlots(OldSlots(g, d, e), j)[i := Record(g, d, e)], i, c, k);
  }

  lemma ExtendedTail(g: Geometry, d: Image, e: Creation, c: nat, k: nat)
    requires Sane(g) && Extended(g, d, e) && IsCluster(g, c) && c !in NewRoot(e) && k < |e.tail|
    ensures KeepsCluster(g, e.mid, e.tail[k], c)
  {
    ExtendedFacts(g, d, e);
    assert e.grown[0] in NewRoot(e) && IsCluster(g, e.grown[0]);
    forall s: nat | s < g.spc
      ensures SectorLba(g, c, s) != SectorLba(g, e.grown[0], 0)
    {
      AddressInjective(g, c, s, e.grown[0], 0);
    }
  }

  lemma TailKeeps(g: Geometry, d: Image, e: Creation, c: nat, k: nat)
    requires Sane(g) && Creates(g, d, e) && IsCluster(g, c) && c !in NewRoot(e) && k < |e.tail|
    ensures KeepsCluster(g, e.mid, e.tail[k], c)
  {
    if InPlace(g, d, e) {
      InPlaceTail(g, d, e, c, k);
    } else {
      ExtendedTail(g, d, e, c, k);
    }
  }

  // ---- clusters in use ----

  ghost predicate InUse(g: Geometry, d: Image, c: nat) {
    IsCluster(g, c) && FatOf(g, d)[c] != 0
  }

  /** The cluster's sectors and its FAT entry are the same in both images. */
  ghost predicate Untouched(g: Geometry, d: Image, d': Image, c: nat)
    requires IsCluster(g, c)
  {
    KeepsCluster(g, d, d', c) && FatOf(g, d')[c] == FatOf(g, d)[c]
  }

  lemma QuietUntouched(g: Geometry, d: Image, d': Image, ex: set<nat>, c: nat)
    requires Quiet(g, d, d', ex) && InUse(g, d, c) && c !in ex
    ensures Untouched(g, d, d', c) && InUse(g, d', c)
  {
  }

  lemma InPlaceUntouched(g: Geometry, d: Image, e: Creation, c: nat, k: nat)
    requires Sane(g) && InPlace(g, d, e) && InUse(g, d, c) && k < |e.during|
    ensures Untouched(g, d, e.during[k], c) && Untouched(g, d, e.mid, c) && c !in Handed(e)
  {
    InPlaceFacts(g, d, e);
    AllocatesFacts(g, d, e.mid, e.files, e.during);
    QuietUntouched(g, d, e.during[k], {}, c);
    QuietUntouched(g, d, e.mid, {}, c);
    CreationAccounting(g, d, e);
  }

  lemma GrowthUntouched(g: Geometry, d: Image, e: Creation, c: nat)
    requires Sane(g) && Extended(g, d, e) && InUse(g, d, c) && c !in e.root
    ensures forall k :: 0 <= k < |e.before| ==> Untouched(g, d, e.before[k], c)
    ensures Untouched(g, d, e.linked, c) && InUse(g, e.linked, c)
  {
    ExtendedParts(g, d, e);
    QuietUntouched(g, d, e.before[0], {}, c);
    QuietUntouched(g, d, e.before[1], {}, c);
    var last := e.root[|e.root| - 1];
    assert last in e.root;
    QuietUntouched(g, d, e.linked, {last}, c);
  }

  lemma ExtendedUntouched(g: Geometry, d: Image, e: Creation, c: nat)
    requires Sane(g) && Extended(g, d, e) && InUse(g, e.linked, c) && Untouched(g, d, e.linked, c)
    ensures forall k :: 0 <= k < |e.during| ==> Untouched(g, d, e.during[k], c)
    ensures Untouched(g, d, e.mid, c)
  {
    assert Allocates(g, e.linked, e.mid, e.files, e.during) by {
      ExtendedFacts(g, d, e);
    }
    AllocatesFacts(g, e.linked, e.mid, e.files, e.during);
    QuietUntouched(g, e.linked, e.mid, {}, c);
    forall k | 0 <= k < |e.during|
      ensures Untouched(g, d, e.during[k], c)
    {
      QuietUntouched(g, e.linked, e.during[k], {}, c);
    }
  }

  lemma WrittenSameFat(g: Geometry, m: Image, p: seq<nat>, s: seq<Slot>, t: nat, r: Slot, tail: seq<Image>, k: nat)
    requires Written(g, m, p, s, t, r, tail) && k < |tail|
    ensures FatOf(g, tail[k]) == FatOf(g, m)
  {
  }

  lemma InPlaceTailFat(g: Geometry, d: Image, e: Creation, k: nat)
    requires Sane(g) && InPlace(g, d, e) && k < |e.tail|
    ensures FatOf(g, e.tail[k]) == FatOf(g, e.mid)
  {
    InPlaceSlots(g, d, e);
    WrittenSameFat(g, e.mid, e.root, OldSlots(g, d, e), TerminalSlot(g, d, e), Record(g, d, e), e.tail, k);
  }

  lemma ExtendedTailFat(g: Geometry, d: Image, e: Creation, k: nat)
    requires Sane(g) && Extended(g, d, e) && k < |e.tail|
    ensures FatOf(g, e.tail[k]) == FatOf(g, e.mid)
  {
    var stale := ExtendedSlots(g, d, e);
  }

  lemma NotHanded(g: Geometry, d: Image, e: Creation, c: nat)
    requires Sane(g) && Creates(g, d, e) && InUse(g, d, c) && c !in e.root
    ensures c !in Handed(e) && c !in NewRoot(e)
  {
    CreationAccounting(g, d, e);
    assert forall x :: x in Handed(e) ==> exists i :: 0 <= i < |Handed(e)| && Handed(e)[i] == x;
    assert forall x :: x in e.grown ==> x in Handed(e);
  }

  lemma TailUntouched(g: Geometry, d: Image, e: Creation, c: nat, k: nat)
    requires Sane(g) && Creates(g, d, e) && InUse(g, d, c) && c !in e.root && k < |e.tail|
    requires Untouched(g, d, e.mid, c)
    ensures Untouched(g, d, e.tail[k], c)
  {
    NotHanded(g, d, e, c);
    TailKeeps(g, d, e, c, k);
    if InPlace(g, d, e) {
      InPlaceTailFat(g, d, e, k);
    } else {
      ExtendedTailFat(g, d, e, k);
    }
  }

  /** Creating a file touches no cluster in use outside the directory: not in the end, and not in
      any image along the way. */
  lemma CreationKeepsClusters(g: Geometry, d: Image, e: Creation, c: nat)
    requires Sane(g) && Creates(g, d, e) && InUse(g, d, c) && c !in e.root
    ensures forall k :: 0 <= k < |Images(e)| ==> Untouched(g, d, Images(e)[k], c)
    ensures Untouched(g, d, Final(e), c) && InUse(g, Final(e), c) && c !in NewRoot(e)
  {
    NotHanded(g, d, e, c);
    if InPlace(g, d, e) {
      InPlaceKeepsClusters(g, d, e, c);
    } else {
      ExtendedKeepsClusters(g, d, e, c);
    }
  }

  lemma InPlaceKeepsClusters(g: Geometry, d: Image, e: Creation, c: nat)
    requires Sane(g) && InPlace(g, d, e) && InUse(g, d, c) && c !in e.root
    ensures forall k :: 0 <= k < |Images(e)| ==> Untouched(g, d, Images(e)[k], c)
    ensures Untouched(g, d, Final(e), c)
  {
    assert e.before == [] && e.grown == [] && |e.during| > 0 && |e.tail| > 0 by {
      InPlaceFacts(g, d, e);
      AllocatesFacts(g, d, e.mid, e.files, e.during);
    }
    assert Images(e) == e.during + e.tail;
    InPlaceUntouched(g, d, e, c, 0);
    TailUntouched(g, d, e, c, |e.tail| - 1);
    forall k | 0 <= k < |Images(e)|
      ensures Untouched(g, d, Images(e)[k], c)
    {
      if k < |e.during| {
        InPlaceUntouched(g, d, e, c, k);
      } else {
        TailUntouched(g, d, e, c, k - |e.during|);
      }
    }
  }

  lemma ExtendedKeepsClusters(g: Geometry, d: Image, e: Creation, c: nat)
    requires Sane(g) && Extended(g, d, e) && InUse(g, d, c) && c !in e.root
    ensures forall k :: 0 <= k < |Images(e)| ==> Untouched(g, d, Images(e)[k], c)
    ensures Untouched(g, d, Final(e), c)
  {
    ExtendedParts(g, d, e);
    GrowthUntouched(g, d, e, c);
    ExtendedUntouched(g, d, e, c);
    TailUntouched(g, d, e, c, 0);
    forall k | 0 <= k < |Images(e)|
      ensures Untouched(g, d, Images(e)[k], c)
    {
      ExtendedImageAt(e, k);
    }
  }

  // ---- the new file ----

  /** A new file's clusters start with a blank sector. */
  lemma FreshFileIsBlank(g: Geometry, d: Image, e: Creation, c: nat)
    requires Sane(g) && Creates(g, d, e) && c in e.files
    ensures Read(Final(e), SectorLba(g, c, 0)) == BLANK && InUse(g, Final(e), c) && c !in NewRoot(e)
  {
    CreationForest(g, d, e);
    ChainAllocated(FatOf(g, Final(e)), e.files, c);
    assert |e.tail| > 0 && Read(e.mid, SectorLba(g, c, 0)) == BLANK && g.spc > 0 by {
      if InPlace(g, d, e) {
        InPlaceFacts(g, d, e);
        AllocatesFacts(g, d, e.mid, e.files, e.during);
      } else {
        ExtendedFacts(g, d, e);
        AllocatesFacts(g, e.linked, e.mid, e.files, e.during);
      }
    }
    TailKeeps(g, d, e, c, |e.tail| - 1);
  }
}
