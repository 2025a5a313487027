/** Healthy cards, and what a power failure between the sector writes of a creation leaves of one: a
    card that is healthy again, from which the next session can go on. */
module PowerFailure {
  import opened Bytes
  import opened Card
  import opened Volume
  import opened Chains
  import opened Directory
  import opened Effects
  import opened FileCreation
  import opened FileSystem
  import opened FileContents
  import opened CrashSafety
  import opened TidyDirectory

  /** A sound, tidy directory. */
  ghost predicate Healthy(g: Geometry, d: Image, root: seq<nat>) {
    forall k: nat {:trigger Show(k)} :: Show(k) ==> Sound(g, d, root) && TidyRoot(g, d, root)
  }

  lemma HealthyIs(g: Geometry, d: Image, root: seq<nat>)
    ensures Healthy(g, d, root) <==> Sound(g, d, root) && TidyRoot(g, d, root)
  {
    assert Show(0);
  }

  // ---- a creation that completes ----

  lemma LastImage(g: Geometry, d: Image, e: Creation) returns (k: nat)
    requires Sane(g) && Creates(g, d, e)
    ensures k + 1 == |Images(e)| && Images(e)[k] == Final(e) && !Midway(e, k)
  {
    assert |e.tail| > 0 by {
      if InPlace(g, d, e) {
        InPlaceSlots(g, d, e);
      } else {
        ExtendedFacts(g, d, e);
      }
    }
    k := |Images(e)| - 1;
  }

  lemma CreationHealthy(g: Geometry, d: Image, e: Creation)
    requires Sane(g) && Healthy(g, d, e.root) && Creates(g, d, e) && |e.name| >= 11 && e.name[0] != 0
    ensures Healthy(g, Final(e), NewRoot(e))
    ensures Mounted(g, d) ==> Mounted(g, Final(e))
    ensures ListOf(g, Final(e), NewRoot(e)) == ListOf(g, d, e.root) + [Record(g, d, e)]
    ensures !IsLfn(Record(g, d, e)) && Name(Record(g, d, e)) == e.name[..11] && FirstCluster(Record(g, d, e)) == e.out
  {
    HealthyIs(g, d, e.root);
    CreationKeepsTidy(g, d, e);
    CreationRefines(g, d, e);
    RecordFields(g, d, e);
    CreationForest(g, d, e);
    var k := LastImage(g, d, e);
    var root := CreationIsCrashSafe(g, d, e, k);
    ChainUnique(FatOf(g, Final(e)), root, NewRoot(e));
  }

  // ---- a creation that is cut short ----

  /** The directory's clusters in image `k`. */
  function CutRoot(e: Creation, k: nat): seq<nat> {
    if e.grown != [] && |e.before| <= k then NewRoot(e) else e.root
  }

  /** What a cut creation leaves: the directory as it was, as far as anyone can see. */
  ghost predicate AsBefore(g: Geometry, d: Image, root: seq<nat>, x: Image, root': seq<nat>) {
    && RootChain(g, x, root') && (Mounted(g, d) ==> Mounted(g, x))
    && (Healthy(g, d, root) ==> Healthy(g, x, root') && ListOf(g, x, root') == ListOf(g, d, root))
  }

  lemma QuietRoot(g: Geometry, d: Image, x: Image, root: seq<nat>)
    requires Sane(g) && RootChain(g, d, root) && Quiet(g, d, x, {})
    ensures RootChain(g, x, root) && RootSlots(g, x, root) == RootSlots(g, d, root)
  {
    var f := FatOf(g, d);
    forall c | c in root
      ensures FatOf(g, x)[c] == f[c]
    {
      ChainAllocated(f, root, c);
    }
    ChainKept(f, FatOf(g, x), root);
    SlotsQuiet(g, d, x, root, {});
  }

  lemma QuietAsBefore(g: Geometry, d: Image, root: seq<nat>, x: Image)
    requires Sane(g) && RootChain(g, d, root) && Quiet(g, d, x, {})
    ensures AsBefore(g, d, root, x, root)
  {
    QuietRoot(g, d, x, root);
    MountedKept(g, d, x);
    if Healthy(g, d, root) {
      HealthyIs(g, d, root);
      QuietImage(g, d, x, root);
      HealthyIs(g, x, root);
    }
  }

  /** The first sector of a cluster just handed out is blank. */
  lemma BlankSector(g: Geometry, x: Image, c: nat, k: nat)
    requires g.spc > 0 && Read(x, SectorLba(g, c, 0)) == BLANK && k < SLOTS
    ensures k < |ClusterSlots(g, x, c)| && !IsLfn(ClusterSlots(g, x, c)[k]) && IsTerminal(ClusterSlots(g, x, c)[k])
  {
    Product(1, g.spc, SLOTS);
    SlotsAt(x, ClusterLbas(g, c), k);
    BlankSlots(k);
  }

  lemma TidyWithBlank(s: seq<Slot>, t: seq<Slot>, spc: nat)
    requires Tidy(s, spc) && Terminal(s) == |s| && |s| % SLOTS == 0 && SLOTS <= |t| <= SLOTS * spc
    requires forall k :: 0 <= k < SLOTS ==> !IsLfn(t[k]) && IsTerminal(t[k])
    ensures Tidy(s + t, spc)
  {
    var u := s + t;
    TerminalIs(u, |s|);
    forall k | 0 <= k < |u| && k / SLOTS <= |s| / SLOTS
      ensures !IsLfn(u[k])
    {
      if |s| <= k {
        assert u[k] == t[k - |s|];
      }
    }
  }

  /** From the moment the directory has a new cluster until the record is written there. */
  lemma GrownAsBefore(g: Geometry, d: Image, root: seq<nat>, c: nat, before: seq<Image>, linked: Image, x: Image)
    requires Sane(g) && RootChain(g, d, root) && Grows(g, d, root, c, before, linked) && Quiet(g, linked, x, {})
    requires Terminal(RootSlots(g, d, root)) == |RootSlots(g, d, root)|
    ensures AsBefore(g, d, root, x, root + [c])
  {
    GrownRoot(g, d, root, c, before, linked, x);
    MountedKept(g, d, x);
    if Healthy(g, d, root) {
      HealthyIs(g, d, root);
      GrownImage(g, d, root, c, before, linked, x);
      GrownTidy(g, d, root, c, before, linked, x);
      HealthyIs(g, x, root + [c]);
    }
  }

  lemma GrownTidy(g: Geometry, d: Image, root: seq<nat>, c: nat, before: seq<Image>, linked: Image, x: Image)
    requires Sane(g) && RootChain(g, d, root) && Grows(g, d, root, c, before, linked) && Quiet(g, linked, x, {})
    requires TidyRoot(g, d, root) && Terminal(RootSlots(g, d, root)) == |RootSlots(g, d, root)|
    ensures TidyRoot(g, x, root + [c])
  {
    GrownRoot(g, d, root, c, before, linked, x);
    assert Read(x, SectorLba(g, c, 0)) == BLANK by {
      assert c in [c] && Read(linked, SectorLba(g, c, 0)) == BLANK && FatOf(g, linked)[c] == END;
    }
    var t := ClusterSlots(g, x, c);
    forall k | 0 <= k < SLOTS
      ensures k < |t| && !IsLfn(t[k]) && IsTerminal(t[k])
    {
      BlankSector(g, x, c, k);
    }
    TidyWithBlank(RootSlots(g, d, root), t, g.spc);
  }

  lemma InPlaceCut(g: Geometry, d: Image, e: Creation, k: nat)
    requires Sane(g) && InPlace(g, d, e) && k + 1 < |Images(e)| && !Midway(e, k)
    ensures AsBefore(g, d, e.root, Images(e)[k], CutRoot(e, k)) && CutRoot(e, k) == e.root
  {
    InPlaceUngrown(g, d, e);
    InPlaceImageAt(g, d, e, k);
    InPlaceTailLength(g, d, e);
    assert k < |e.during|;
    assert RootChain(g, d, e.root) && Quiet(g, d, e.during[k], {}) by {
      InPlaceFacts(g, d, e);
      AllocatesFacts(g, d, e.mid, e.files, e.during);
    }
    QuietAsBefore(g, d, e.root, e.during[k]);
  }

  lemma ExtendedCut(g: Geometry, d: Image, e: Creation, k: nat)
    requires Sane(g) && Extended(g, d, e) && k + 1 < |Images(e)|
    ensures AsBefore(g, d, e.root, Images(e)[k], CutRoot(e, k))
  {
    ExtendedParts(g, d, e);
    ExtendedImageAt(e, k);
    if k < 2 {
      QuietAsBefore(g, d, e.root, e.before[k]);
    } else {
      AllocationQuiet(g, d, e, k);
      GrownAsBefore(g, d, e.root, e.grown[0], e.before, e.linked, Images(e)[k]);
    }
  }

  /** A power failure before the last write of a creation, and not between the two directory writes
      of the sector-boundary layout, leaves a healthy card with the old list. */
  lemma CutIsHealthy(g: Geometry, d: Image, e: Creation, k: nat)
    requires Sane(g) && Creates(g, d, e) && k + 1 < |Images(e)| && !Midway(e, k)
    ensures AsBefore(g, d, e.root, Images(e)[k], CutRoot(e, k))
  {
    if InPlace(g, d, e) {
      InPlaceCut(g, d, e, k);
    } else {
      ExtendedCut(g, d, e, k);
    }
  }

  // ---- what is leaked ----

  lemma TailLeaks(g: Geometry, d: Image, e: Creation, k: nat)
    requires Sane(g) && Creates(g, d, e) && k < |e.tail|
    ensures LosesSome(FatOf(g, d), FatOf(g, e.tail[k]), Handed(e))
  {
    FinalLoses(g, d, e);
    if InPlace(g, d, e) {
      InPlaceTailFat(g, d, e, k);
    } else {
      ExtendedTailFat(g, d, e, k);
    }
  }

  /** At worst clusters leak: in every image of a creation the clusters missing from the free ones
      are the first few of those the creation was going to take. */
  lemma CreationLeaks(g: Geometry, d: Image, e: Creation, k: nat)
    requires Sane(g) && Creates(g, d, e) && k < |Images(e)|
    ensures LosesSome(FatOf(g, d), FatOf(g, Images(e)[k]), Handed(e))
  {
    if InPlace(g, d, e) {
      InPlaceUngrown(g, d, e);
      assert e.before == [] by {
        InPlaceTailLength(g, d, e);
      }
      assert Images(e) == e.during + e.tail;
      if k < |e.during| {
        InPlaceLeaks(g, d, e, k);
      } else {
        TailLeaks(g, d, e, k - |e.during|);
      }
    } else {
      ExtendedParts(g, d, e);
      ExtendedImageAt(e, k);
      if k < 3 {
        GrowthLeaks(g, d, e, Images(e)[k]);
      } else if k < |e.during| + 3 {
        ExtendedLeaks(g, d, e, k - 3);
      } else {
        TailLeaks(g, d, e, 0);
      }
    }
  }
}
