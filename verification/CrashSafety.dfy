/** Every image the card passes through while a file is created is sound, so a power failure after
    any sector write loses at most clusters; the one exception, inside the sector-boundary layout,
    is delimited exactly. */
module CrashSafety {
  import opened Bytes
  import opened Card
  import opened Volume
  import opened Chains
  import opened Directory
  import opened Effects
  import opened FileCreation
  import opened FileSystem

  // ---- what a sound image is ----

  /** Records that own clusters: not a long-name entry, not deleted (first byte 0xe5) and not
      empty (first cluster 0). */
  predicate OwnsChain(r: Slot) {
    !IsLfn(r) && r[0] != 0xE5 && FirstCluster(r) != 0
  }

  ghost predicate Heads(f: Fat, p: seq<nat>, c: nat) {
    IsChain(f, p) && p[0] == c
  }

  ghost predicate EveryFileHasChain(f: Fat, list: seq<Slot>) {
    forall i :: 0 <= i < |list| && OwnsChain(list[i]) ==> exists p :: Heads(f, p, FirstCluster(list[i]))
  }

  ghost predicate FilesAvoid(f: Fat, root: seq<nat>, list: seq<Slot>) {
    forall i, p :: 0 <= i < |list| && OwnsChain(list[i]) && Heads(f, p, FirstCluster(list[i])) ==> Disjoint(p, root)
  }

  ghost predicate FilesDisjoint(f: Fat, list: seq<Slot>) {
    forall i, j, p, q ::
      (&& 0 <= i < j < |list| && OwnsChain(list[i]) && OwnsChain(list[j])
       && Heads(f, p, FirstCluster(list[i])) && Heads(f, q, FirstCluster(list[j]))) ==> Disjoint(p, q)
  }

  /** Every listed file heads a finite chain of clusters in use; no two files share a cluster, and
      none shares one with the directory. */
  ghost predicate SoundList(f: Fat, root: seq<nat>, list: seq<Slot>) {
    EveryFileHasChain(f, list) && FilesAvoid(f, root, list) && FilesDisjoint(f, list)
  }

  ghost predicate Sound(g: Geometry, d: Image, root: seq<nat>) {
    RootChain(g, d, root) && SoundList(FatOf(g, d), root, ListOf(g, d, root))
  }

  // ---- soundness survives quiet changes ----

  /** Entries in use keep their value, save those of the directory's own clusters. */
  ghost predicate KeepsFiles(f: Fat, f': Fat, root: seq<nat>) {
    |f'| == |f| <= END && forall c: nat :: c < |f| && c !in root && f[c] != 0 ==> f'[c] == f[c]
  }

  lemma FileChainKept(f: Fat, f': Fat, root: seq<nat>, p: seq<nat>)
    requires KeepsFiles(f, f', root) && IsChain(f, p) && Disjoint(p, root)
    ensures IsChain(f', p)
  {
    forall c | c in p
      ensures f'[c] == f[c]
    {
      ChainAllocated(f, p, c);
    }
    ChainKept(f, f', p);
  }

  /** A file's chain in the new FAT is its chain in the old one. */
  lemma FileChainSame(f: Fat, f': Fat, root: seq<nat>, list: seq<Slot>, i: nat, q: seq<nat>)
    requires KeepsFiles(f, f', root) && SoundList(f, root, list)
    requires i < |list| && OwnsChain(list[i]) && Heads(f', q, FirstCluster(list[i]))
    ensures Heads(f, q, FirstCluster(list[i])) && Disjoint(q, root)
  {
    var p :| Heads(f, p, FirstCluster(list[i]));
    assert Disjoint(p, root);
    FileChainKept(f, f', root, p);
    ChainUnique(f', p, q);
  }

  lemma SoundKept(f: Fat, f': Fat, root: seq<nat>, root': seq<nat>, list: seq<Slot>)
    requires KeepsFiles(f, f', root) && SoundList(f, root, list)
    requires forall c :: c in root' ==> c in root || (c < |f| && f[c] == 0)
    ensures SoundList(f', root', list)
  {
    forall i | 0 <= i < |list| && OwnsChain(list[i])
      ensures exists p :: Heads(f', p, FirstCluster(list[i]))
    {
      var p :| Heads(f, p, FirstCluster(list[i]));
      FileChainKept(f, f', root, p);
      assert Heads(f', p, FirstCluster(list[i]));
    }
    forall i, q | 0 <= i < |list| && OwnsChain(list[i]) && Heads(f', q, FirstCluster(list[i]))
      ensures Disjoint(q, root')
    {
      FileChainSame(f, f', root, list, i, q);
      forall c | c in q
        ensures c !in root'
      {
        ChainAllocated(f, q, c);
      }
    }
    forall i, j, p, q | 0 <= i < j < |list| && OwnsChain(list[i]) && OwnsChain(list[j])
      && Heads(f', p, FirstCluster(list[i])) && Heads(f', q, FirstCluster(list[j]))
      ensures Disjoint(p, q)
    {
      FileChainSame(f, f', root, list, i, p);
      FileChainSame(f, f', root, list, j, q);
    }
  }

  /** A new record joins the list with a chain of its own. */
  lemma SoundWithFile(f: Fat, root: seq<nat>, list: seq<Slot>, r: Slot, a: seq<nat>)
    requires |f| <= END && SoundList(f, root, list) && Heads(f, a, FirstCluster(r)) && Disjoint(a, root)
    requires FilesAvoid(f, a, list)
    ensures SoundList(f, root, list + [r])
  {
    var l := list + [r];
    forall i | 0 <= i < |l| && OwnsChain(l[i])
      ensures exists p :: Heads(f, p, FirstCluster(l[i]))
    {
      if i < |list| {
        assert l[i] == list[i];
      }
    }
    forall i, p | 0 <= i < |l| && OwnsChain(l[i]) && Heads(f, p, FirstCluster(l[i]))
      ensures Disjoint(p, root)
    {
      if i < |list| {
        assert l[i] == list[i];
      } else {
        ChainUnique(f, p, a);
      }
    }
    forall i, j, p, q | 0 <= i < j < |l| && OwnsChain(l[i]) && OwnsChain(l[j])
      && Heads(f, p, FirstCluster(l[i])) && Heads(f, q, FirstCluster(l[j]))
      ensures Disjoint(p, q)
    {
      assert l[i] == list[i];
      if j < |list| {
        assert l[j] == list[j];
      } else {
        ChainUnique(f, q, a);
      }
    }
  }

  // ---- the images of a creation ----

  /** Images in which nothing was listed yet and the directory did not grow. */
  lemma QuietImage(g: Geometry, d: Image, h: Image, root: seq<nat>)
    requires Sane(g) && Sound(g, d, root) && Quiet(g, d, h, {})
    ensures Sound(g, h, root) && RootSlots(g, h, root) == RootSlots(g, d, root)
  {
    var f, f' := FatOf(g, d), FatOf(g, h);
    forall c | c in root
      ensures f'[c] == f[c]
    {
      ChainAllocated(f, root, c);
    }
    ChainKept(f, f', root);
    SlotsQuiet(g, d, h, root, {});
    SoundKept(f, f', root, root, ListOf(g, d, root));
  }

  lemma EndsAtBlank(s: seq<Slot>, t: seq<Slot>)
    requires Terminal(s) == |s| && |t| > 0 && IsTerminal(t[0])
    ensures Listing(s + t) == Listing(s)
  {
    TerminalIs(s + t, |s|);
  }

  /** Images from the moment the directory was given a cluster until that cluster was written. */
  lemma GrownImage(g: Geometry, d: Image, root: seq<nat>, c: nat, before: seq<Image>, linked: Image, x: Image)
    requires Sane(g) && Sound(g, d, root) && Grows(g, d, root, c, before, linked) && Quiet(g, linked, x, {})
    requires Terminal(RootSlots(g, d, root)) == |RootSlots(g, d, root)|
    ensures Sound(g, x, root + [c]) && ListOf(g, x, root + [c]) == ListOf(g, d, root)
  {
    GrownRoot(g, d, root, c, before, linked, x);
    EndsAtBlank(RootSlots(g, d, root), ClusterSlots(g, x, c));
    GrownKeepsFiles(g, d, root, c, before, linked, x);
    SoundKept(FatOf(g, d), FatOf(g, x), root, root + [c], ListOf(g, d, root));
  }

  lemma GrownKeepsFiles(g: Geometry, d: Image, root: seq<nat>, c: nat, before: seq<Image>, linked: Image, x: Image)
    requires Sane(g) && RootChain(g, d, root) && Grows(g, d, root, c, before, linked) && Quiet(g, linked, x, {})
    ensures KeepsFiles(FatOf(g, d), FatOf(g, x), root)
  {
    var f, last := FatOf(g, d), root[|root| - 1];
    assert last in root;
    forall y: nat | y < |f| && y !in root && f[y] != 0
      ensures FatOf(g, x)[y] == f[y]
    {
      assert FatOf(g, linked)[y] == f[y];
    }
  }

  /** The file's clusters, taken from image `b`, share nothing with any chain listed there. */
  lemma FreshChain(g: Geometry, b: Image, m: Image, root: seq<nat>, files: seq<nat>, during: seq<Image>)
    requires Sane(g) && Sound(g, b, root) && Allocates(g, b, m, files, during)
    ensures IsChain(FatOf(g, m), files) && Disjoint(files, root)
    ensures FilesAvoid(FatOf(g, m), files, ListOf(g, b, root))
  {
    AllocatesFacts(g, b, m, files, during);
    var f, f', list := FatOf(g, b), FatOf(g, m), ListOf(g, b, root);
    LinkedIsChain(f, f', files);
    AllocationKeepsForest(f, f', files, root);
    forall i, p | 0 <= i < |list| && OwnsChain(list[i]) && Heads(f', p, FirstCluster(list[i]))
      ensures Disjoint(p, files)
    {
      FileChainSame(f, f', root, list, i, p);
      AllocationKeepsForest(f, f', files, p);
    }
  }

  /** An image in which the new record is listed. */
  lemma ListedImage(g: Geometry, b: Image, m: Image, x: Image, root: seq<nat>, files: seq<nat>,
                    during: seq<Image>, r: Slot)
    requires Sane(g) && Sound(g, b, root) && Allocates(g, b, m, files, during) && SameFat(g, m, x)
    requires ListOf(g, x, root) == ListOf(g, b, root) + [r] && FirstCluster(r) == files[0]
    ensures Sound(g, x, root)
  {
    AllocatesFacts(g, b, m, files, during);
    QuietImage(g, b, m, root);
    FreshChain(g, b, m, root, files, during);
    SoundWithFile(FatOf(g, x), root, ListOf(g, b, root), r, files);
  }

  // ---- crash safety ----

  /** The image between the two directory writes of the sector-boundary layout. */
  ghost predicate Midway(e: Creation, k: nat) {
    |e.tail| == 2 && k + 2 == |Images(e)|
  }

  /** What a power failure may leave: a sound image that mounts as before and lists the old files,
      or the old files and the new one. */
  ghost predicate Recoverable(g: Geometry, d: Image, e: Creation, h: Image, root: seq<nat>)
    requires |e.name| >= 11
  {
    && Sound(g, h, root)
    && (Mounted(g, d) ==> Mounted(g, h))
    && (ListOf(g, h, root) == ListOf(g, d, e.root)
        || ListOf(g, h, root) == ListOf(g, d, e.root) + [Record(g, d, e)])
  }

  lemma MountedKept(g: Geometry, d: Image, h: Image)
    requires Read(h, 0) == Read(d, 0) && Read(h, g.partBegin) == Read(d, g.partBegin)
    ensures Mounted(g, d) ==> Mounted(g, h)
  {
    if Mounted(g, d) {
      MountKept(d, h, g);
    }
  }

  lemma InPlaceUnlisted(g: Geometry, d: Image, e: Creation, k: nat)
    requires Sane(g) && InPlace(g, d, e) && Sound(g, d, e.root) && k < |e.during|
    ensures |e.name| >= 11 && Recoverable(g, d, e, e.during[k], e.root)
  {
    InPlaceFacts(g, d, e);
    AllocatesFacts(g, d, e.mid, e.files, e.during);
    QuietImage(g, d, e.during[k], e.root);
    MountedKept(g, d, e.during[k]);
  }

  lemma InPlaceListed(g: Geometry, d: Image, e: Creation, x: Image)
    requires Sane(g) && InPlace(g, d, e) && Sound(g, d, e.root) && SameFat(g, e.mid, x) && |e.name| >= 11
    requires ListOf(g, x, e.root) == ListOf(g, d, e.root) + [Record(g, d, e)]
    ensures Recoverable(g, d, e, x, e.root)
  {
    InPlaceFacts(g, d, e);
    AllocatesFacts(g, d, e.mid, e.files, e.during);
    RecordFields(g, d, e);
    ListedImage(g, d, e.mid, x, e.root, e.files, e.during, Record(g, d, e));
    MountedKept(g, d, x);
  }

  lemma ExtendedBefore(g: Geometry, d: Image, e: Creation, k: nat)
    requires Sane(g) && Extended(g, d, e) && Sound(g, d, e.root) && k < |e.before|
    ensures |e.name| >= 11 && Recoverable(g, d, e, e.before[k], e.root)
  {
    assert |e.name| >= 11 by {
      ExtendedFacts(g, d, e);
    }
    ExtendedParts(g, d, e);
    QuietImage(g, d, e.before[k], e.root);
    MountedKept(g, d, e.before[k]);
  }

  /** `x` is the image just after the directory grew, or one in which the file was being
      allocated. */
  lemma ExtendedGrown(g: Geometry, d: Image, e: Creation, x: Image)
    requires Sane(g) && Extended(g, d, e) && Sound(g, d, e.root) && Quiet(g, e.linked, x, {})
    ensures |e.name| >= 11 && Recoverable(g, d, e, x, NewRoot(e))
  {
    ExtendedFacts(g, d, e);
    assert NewRoot(e) == e.root + [e.grown[0]];
    GrownImage(g, d, e.root, e.grown[0], e.before, e.linked, x);
    MountedKept(g, d, x);
  }

  lemma ExtendedListed(g: Geometry, d: Image, e: Creation, x: Image)
    requires Sane(g) && Extended(g, d, e) && Sound(g, d, e.root) && SameFat(g, e.mid, x) && |e.name| >= 11
    requires ListOf(g, x, NewRoot(e)) == ListOf(g, d, e.root) + [Record(g, d, e)]
    ensures Recoverable(g, d, e, x, NewRoot(e))
  {
    ExtendedFacts(g, d, e);
    AllocatesFacts(g, e.linked, e.mid, e.files, e.during);
    ExtendedGrown(g, d, e, e.linked);
    assert NewRoot(e) == e.root + [e.grown[0]];
    GrownImage(g, d, e.root, e.grown[0], e.before, e.linked, e.linked);
    RecordFields(g, d, e);
    ListedImage(g, e.linked, e.mid, x, NewRoot(e), e.files, e.during, Record(g, d, e));
    MountedKept(g, d, x);
  }

  lemma InPlaceCrashSafe(g: Geometry, d: Image, e: Creation, k: nat)
    requires Sane(g) && InPlace(g, d, e) && Sound(g, d, e.root) && k < |Images(e)| && !Midway(e, k)
    requires |e.name| >= 11 && ListOf(g, Final(e), e.root) == ListOf(g, d, e.root) + [Record(g, d, e)]
    ensures Recoverable(g, d, e, Images(e)[k], e.root)
  {
    InPlaceImageAt(g, d, e, k);
    if k < |e.during| {
      InPlaceUnlisted(g, d, e, k);
    } else {
      InPlaceListed(g, d, e, Final(e));
    }
  }

  lemma InPlaceImageAt(g: Geometry, d: Image, e: Creation, k: nat)
    requires Sane(g) && InPlace(g, d, e) && k < |Images(e)| && !Midway(e, k)
    ensures if k < |e.during| then Images(e)[k] == e.during[k] else Images(e)[k] == Final(e)
    ensures SameFat(g, e.mid, Final(e))
  {
    InPlaceUngrown(g, d, e);
    InPlaceTailLength(g, d, e);
    assert Images(e) == e.during + e.tail;
  }

  lemma InPlaceTailLength(g: Geometry, d: Image, e: Creation)
    requires Sane(g) && InPlace(g, d, e)
    ensures 1 <= |e.tail| <= 2 && e.before == [] && SameFat(g, e.mid, Final(e))
  {
    InPlaceFacts(g, d, e);
    InPlaceSlots(g, d, e);
  }

  lemma ExtendedCrashSafe(g: Geometry, d: Image, e: Creation, k: nat) returns (root: seq<nat>)
    requires Sane(g) && Extended(g, d, e) && Sound(g, d, e.root) && k < |Images(e)|
    requires |e.name| >= 11 && ListOf(g, Final(e), NewRoot(e)) == ListOf(g, d, e.root) + [Record(g, d, e)]
    ensures Recoverable(g, d, e, Images(e)[k], root)
  {
    ExtendedParts(g, d, e);
    ExtendedImageAt(e, k);
    if k < 2 {
      root := e.root;
      ExtendedBefore(g, d, e, k);
    } else {
      root := NewRoot(e);
      if k < |e.during| + 3 {
        AllocationQuiet(g, d, e, k);
        ExtendedGrown(g, d, e, Images(e)[k]);
      } else {
        var stale := ExtendedSlots(g, d, e);
        ExtendedListed(g, d, e, Final(e));
      }
    }
  }

  lemma AllocationQuiet(g: Geometry, d: Image, e: Creation, k: nat)
    requires Extended(g, d, e) && 2 <= k < |e.during| + 3 && k < |Images(e)|
    ensures Quiet(g, e.linked, Images(e)[k], {})
  {
    ExtendedFacts(g, d, e);
    AllocatesFacts(g, e.linked, e.mid, e.files, e.during);
    ExtendedImageAt(e, k);
  }

  /** Crash safety of file creation. After every prefix of its sector writes, the card mounts as
      before, the directory lists the old files or the old files and the new one, every listed
      file heads a complete chain, and no two chains meet. The one exception is the image between
      the two directory writes of the sector-boundary layout. */
  lemma CreationIsCrashSafe(g: Geometry, d: Image, e: Creation, k: nat) returns (root: seq<nat>)
    requires Sane(g) && Creates(g, d, e) && Sound(g, d, e.root) && Appendable(g, d, e)
    requires k < |Images(e)| && !Midway(e, k)
    ensures Recoverable(g, d, e, Images(e)[k], root)
  {
    CreationRefines(g, d, e);
    if InPlace(g, d, e) {
      root := e.root;
      InPlaceUngrown(g, d, e);
      InPlaceCrashSafe(g, d, e, k);
    } else {
      root := ExtendedCrashSafe(g, d, e, k);
    }
  }

  // ---- the exception ----

  lemma MidwayLayout(g: Geometry, d: Image, e: Creation)
    requires Sane(g) && Creates(g, d, e) && |e.tail| == 2
    ensures InPlace(g, d, e) && |e.name| >= 11 && SameFat(g, e.mid, e.tail[0])
    ensures TerminalSlot(g, d, e) + SLOTS < |OldSlots(g, d, e)|
    ensures RootSlots(g, e.tail[0], e.root) == OldSlots(g, d, e)[TerminalSlot(g, d, e) := Record(g, d, e)]
  {
    if InPlace(g, d, e) {
      InPlaceSlots(g, d, e);
    } else {
      ExtendedFacts(g, d, e);
      assert false;
    }
  }

  lemma MidwayImage(e: Creation, k: nat)
    requires Midway(e, k)
    ensures Images(e)[k] == e.tail[0]
  {
  }

  /** What a power failure between those two writes leaves. It is recoverable exactly when the slot
      after the new record was a terminal before the call; otherwise stale slots are listed. */
  lemma MidwayExact(g: Geometry, d: Image, e: Creation, k: nat, root: seq<nat>)
    requires Sane(g) && Creates(g, d, e) && Sound(g, d, e.root) && Appendable(g, d, e) && Midway(e, k)
    ensures TerminalSlot(g, d, e) + 1 < |OldSlots(g, d, e)|
    ensures RootChain(g, Images(e)[k], root) ==>
              (Recoverable(g, d, e, Images(e)[k], root) <==>
                IsTerminal(OldSlots(g, d, e)[TerminalSlot(g, d, e) + 1]))
  {
    MidwayImage(e, k);
    MidwayLayout(g, d, e);
    RecordFields(g, d, e);
    var s, t, x := OldSlots(g, d, e), TerminalSlot(g, d, e), e.tail[0];
    var u := s[t := Record(g, d, e)];
    AppendsWhen(s, t, Record(g, d, e), u);
    if RootChain(g, x, root) {
      MidwayRoot(g, d, e, x, root);
      if IsTerminal(s[t + 1]) {
        InPlaceListed(g, d, e, x);
      }
    }
  }

  /** The directory's chain is the same before and midway. */
  lemma MidwayRoot(g: Geometry, d: Image, e: Creation, x: Image, root: seq<nat>)
    requires Sane(g) && InPlace(g, d, e) && Sound(g, d, e.root) && SameFat(g, e.mid, x) && RootChain(g, x, root)
    ensures root == e.root
  {
    InPlaceFacts(g, d, e);
    AllocatesFacts(g, d, e.mid, e.files, e.during);
    QuietImage(g, d, e.mid, e.root);
    ChainUnique(FatOf(g, x), root, e.root);
  }

  lemma SharedHead(f: Fat, root: seq<nat>, list: seq<Slot>, i: nat, j: nat)
    requires i < j < |list| && OwnsChain(list[i]) && OwnsChain(list[j])
    requires FirstCluster(list[i]) == FirstCluster(list[j])
    ensures !SoundList(f, root, list)
  {
    if EveryFileHasChain(f, list) {
      var p :| Heads(f, p, FirstCluster(list[i]));
      assert Heads(f, p, FirstCluster(list[j])) && p[0] in p;
      assert !Disjoint(p, p);
    }
  }

  /** When the slot after the terminal is a stale record of a listed file, say one left by a longer
      directory, that image is not even sound: two listed records share a chain. */
  lemma MidwayUnsound(g: Geometry, d: Image, e: Creation, k: nat, i: nat)
    requires Sane(g) && Creates(g, d, e) && Sound(g, d, e.root) && Appendable(g, d, e) && Midway(e, k)
    requires i < |ListOf(g, d, e.root)| && OwnsChain(ListOf(g, d, e.root)[i])
    requires TerminalSlot(g, d, e) + 1 < |OldSlots(g, d, e)|
    requires var stale := OldSlots(g, d, e)[TerminalSlot(g, d, e) + 1];
             !IsTerminal(stale) && OwnsChain(stale)
             && FirstCluster(stale) == FirstCluster(ListOf(g, d, e.root)[i])
    ensures !Sound(g, Images(e)[k], e.root)
  {
    MidwayImage(e, k);
    MidwayLayout(g, d, e);
    RecordFields(g, d, e);
    var s, t, x := OldSlots(g, d, e), TerminalSlot(g, d, e), e.tail[0];
    var u := s[t := Record(g, d, e)];
    assert Terminal(u) > t + 1;
    SharedHead(FatOf(g, x), e.root, Listing(u), i, t + 1);
  }
}
