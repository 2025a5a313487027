/** What creating a file means: the directory list, the forest of chains and the cluster accounting
    before and after. Everything here holds of any creation with the effects that the methods of
    Fat32 are proved to have. */
module FileCreation {
  import opened Bytes
  import opened Card
  import opened Volume
  import opened Chains
  import opened Directory
  import opened Effects

  // ---- sectors of the root directory ----

  /** Every sector of a directory is some sector of one of its clusters. */
  lemma {:induction false} SectorOwner(g: Geometry, p: seq<nat>, x: nat) returns (i: nat, k: nat)
    requires x < |DirLbas(g, p)|
    ensures i < |p| && k < g.spc && x == i * g.spc + k && DirLbas(g, p)[x] == SectorLba(g, p[i], k)
    decreases |p|
  {
    var n := |p| - 1;
    var q := p[..n];
    if x < |DirLbas(g, q)| {
      i, k := SectorOwner(g, q, x);
    } else {
      i, k := n, x - |DirLbas(g, q)|;
    }
  }

  ghost predicate ClustersDistinct(g: Geometry, p: seq<nat>) {
    && (forall i :: 0 <= i < |p| ==> IsCluster(g, p[i]))
    && (forall i, j :: 0 <= i < j < |p| ==> p[i] != p[j])
  }

  lemma ChainClusters(g: Geometry, d: Image, p: seq<nat>)
    requires Sane(g) && IsChain(FatOf(g, d), p)
    ensures ClustersDistinct(g, p)
  {
    forall i, j | 0 <= i < j < |p|
      ensures p[i] != p[j]
    {
      ChainAcyclic(FatOf(g, d), p, i, j);
    }
  }

  lemma SectorsDistinct(g: Geometry, p: seq<nat>)
    requires Sane(g) && ClustersDistinct(g, p)
    ensures Distinct(DirLbas(g, p))
  {
    var a := DirLbas(g, p);
    forall x, y | 0 <= x < y < |a|
      ensures a[x] != a[y]
    {
      var i, k := SectorOwner(g, p, x);
      var i', k' := SectorOwner(g, p, y);
      assert p[i] != p[i'] || k != k';
      AddressInjective(g, p[i], k, p[i'], k');
    }
  }

  /** Inside a cluster the next sector of the directory is at the next address. */
  lemma NextDirSector(g: Geometry, p: seq<nat>, j: nat)
    requires g.spc > 0 && j < |DirLbas(g, p)| && (j + 1) % g.spc != 0
    ensures j + 1 < |DirLbas(g, p)| && DirLbas(g, p)[j + 1] == DirLbas(g, p)[j] + 1
  {
    var i, k := SectorOwner(g, p, j);
    if k + 1 == g.spc {
      NextProduct(i, g.spc);
      ModOf(i + 1, g.spc, 0);
    } else {
      DirLbaAt(g, p, i, k + 1);
      NextSector(g, p[i], k);
    }
  }

  /** Quiet writes leave the slots of a directory in use alone. */
  lemma SlotsQuiet(g: Geometry, d: Image, d': Image, p: seq<nat>, ex: set<nat>)
    requires Sane(g) && IsChain(FatOf(g, d), p) && Quiet(g, d, d', ex)
    ensures RootSlots(g, d', p) == RootSlots(g, d, p)
  {
    var a := DirLbas(g, p);
    forall x | 0 <= x < |a|
      ensures Read(d', a[x]) == Read(d, a[x])
    {
      var i, k := SectorOwner(g, p, x);
      assert p[i] in p;
      ChainAllocated(FatOf(g, d), p, p[i]);
    }
    SlotsKept(d, d', a);
  }

  // ---- the directory writes, as slots ----

  ghost function Spliced(s: seq<Slot>, j: nat, w: seq<Slot>): (u: seq<Slot>)
    requires SLOTS * j + SLOTS <= |s| && |w| == SLOTS
    ensures |u| == |s|
  {
    s[..SLOTS * j] + w + s[SLOTS * j + SLOTS..]
  }

  lemma SplicedMiddle(s: seq<Slot>, j: nat, i: nat, t: nat, r: Slot, spc: nat)
    requires SLOTS * j + SLOTS <= |s| && |s| % SLOTS == 0 && spc > 0 && i < SLOTS - 1
    requires t == SLOTS * j + i && !SectorEnd(t)
    ensures var w := SectorSlots(s, j)[i := r]; Spliced(s, j, w[i + 1 := Cleared(w[i + 1])]) == Inserted(s, t, r, spc)
  {
    var w := SectorSlots(s, j)[i := r];
    assert w[i + 1] == s[t + 1];
    SplicedTwo(s, j, i, r, Cleared(s[t + 1]));
  }

  lemma InsideSector(j: nat, i: nat)
    requires i < SLOTS - 1
    ensures !SectorEnd(SLOTS * j + i)
  {
  }

  /** Replacing two neighbouring slots of a sector. */
  lemma SplicedTwo(s: seq<Slot>, j: nat, i: nat, r: Slot, c: Slot)
    requires SLOTS * j + SLOTS <= |s| && i < SLOTS - 1
    ensures Spliced(s, j, SectorSlots(s, j)[i := r][i + 1 := c]) == s[SLOTS * j + i := r][SLOTS * j + i + 1 := c]
  {
    var w, t := SectorSlots(s, j)[i := r][i + 1 := c], SLOTS * j + i;
    var u, v := Spliced(s, j, w), s[t := r][t + 1 := c];
    forall k | 0 <= k < |s|
      ensures u[k] == v[k]
    {
      if SLOTS * j <= k < SLOTS * j + SLOTS {
        assert u[k] == w[k - SLOTS * j];
      }
    }
  }

  lemma SplicedEnd(s: seq<Slot>, j: nat, r: Slot)
    requires SLOTS * j + SLOTS <= |s|
    ensures Spliced(s, j, SectorSlots(s, j)[SLOTS - 1 := r]) == s[SLOTS * j + SLOTS - 1 := r]
  {
  }

  /** At the end of a sector, what goes to the next one is a copy of this one, first slot cleared. */
  lemma CopiedSector(s: seq<Slot>, j: nat, r: Slot)
    requires SLOTS * j + SLOTS <= |s|
    ensures var t, w := SLOTS * j + SLOTS - 1, SectorSlots(s, j)[SLOTS - 1 := r];
            var v := s[t := r];
            w[0 := Cleared(w[0])] == [Cleared(v[t - 15])] + v[t - 14..t + 1]
  {
    var t, w := SLOTS * j + SLOTS - 1, SectorSlots(s, j)[SLOTS - 1 := r];
    var v := s[t := r];
    assert w == v[t - 15..t + 1];
    assert w == [v[t - 15]] + v[t - 14..t + 1];
  }

  lemma SplicedAfter(v: seq<Slot>, j: nat, c: Slot, m: seq<Slot>)
    requires SLOTS * j + 2 * SLOTS <= |v| && |m| == SLOTS - 1
    ensures Spliced(v, j + 1, [c] + m) == v[..SLOTS * j + SLOTS] + [c] + m + v[SLOTS * j + 2 * SLOTS..]
  {
    var a, b := v[..SLOTS * j + SLOTS], v[SLOTS * j + 2 * SLOTS..];
    assert a + ([c] + m) == a + [c] + m;
  }

  lemma InsertedAtSectorEnd(s: seq<Slot>, j: nat, r: Slot, spc: nat)
    requires SLOTS * j + 2 * SLOTS <= |s| && |s| % SLOTS == 0 && spc > 0
    requires !InLastSector(SLOTS * j + SLOTS - 1, spc)
    ensures var t := SLOTS * j + SLOTS - 1;
            var v := s[t := r];
            Inserted(s, t, r, spc) == v[..t + 1] + [Cleared(v[t - 15])] + v[t - 14..t + 1] + v[t + 17..]
  {
    LastInSector(j);
  }

  lemma SplicedNext(s: seq<Slot>, j: nat, r: Slot, spc: nat)
    requires SLOTS * j + 2 * SLOTS <= |s| && |s| % SLOTS == 0 && spc > 0
    requires !InLastSector(SLOTS * j + SLOTS - 1, spc)
    ensures var t, w := SLOTS * j + SLOTS - 1, SectorSlots(s, j)[SLOTS - 1 := r];
            Spliced(s[t := r], j + 1, w[0 := Cleared(w[0])]) == Inserted(s, t, r, spc)
  {
    var t := SLOTS * j + SLOTS - 1;
    var v := s[t := r];
    CopiedSector(s, j, r);
    SplicedAfter(v, j, Cleared(v[t - 15]), v[t - 14..t + 1]);
    InsertedAtSectorEnd(s, j, r, spc);
  }

  /** `d'` has the FAT and the headers of `d`. */
  ghost predicate SameFat(g: Geometry, d: Image, d': Image) {
    FatOf(g, d') == FatOf(g, d) && Read(d', 0) == Read(d, 0) && Read(d', g.partBegin) == Read(d, g.partBegin)
  }

  /** One write to sector `j` of the directory `p`. */
  lemma DirWrite(g: Geometry, d: Image, p: seq<nat>, j: nat, w: seq<Slot>)
    requires Sane(g) && ClustersDistinct(g, p) && j < |DirLbas(g, p)| && |w| == SLOTS
    ensures var d' := d[DirLbas(g, p)[j] := EncodeSlots(w)];
            SameFat(g, d, d') && RootSlots(g, d', p) == Spliced(RootSlots(g, d, p), j, w)
  {
    var i, k := SectorOwner(g, p, j);
    DataWriteKeeps(g, d, p[i], k, EncodeSlots(w));
    SectorsDistinct(g, p);
    SlotsWritten(d, DirLbas(g, p), j, w);
  }

  /** The slot the record went to, and the record. */
  ghost function TerminalSlot(g: Geometry, d: Image, e: Creation): nat {
    Terminal(RootSlots(g, d, e.root))
  }

  ghost function OldSlots(g: Geometry, d: Image, e: Creation): seq<Slot> {
    RootSlots(g, d, e.root)
  }

  function NewRoot(e: Creation): seq<nat> {
    e.root + e.grown
  }

  /** The record of the new file, over whatever the slot held. */
  ghost function Record(g: Geometry, d: Image, e: Creation): Slot
    requires |e.name| >= 11
  {
    var s := OldSlots(g, d, e);
    var t := TerminalSlot(g, d, e);
    FileRecord(if t < |s| then s[t] else if |s| >= SLOTS then s[|s| - SLOTS] else Zeros(32), e.name, e.out)
  }

  lemma InPlaceFacts(g: Geometry, d: Image, e: Creation)
    requires Sane(g) && InPlace(g, d, e)
    ensures InPlaceBody(g, d, e)
    ensures ClustersDistinct(g, e.root) && RootSlots(g, e.mid, e.root) == OldSlots(g, d, e)
  {
    assert Show(0);
    AllocatesFacts(g, d, e.mid, e.files, e.during);
    ChainClusters(g, d, e.root);
    SlotsQuiet(g, d, e.mid, e.root, {});
  }

  /** The state in which the directory `p` with slots `s` is about to be written. */
  ghost predicate AboutToWrite(g: Geometry, m: Image, p: seq<nat>, s: seq<Slot>, j: nat) {
    && Sane(g) && ClustersDistinct(g, p) && RootSlots(g, m, p) == s
    && j < |DirLbas(g, p)| && SLOTS * j + SLOTS <= |s| && |s| % SLOTS == 0
  }

  /** `tail` are the images of writing record `r` to slot `t` of the directory `p`: one image, or
      two in the sector-boundary layout. In between those two the record stands but the terminal
      after it does not. */
  ghost predicate Written(g: Geometry, m: Image, p: seq<nat>, s: seq<Slot>, t: nat, r: Slot, tail: seq<Image>) {
    && t < |s| && |s| % SLOTS == 0 && g.spc > 0 && |tail| > 0
    && (SectorEnd(t) && !InLastSector(t, g.spc) ==> t + SLOTS < |s|)
    && var last := tail[|tail| - 1];
       && SameFat(g, m, last) && RootSlots(g, last, p) == Inserted(s, t, r, g.spc)
       && if SectorEnd(t) && !InLastSector(t, g.spc)
          then |tail| == 2 && SameFat(g, m, tail[0]) && RootSlots(g, tail[0], p) == s[t := r]
          else |tail| == 1
  }

  /** One write suffices, except at the end of a sector inside a cluster. */
  lemma WrittenAtOnce(g: Geometry, m: Image, p: seq<nat>, s: seq<Slot>, t: nat, r: Slot, x: Image)
    requires t < |s| && |s| % SLOTS == 0 && g.spc > 0 && (SectorEnd(t) ==> InLastSector(t, g.spc))
    requires SameFat(g, m, x) && RootSlots(g, x, p) == Inserted(s, t, r, g.spc)
    ensures Written(g, m, p, s, t, r, [x])
  {
  }

  lemma WriteMiddle(g: Geometry, m: Image, p: seq<nat>, s: seq<Slot>, j: nat, i: nat, r: Slot, last: bool)
    requires AboutToWrite(g, m, p, s, j) && i < SLOTS - 1
    ensures Written(g, m, p, s, SLOTS * j + i, r, DirImages(m, DirLbas(g, p)[j], SectorSlots(s, j)[i := r], i, last))
  {
    var w := SectorSlots(s, j)[i := r];
    var w' := w[i + 1 := Cleared(w[i + 1])];
    InsideSector(j, i);
    DirWrite(g, m, p, j, w');
    SplicedMiddle(s, j, i, SLOTS * j + i, r, g.spc);
    WrittenAtOnce(g, m, p, s, SLOTS * j + i, r, m[DirLbas(g, p)[j] := EncodeSlots(w')]);
  }

  lemma LastInSector(j: nat)
    ensures SectorEnd(SLOTS * j + SLOTS - 1) && (SLOTS * j + SLOTS - 1) / SLOTS == j
  {
  }

  lemma WriteClusterEnd(g: Geometry, m: Image, p: seq<nat>, s: seq<Slot>, j: nat, r: Slot)
    requires AboutToWrite(g, m, p, s, j) && InLastSector(SLOTS * j + SLOTS - 1, g.spc)
    ensures Written(g, m, p, s, SLOTS * j + SLOTS - 1, r,
                    DirImages(m, DirLbas(g, p)[j], SectorSlots(s, j)[SLOTS - 1 := r], SLOTS - 1, true))
  {
    var t, w := SLOTS * j + SLOTS - 1, SectorSlots(s, j)[SLOTS - 1 := r];
    LastInSector(j);
    DirWrite(g, m, p, j, w);
    SplicedEnd(s, j, r);
    WrittenAtOnce(g, m, p, s, t, r, m[DirLbas(g, p)[j] := EncodeSlots(w)]);
  }

  lemma WriteSectorEnd(g: Geometry, m: Image, p: seq<nat>, s: seq<Slot>, j: nat, r: Slot)
    requires AboutToWrite(g, m, p, s, j) && !InLastSector(SLOTS * j + SLOTS - 1, g.spc)
    ensures Written(g, m, p, s, SLOTS * j + SLOTS - 1, r,
                    DirImages(m, DirLbas(g, p)[j], SectorSlots(s, j)[SLOTS - 1 := r], SLOTS - 1, false))
  {
    var t, w := SLOTS * j + SLOTS - 1, SectorSlots(s, j)[SLOTS - 1 := r];
    var m1 := m[DirLbas(g, p)[j] := EncodeSlots(w)];
    LastInSector(j);
    DirWrite(g, m, p, j, w);
    SplicedEnd(s, j, r);
    NextDirSector(g, p, j);
    DirWrite(g, m1, p, j + 1, w[0 := Cleared(w[0])]);
    SplicedNext(s, j, r, g.spc);
  }

  lemma InPlaceReady(g: Geometry, d: Image, e: Creation, j: nat, i: nat)
    requires Sane(g) && InPlace(g, d, e)
    requires j == TerminalSlot(g, d, e) / SLOTS && i == TerminalSlot(g, d, e) % SLOTS
    ensures |e.name| >= 11 && TerminalSlot(g, d, e) == SLOTS * j + i
    ensures AboutToWrite(g, e.mid, e.root, OldSlots(g, d, e), j)
    ensures e.tail == DirImages(e.mid, DirLbas(g, e.root)[j], SectorSlots(OldSlots(g, d, e), j)[i := Record(g, d, e)],
                                i, InLastSector(TerminalSlot(g, d, e), g.spc))
  {
    InPlaceAddress(g, d, e, j, i);
    InPlaceTailIs(g, d, e, j, i);
  }

  lemma InPlaceAddress(g: Geometry, d: Image, e: Creation, j: nat, i: nat)
    requires Sane(g) && InPlace(g, d, e)
    requires j == TerminalSlot(g, d, e) / SLOTS && i == TerminalSlot(g, d, e) % SLOTS
    ensures TerminalSlot(g, d, e) == SLOTS * j + i && AboutToWrite(g, e.mid, e.root, OldSlots(g, d, e), j)
  {
    assert TerminalSlot(g, d, e) < |OldSlots(g, d, e)| by {
      InPlaceFacts(g, d, e);
    }
    assert ClustersDistinct(g, e.root) && RootSlots(g, e.mid, e.root) == OldSlots(g, d, e) by {
      InPlaceFacts(g, d, e);
    }
    assert |OldSlots(g, d, e)| == SLOTS * |DirLbas(g, e.root)|;
  }

  lemma InPlaceTailIs(g: Geometry, d: Image, e: Creation, j: nat, i: nat)
    requires InPlace(g, d, e) && TerminalSlot(g, d, e) == SLOTS * j + i && i < SLOTS
    requires j < |DirLbas(g, e.root)| && SLOTS * j + SLOTS <= |OldSlots(g, d, e)|
    ensures |e.name| >= 11 && g.spc > 0
    ensures e.tail == DirImages(e.mid, DirLbas(g, e.root)[j], SectorSlots(OldSlots(g, d, e), j)[i := Record(g, d, e)],
                                i, InLastSector(TerminalSlot(g, d, e), g.spc))
  {
    assert Show(0);
    assert TerminalSlot(g, d, e) / SLOTS == j && TerminalSlot(g, d, e) % SLOTS == i;
  }

  /** The images of a directory write are those of putting the record, whichever layout it is. */
  lemma WriteSlot(g: Geometry, m: Image, p: seq<nat>, s: seq<Slot>, j: nat, i: nat, r: Slot)
    requires AboutToWrite(g, m, p, s, j) && i < SLOTS && g.spc > 0
    ensures Written(g, m, p, s, SLOTS * j + i, r,
                    DirImages(m, DirLbas(g, p)[j], SectorSlots(s, j)[i := r], i, InLastSector(SLOTS * j + i, g.spc)))
  {
    if i < SLOTS - 1 {
      WriteMiddle(g, m, p, s, j, i, r, InLastSector(SLOTS * j + i, g.spc));
    } else if InLastSector(SLOTS * j + i, g.spc) {
      WriteClusterEnd(g, m, p, s, j, r);
    } else {
      WriteSectorEnd(g, m, p, s, j, r);
    }
  }

  /** The slots after an in-place creation, in all three layouts. */
  lemma InPlaceSlots(g: Geometry, d: Image, e: Creation)
    requires Sane(g) && InPlace(g, d, e)
    ensures |e.name| >= 11
    ensures Written(g, e.mid, e.root, OldSlots(g, d, e), TerminalSlot(g, d, e), Record(g, d, e), e.tail)
  {
    var t := TerminalSlot(g, d, e);
    InPlaceReady(g, d, e, t / SLOTS, t % SLOTS);
    WriteSlot(g, e.mid, e.root, OldSlots(g, d, e), t / SLOTS, t % SLOTS, Record(g, d, e));
  }

  // ---- a directory that grew ----

  lemma SlotsAppend(d: Image, a: seq<nat>, b: seq<nat>)
    ensures Slots(d, a + b) == Slots(d, a) + Slots(d, b)
  {
    var ab := a + b;
    forall k | 0 <= k < SLOTS * |ab|
      ensures Slots(d, ab)[k] == (Slots(d, a) + Slots(d, b))[k]
    {
      SlotsAt(d, ab, k);
      if k < SLOTS * |a| {
        SlotsAt(d, a, k);
        assert ab[k / SLOTS] == a[k / SLOTS];
      } else {
        var k' := k - SLOTS * |a|;
        SlotsAt(d, b, k');
        assert k / SLOTS == |a| + k' / SLOTS && k % SLOTS == k' % SLOTS;
        assert ab[k / SLOTS] == b[k' / SLOTS];
      }
    }
  }

  lemma DirLbasAppend(g: Geometry, p: seq<nat>, c: nat)
    ensures DirLbas(g, p + [c]) == DirLbas(g, p) + ClusterLbas(g, c)
  {
    assert (p + [c])[..|p|] == p;
  }

  /** The slots of one cluster. */
  ghost function ClusterSlots(g: Geometry, d: Image, c: nat): (s: seq<Slot>)
    ensures |s| == SLOTS * g.spc
  {
    Slots(d, ClusterLbas(g, c))
  }

  lemma RootSlotsAppend(g: Geometry, d: Image, p: seq<nat>, c: nat)
    ensures RootSlots(g, d, p + [c]) == RootSlots(g, d, p) + ClusterSlots(g, d, c)
  {
    DirLbasAppend(g, p, c);
    SlotsAppend(d, DirLbas(g, p), ClusterLbas(g, c));
  }

  lemma GrownChain(g: Geometry, d: Image, root: seq<nat>, c: nat, before: seq<Image>, linked: Image)
    requires Sane(g) && RootChain(g, d, root) && Grows(g, d, root, c, before, linked)
    ensures RootChain(g, linked, root + [c]) && c !in root
    ensures RootSlots(g, linked, root) == RootSlots(g, d, root)
  {
    var f := FatOf(g, d);
    if c in root {
      ChainAllocated(f, root, c);
    }
    ChainExtended(f, FatOf(g, linked), root, c);
    SlotsQuiet(g, d, linked, root, {root[|root| - 1]});
  }

  /** From the moment the new cluster is linked until its first sector is written, the directory
      shows the old slots followed by a terminal. */
  lemma GrownRoot(g: Geometry, d: Image, root: seq<nat>, c: nat, before: seq<Image>, linked: Image, x: Image)
    requires Sane(g) && RootChain(g, d, root) && Grows(g, d, root, c, before, linked)
    requires Quiet(g, linked, x, {})
    ensures RootChain(g, x, root + [c]) && ClustersDistinct(g, root + [c])
    ensures RootSlots(g, x, root + [c]) == RootSlots(g, d, root) + ClusterSlots(g, x, c)
    ensures IsTerminal(ClusterSlots(g, x, c)[0])
  {
    GrownChain(g, d, root, c, before, linked);
    var p, fl := root + [c], FatOf(g, linked);
    forall y | y in p
      ensures FatOf(g, x)[y] == fl[y]
    {
      ChainAllocated(fl, p, y);
    }
    ChainKept(fl, FatOf(g, x), p);
    ChainClusters(g, x, p);
    SlotsQuiet(g, linked, x, p, {});
    RootSlotsAppend(g, linked, root, c);
    RootSlotsAppend(g, x, root, c);
    var s := RootSlots(g, d, root);
    assert RootSlots(g, x, p)[..|s|] == s;
    FirstSlotBlank(g, linked, c);
    assert ClusterSlots(g, x, c) == RootSlots(g, x, p)[|s|..];
    assert ClusterSlots(g, linked, c) == RootSlots(g, linked, p)[|s|..];
  }

  lemma FirstSlotBlank(g: Geometry, d: Image, c: nat)
    requires g.spc > 0 && Read(d, SectorLba(g, c, 0)) == BLANK
    ensures IsTerminal(ClusterSlots(g, d, c)[0])
  {
    SlotsAt(d, ClusterLbas(g, c), 0);
    BlankSlots(0);
  }

  lemma SplicedTail(s: seq<Slot>, j: nat, t: seq<Slot>, w: seq<Slot>)
    requires |s| == SLOTS * j && |t| >= SLOTS && |w| == SLOTS
    ensures Spliced(s + t, j, w) == s + w + t[SLOTS..]
  {
  }

  /** Writing the first sector of the last cluster `c` of the directory `p + [c]`. */
  lemma FirstSectorWritten(g: Geometry, m: Image, p: seq<nat>, c: nat, s: seq<Slot>, w: seq<Slot>)
    requires Sane(g) && ClustersDistinct(g, p + [c]) && |w| == SLOTS
    requires RootSlots(g, m, p + [c]) == s + ClusterSlots(g, m, c) && |s| == SLOTS * |DirLbas(g, p)|
    ensures var m' := m[SectorLba(g, c, 0) := EncodeSlots(w)];
            SameFat(g, m, m') && RootSlots(g, m', p + [c]) == s + w + ClusterSlots(g, m, c)[SLOTS..]
  {
    var j := |DirLbas(g, p)|;
    DirLbasAppend(g, p, c);
    assert DirLbas(g, p + [c])[j] == ClusterLbas(g, c)[0];
    DirWrite(g, m, p + [c], j, w);
    SplicedTail(s, j, ClusterSlots(g, m, c), w);
  }

  lemma ExtendedFacts(g: Geometry, d: Image, e: Creation)
    requires Extended(g, d, e)
    ensures ExtendedBody(g, d, e)
  {
    assert Show(0);
  }

  /** The slots after a creation that had to extend the directory. */
  lemma ExtendedSlots(g: Geometry, d: Image, e: Creation) returns (stale: seq<Slot>)
    requires Sane(g) && Extended(g, d, e)
    ensures |e.name| >= 11 && |OldSlots(g, d, e)| >= SLOTS && |e.tail| == 1
    ensures |stale| == SLOTS * g.spc - SLOTS
    ensures RootSlots(g, Final(e), NewRoot(e)) ==
            OldSlots(g, d, e) + FreshSector(OldSlots(g, d, e), e.name, e.out) + stale
    ensures SameFat(g, e.mid, Final(e)) && TerminalSlot(g, d, e) == |OldSlots(g, d, e)|
    ensures RootChain(g, e.mid, NewRoot(e))
  {
    ExtendedParts(g, d, e);
    ExtendedAllocates(g, d, e);
    var c, s := e.grown[0], OldSlots(g, d, e);
    GrownRoot(g, d, e.root, c, e.before, e.linked, e.mid);
    FirstSectorWritten(g, e.mid, e.root, c, s, FreshSector(s, e.name, e.out));
    stale := ClusterSlots(g, e.mid, c)[SLOTS..];
  }

  lemma ExtendedAllocates(g: Geometry, d: Image, e: Creation)
    requires Sane(g) && Extended(g, d, e)
    ensures Quiet(g, e.linked, e.mid, {})
    ensures |e.name| >= 11 && |OldSlots(g, d, e)| >= SLOTS && e.grown != []
    ensures e.tail == [e.mid[SectorLba(g, e.grown[0], 0) :=
                             EncodeSlots(FreshSector(OldSlots(g, d, e), e.name, e.out))]]
  {
    ExtendedFacts(g, d, e);
    AllocatesFacts(g, e.linked, e.mid, e.files, e.during);
  }

  /** The parts of an extending creation, without what they are. */
  lemma ExtendedParts(g: Geometry, d: Image, e: Creation)
    requires Extended(g, d, e)
    ensures |e.before| == 2 && |e.grown| == 1 && |e.tail| == 1 && NewRoot(e) == e.root + [e.grown[0]]
    ensures RootChain(g, d, e.root) && Grows(g, d, e.root, e.grown[0], e.before, e.linked)
    ensures TerminalSlot(g, d, e) == |OldSlots(g, d, e)|
  {
    ExtendedFacts(g, d, e);
  }

  lemma ExtendedImageAt(e: Creation, k: nat)
    requires |e.before| == 2 && |e.grown| == 1 && |e.tail| == 1 && k < |Images(e)|
    ensures k < 2 ==> Images(e)[k] == e.before[k]
    ensures k == 2 ==> Images(e)[k] == e.linked
    ensures 3 <= k < |e.during| + 3 ==> Images(e)[k] == e.during[k - 3]
    ensures k >= |e.during| + 3 ==> Images(e)[k] == Final(e)
  {
    assert Images(e) == e.before + [e.linked] + e.during + e.tail;
  }

  lemma InPlaceUngrown(g: Geometry, d: Image, e: Creation)
    requires Sane(g) && InPlace(g, d, e)
    ensures NewRoot(e) == e.root && e.grown == []
  {
    InPlaceFacts(g, d, e);
  }
}
