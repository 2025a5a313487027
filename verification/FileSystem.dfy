/** The main results about creating files: the directory list refines "append a record", the chains
    form a forest that only grows, clusters are handed out first-fit, and every image the card
    passes through is sound. */
module FileSystem {
  import opened Bytes
  import opened Card
  import opened Volume
  import opened Chains
  import opened Directory
  import opened Effects
  import opened FileCreation

  /** The files of the root directory, whose clusters are `root`. */
  ghost function ListOf(g: Geometry, d: Image, root: seq<nat>): seq<Slot> {
    Listing(RootSlots(g, d, root))
  }

  // ---- directory refinement ----

  lemma RecordFields(g: Geometry, d: Image, e: Creation)
    requires |e.name| >= 11
    ensures var r := Record(g, d, e);
            Name(r) == e.name[..11] && FirstCluster(r) == e.out && !IsLfn(r)
            && (IsTerminal(r) <==> e.name[0] == 0)
  {
    var s, t := OldSlots(g, d, e), TerminalSlot(g, d, e);
    FileRecordFields(if t < |s| then s[t] else if |s| >= SLOTS then s[|s| - SLOTS] else Zeros(32), e.name, e.out);
  }

  /** A record whose name starts with 0 is itself a terminal and never joins the list. */
  lemma NamelessIsLost(s: seq<Slot>, u: seq<Slot>, t: nat)
    requires t == Terminal(s) && t < |u| && IsTerminal(u[t]) && t <= |s|
    requires forall k :: 0 <= k < t ==> u[k] == s[k]
    ensures Listing(u) == Listing(s)
  {
    TerminalIs(u, t);
  }

  lemma InPlaceRefines(g: Geometry, d: Image, e: Creation)
    requires Sane(g) && InPlace(g, d, e)
    ensures |e.name| >= 11 && |OldSlots(g, d, e)| > 0 && |OldSlots(g, d, e)| % SLOTS == 0
    ensures ListOf(g, Final(e), e.root) == ListOf(g, d, e.root) + [Record(g, d, e)]
       <==> e.name[0] != 0 && NextSlotOk(OldSlots(g, d, e), TerminalSlot(g, d, e), g.spc)
  {
    InPlaceSlots(g, d, e);
    RecordFields(g, d, e);
    var s, t, r := OldSlots(g, d, e), TerminalSlot(g, d, e), Record(g, d, e);
    if e.name[0] == 0 {
      NamelessIsLost(s, Inserted(s, t, r, g.spc), t);
    } else {
      InsertionAppends(s, t, r, g.spc);
    }
  }

  lemma FreshRefines(s: seq<Slot>, name: seq<Byte>, c: Word, added: seq<Slot>, stale: seq<Slot>, r: Slot, spc: nat)
    requires Terminal(s) == |s| >= SLOTS && |s| % SLOTS == 0 && |name| >= 11 && spc > 0
    requires added == FreshSector(s, name, c) && added[0] == r && (IsTerminal(r) <==> name[0] == 0)
    ensures Listing(s + added + stale) == Listing(s) + [r] <==> name[0] != 0 && NextSlotOk(s, |s|, spc)
  {
    if name[0] == 0 {
      NamelessIsLost(s, s + added + stale, |s|);
    } else {
      ExtensionAppends(s, name, c, added, stale);
    }
  }

  lemma ExtendedRefines(g: Geometry, d: Image, e: Creation)
    requires Sane(g) && Extended(g, d, e)
    ensures |e.name| >= 11 && |OldSlots(g, d, e)| > 0 && |OldSlots(g, d, e)| % SLOTS == 0
    ensures ListOf(g, Final(e), NewRoot(e)) == ListOf(g, d, e.root) + [Record(g, d, e)]
       <==> e.name[0] != 0 && NextSlotOk(OldSlots(g, d, e), TerminalSlot(g, d, e), g.spc)
  {
    var stale := ExtendedSlots(g, d, e);
    FreshListing(g, d, e, stale);
  }

  lemma FreshListing(g: Geometry, d: Image, e: Creation, stale: seq<Slot>)
    requires |e.name| >= 11 && TerminalSlot(g, d, e) == |OldSlots(g, d, e)| >= SLOTS && g.spc > 0
    ensures |OldSlots(g, d, e)| % SLOTS == 0
    ensures var s := OldSlots(g, d, e);
            Listing(s + FreshSector(s, e.name, e.out) + stale) == Listing(s) + [Record(g, d, e)] <==>
            e.name[0] != 0 && NextSlotOk(s, |s|, g.spc)
  {
    var s := OldSlots(g, d, e);
    FreshRecord(g, d, e);
    RecordFields(g, d, e);
    FreshRefines(s, e.name, e.out, FreshSector(s, e.name, e.out), stale, Record(g, d, e), g.spc);
  }

  lemma FreshRecord(g: Geometry, d: Image, e: Creation)
    requires |e.name| >= 11 && TerminalSlot(g, d, e) == |OldSlots(g, d, e)| >= SLOTS
    ensures FreshSector(OldSlots(g, d, e), e.name, e.out)[0] == Record(g, d, e)
  {
  }

  /** The name does not start with 0, and the slot meant to end the list after the insertion can be
      recognised as a terminal: a condition on the slots before the call. */
  ghost predicate Appendable(g: Geometry, d: Image, e: Creation) {
    var s := OldSlots(g, d, e);
    && |e.name| >= 11 && e.name[0] != 0 && g.spc > 0 && |s| > 0 && |s| % SLOTS == 0
    && NextSlotOk(s, TerminalSlot(g, d, e), g.spc)
  }

  /** Directory refinement, in all four layouts and whatever stale data follows the terminal: the
      list after a creation is the list before with the new record appended if and only if the
      directory was appendable. */
  lemma CreationRefines(g: Geometry, d: Image, e: Creation)
    requires Sane(g) && Creates(g, d, e)
    ensures |e.name| >= 11
    ensures ListOf(g, Final(e), NewRoot(e)) == ListOf(g, d, e.root) + [Record(g, d, e)] <==> Appendable(g, d, e)
  {
    if InPlace(g, d, e) {
      InPlaceFacts(g, d, e);
      assert NewRoot(e) == e.root;
      InPlaceRefines(g, d, e);
    } else {
      ExtendedRefines(g, d, e);
    }
  }

  // ---- the forest of chains ----

  /** All clusters a creation takes, in the order it takes them. */
  function Handed(e: Creation): seq<nat> {
    e.grown + e.files
  }

  lemma FinalFat(g: Geometry, d: Image, e: Creation)
    requires Sane(g) && Creates(g, d, e)
    ensures SameFat(g, e.mid, Final(e))
  {
    if InPlace(g, d, e) {
      InPlaceSlots(g, d, e);
    } else {
      var stale := ExtendedSlots(g, d, e);
    }
  }

  lemma AppendedAllocatable(f: Fat, f': Fat, last: nat, c: nat)
    requires LeastFree(f, c) && 2 <= last < |f| && f[last] != 0 && Appended(f, f', last, c)
    ensures forall x :: Allocatable(f', x) <==> Allocatable(f, x) && x != c
  {
  }

  lemma AppendedFree(f: Fat, f': Fat, last: nat, c: nat)
    requires LeastFree(f, c) && 2 <= last < |f| && f[last] != 0 && Appended(f, f', last, c)
    ensures FreeSet(f') == FreeSet(f) - {c}
  {
  }

  /** The least free cluster, then the least free ones of what remains, is first-fit order. */
  lemma FirstFitCons(f: Fat, f': Fat, c: nat, s: seq<nat>)
    requires LeastFree(f, c) && FirstFit(f', s)
    requires forall x :: Allocatable(f', x) <==> Allocatable(f, x) && x != c
    ensures FirstFit(f, [c] + s)
  {
    var t := [c] + s;
    forall i | 0 <= i < |s|
      ensures c < s[i] && Allocatable(f, s[i])
    {
      assert Allocatable(f', s[i]);
    }
    forall i, x | 0 <= i < |t| && Allocatable(f, x) && x < t[i]
      ensures x in t
    {
      if x != c {
        assert Allocatable(f', x) && t[i] == s[i - 1];
      }
    }
  }

  lemma InPlaceAccounting(g: Geometry, d: Image, e: Creation)
    requires Sane(g) && InPlace(g, d, e)
    ensures FirstFit(FatOf(g, d), Handed(e)) && |e.files| == Need(e.n)
    ensures FreeSet(FatOf(g, e.mid)) == FreeSet(FatOf(g, d)) - Elements(Handed(e))
  {
    InPlaceFacts(g, d, e);
    assert Handed(e) == e.files;
    AllocatesFacts(g, d, e.mid, e.files, e.during);
    FreeAccounting(FatOf(g, d), FatOf(g, e.mid), e.files);
  }

  lemma GrownAccounting(f: Fat, fl: Fat, fm: Fat, root: seq<nat>, c: nat, files: seq<nat>)
    requires |f| <= END && IsChain(f, root) && LeastFree(f, c) && Appended(f, fl, root[|root| - 1], c)
    requires FirstFit(fl, files) && Linked(fl, fm, files)
    ensures FirstFit(f, [c] + files) && FreeSet(fm) == FreeSet(f) - Elements([c] + files)
  {
    var last := root[|root| - 1];
    ChainAllocated(f, root, last);
    assert FirstFit(f, [c] + files) by {
      AppendedAllocatable(f, fl, last, c);
      FirstFitCons(f, fl, c, files);
    }
    assert FreeSet(fm) == FreeSet(f) - {c} - Elements(files) by {
      AppendedFree(f, fl, last, c);
      FreeAccounting(fl, fm, files);
    }
    assert Elements([c] + files) == {c} + Elements(files);
  }

  lemma ExtendedAccounting(g: Geometry, d: Image, e: Creation)
    requires Sane(g) && Extended(g, d, e)
    ensures FirstFit(FatOf(g, d), Handed(e)) && |e.files| == Need(e.n)
    ensures FreeSet(FatOf(g, e.mid)) == FreeSet(FatOf(g, d)) - Elements(Handed(e))
  {
    ExtendedFacts(g, d, e);
    AllocatesFacts(g, e.linked, e.mid, e.files, e.during);
    assert e.grown == [e.grown[0]];
    GrownAccounting(FatOf(g, d), FatOf(g, e.linked), FatOf(g, e.mid), e.root, e.grown[0], e.files);
  }

  lemma TakenCount(f: Fat, f': Fat, s: seq<nat>)
    requires FirstFit(f, s) && FreeSet(f') == FreeSet(f) - Elements(s)
    ensures CountFree(f') == CountFree(f) - |s|
  {
    DistinctCount(s);
    forall x | x in Elements(s)
      ensures x in FreeSet(f)
    {
      var i :| 0 <= i < |s| && s[i] == x;
      assert Allocatable(f, s[i]);
    }
    assert |FreeSet(f) - Elements(s)| == |FreeSet(f)| - |Elements(s)|;
  }

  /** First-fit accounting for one creation: the clusters taken are exactly the least free ones, in
      increasing order, and nothing else changes from free to used or back. */
  lemma CreationAccounting(g: Geometry, d: Image, e: Creation)
    requires Sane(g) && Creates(g, d, e)
    ensures FirstFit(FatOf(g, d), Handed(e)) && |e.files| == if e.n == 0 then 1 else e.n
    ensures FreeSet(FatOf(g, Final(e))) == FreeSet(FatOf(g, d)) - Elements(Handed(e))
    ensures CountFree(FatOf(g, Final(e))) == CountFree(FatOf(g, d)) - |Handed(e)|
  {
    FinalFat(g, d, e);
    if InPlace(g, d, e) {
      InPlaceAccounting(g, d, e);
    } else {
      ExtendedAccounting(g, d, e);
    }
    TakenCount(FatOf(g, d), FatOf(g, Final(e)), Handed(e));
  }

  /** The free clusters drop by one for each cluster asked for, but at least by one, and by one more when
      the directory had no terminal. */
  lemma CreationCount(g: Geometry, d: Image, e: Creation)
    requires Sane(g) && Creates(g, d, e)
    ensures var s := RootSlots(g, d, e.root);
            CountFree(FatOf(g, Final(e))) == CountFree(FatOf(g, d))
                                           - (if e.n == 0 then 1 else e.n) - (if Terminal(s) == |s| then 1 else 0)
  {
    CreationAccounting(g, d, e);
    CreationForest(g, d, e);
  }

  lemma InPlaceEntries(g: Geometry, d: Image, e: Creation, c: nat)
    requires Sane(g) && InPlace(g, d, e) && c < Entries(g) && c !in Handed(e)
    ensures FatOf(g, e.mid)[c] == FatOf(g, d)[c]
  {
    InPlaceFacts(g, d, e);
    AllocatesFacts(g, d, e.mid, e.files, e.during);
    assert c !in e.files;
  }

  lemma ExtendedEntries(g: Geometry, d: Image, e: Creation, c: nat)
    requires Sane(g) && Extended(g, d, e) && c < Entries(g) && c !in Handed(e) && c !in e.root
    ensures FatOf(g, e.mid)[c] == FatOf(g, d)[c]
  {
    ExtendedFacts(g, d, e);
    AllocatesFacts(g, e.linked, e.mid, e.files, e.during);
    assert e.grown[0] in Handed(e) && c !in e.files;
    assert FatOf(g, e.linked)[c] == FatOf(g, d)[c];
  }

  /** A creation changes no FAT entry but those of the clusters it takes and of the directory. */
  lemma UnchangedEntries(g: Geometry, d: Image, e: Creation, c: nat)
    requires Sane(g) && Creates(g, d, e) && c < Entries(g) && c !in Handed(e) && c !in e.root
    ensures FatOf(g, Final(e))[c] == FatOf(g, d)[c]
  {
    FinalFat(g, d, e);
    if InPlace(g, d, e) {
      InPlaceEntries(g, d, e, c);
    } else {
      ExtendedEntries(g, d, e, c);
    }
  }

  /** The new file and the directory after an allocation from an image where `root` is its chain. */
  lemma FileBesideRoot(g: Geometry, b: Image, m: Image, x: Image, root: seq<nat>, files: seq<nat>, during: seq<Image>)
    requires Sane(g) && RootChain(g, b, root) && Allocates(g, b, m, files, during) && SameFat(g, m, x)
    ensures RootChain(g, x, root) && IsChain(FatOf(g, x), files) && Disjoint(files, root)
  {
    AllocatesFacts(g, b, m, files, during);
    LinkedIsChain(FatOf(g, b), FatOf(g, m), files);
    AllocationKeepsForest(FatOf(g, b), FatOf(g, m), files, root);
  }

  lemma InPlaceForest(g: Geometry, d: Image, e: Creation)
    requires Sane(g) && InPlace(g, d, e) && SameFat(g, e.mid, Final(e))
    ensures IsChain(FatOf(g, Final(e)), e.files) && |e.files| == Need(e.n) && e.files[0] == e.out
    ensures RootChain(g, Final(e), NewRoot(e)) && Disjoint(e.files, NewRoot(e))
    ensures |e.grown| == if TerminalSlot(g, d, e) == |OldSlots(g, d, e)| then 1 else 0
  {
    InPlaceFacts(g, d, e);
    assert NewRoot(e) == e.root;
    FileBesideRoot(g, d, e.mid, Final(e), e.root, e.files, e.during);
  }

  lemma ExtendedForest(g: Geometry, d: Image, e: Creation)
    requires Sane(g) && Extended(g, d, e) && SameFat(g, e.mid, Final(e))
    ensures IsChain(FatOf(g, Final(e)), e.files) && |e.files| == Need(e.n) && e.files[0] == e.out
    ensures RootChain(g, Final(e), NewRoot(e)) && Disjoint(e.files, NewRoot(e))
    ensures |e.grown| == if TerminalSlot(g, d, e) == |OldSlots(g, d, e)| then 1 else 0
  {
    ExtendedFacts(g, d, e);
    assert NewRoot(e) == e.root + [e.grown[0]];
    GrownChain(g, d, e.root, e.grown[0], e.before, e.linked);
    FileBesideRoot(g, e.linked, e.mid, Final(e), NewRoot(e), e.files, e.during);
  }

  /** A creation adds one chain of max(1, n) clusters for the file; the directory's own chain gets
      one more cluster exactly when it had no terminal; the two share nothing. */
  lemma CreationForest(g: Geometry, d: Image, e: Creation)
    requires Sane(g) && Creates(g, d, e)
    ensures IsChain(FatOf(g, Final(e)), e.files) && e.files[0] == e.out
    ensures (e.n >= 1 ==> |e.files| == e.n) && (e.n == 0 ==> |e.files| == 1)
    ensures RootChain(g, Final(e), NewRoot(e)) && Disjoint(e.files, NewRoot(e))
    ensures |e.grown| == if TerminalSlot(g, d, e) == |OldSlots(g, d, e)| then 1 else 0
  {
    FinalFat(g, d, e);
    if InPlace(g, d, e) {
      InPlaceForest(g, d, e);
    } else {
      ExtendedForest(g, d, e);
    }
  }

  /** Every other chain is one that was there before, entry for entry, and the creation took none
      of its clusters: nothing is lost, nothing else appears. */
  lemma OtherChains(g: Geometry, d: Image, e: Creation, p: seq<nat>)
    requires Sane(g) && Creates(g, d, e) && Disjoint(p, e.root)
    ensures IsChain(FatOf(g, d), p) <==> IsChain(FatOf(g, Final(e)), p) && Disjoint(p, Handed(e))
  {
    var f, f' := FatOf(g, d), FatOf(g, Final(e));
    if IsChain(f, p) {
      CreationAccounting(g, d, e);
      forall c | c in p
        ensures c !in Handed(e) && f'[c] == f[c]
      {
        ChainAllocated(f, p, c);
        if c !in Handed(e) {
          UnchangedEntries(g, d, e, c);
        }
      }
      ChainKept(f, f', p);
    }
    if IsChain(f', p) && Disjoint(p, Handed(e)) {
      forall c | c in p
        ensures f'[c] == f[c]
      {
        UnchangedEntries(g, d, e, c);
      }
      ChainKept(f', f, p);
    }
  }

  // ---- what a crash can leak ----

  lemma LosesBehind(f: Fat, fl: Fat, f': Fat, c: nat, a: seq<nat>)
    requires FreeSet(fl) == FreeSet(f) - {c} && LosesSome(fl, f', a)
    ensures LosesSome(f, f', [c] + a)
  {
    var n: nat :| LosesFirst(fl, f', a, n);
    assert ([c] + a)[..n + 1] == [c] + a[..n];
    assert Elements([c] + a[..n]) == {c} + Elements(a[..n]);
    assert LosesFirst(f, f', [c] + a, n + 1);
  }

  lemma InPlaceLeaks(g: Geometry, d: Image, e: Creation, k: nat)
    requires Sane(g) && InPlace(g, d, e) && k < |e.during|
    ensures LosesSome(FatOf(g, d), FatOf(g, e.during[k]), Handed(e))
  {
    InPlaceFacts(g, d, e);
    AllocatesWithin(g, d, e.mid, e.files, e.during, k);
    assert Handed(e) == e.files;
  }

  lemma GrowthLeaks(g: Geometry, d: Image, e: Creation, x: Image)
    requires Sane(g) && Extended(g, d, e) && (x in e.before || x == e.linked)
    ensures LosesSome(FatOf(g, d), FatOf(g, x), Handed(e))
    ensures |e.grown| == 1 && FreeSet(FatOf(g, e.linked)) == FreeSet(FatOf(g, d)) - {e.grown[0]}
  {
    ExtendedFacts(g, d, e);
    var f, c, last := FatOf(g, d), e.grown[0], e.root[|e.root| - 1];
    ChainAllocated(f, e.root, last);
    AppendedFree(f, FatOf(g, e.linked), last, c);
    EndedFree(f, c);
    assert Handed(e)[..1] == [c] && Elements([c]) == {c};
    assert FreeSet(FatOf(g, x)) == FreeSet(f) - {c};
    assert LosesFirst(f, FatOf(g, x), Handed(e), 1);
  }

  lemma ExtendedLeaks(g: Geometry, d: Image, e: Creation, k: nat)
    requires Sane(g) && Extended(g, d, e) && k < |e.during|
    ensures LosesSome(FatOf(g, d), FatOf(g, e.during[k]), Handed(e))
  {
    GrowthLeaks(g, d, e, e.linked);
    assert Allocates(g, e.linked, e.mid, e.files, e.during) by {
      ExtendedFacts(g, d, e);
    }
    AllocatesWithin(g, e.linked, e.mid, e.files, e.during, k);
    LosesBehind(FatOf(g, d), FatOf(g, e.linked), FatOf(g, e.during[k]), e.grown[0], e.files);
    assert Handed(e) == [e.grown[0]] + e.files;
  }

  lemma FinalLoses(g: Geometry, d: Image, e: Creation)
    requires Sane(g) && Creates(g, d, e)
    ensures LosesSome(FatOf(g, d), FatOf(g, e.mid), Handed(e))
  {
    CreationAccounting(g, d, e);
    FinalFat(g, d, e);
    LosesAll(FatOf(g, d), FatOf(g, e.mid), Handed(e));
  }
}
