/** Directories in which every insertion appends: no long-name slot up to the end of the terminal's
    sector, and the terminal, if there is one, in the last cluster. Creation preserves this. */
module TidyDirectory {
  import opened Bytes
  import opened Card
  import opened Volume
  import opened Directory
  import opened Effects
  import opened FileCreation
  import opened FileSystem

  /** No slot in the sectors up to the terminal's has attribute 0x0f. */
  ghost predicate Clean(s: seq<Slot>) {
    CleanUpTo(s, Terminal(s))
  }

  ghost predicate CleanUpTo(s: seq<Slot>, t: nat) {
    forall k :: 0 <= k < |s| && k / SLOTS <= t / SLOTS ==> !IsLfn(s[k])
  }

  /** The terminal, if present, lies in the last cluster. */
  ghost predicate Compact(s: seq<Slot>, spc: nat) {
    Terminal(s) == |s| || |s| <= Terminal(s) + SLOTS * spc
  }

  ghost predicate Tidy(s: seq<Slot>, spc: nat) {
    Clean(s) && Compact(s, spc)
  }

  lemma Multiple(q: nat, spc: nat) returns (m: nat)
    requires spc > 0 && q % spc == 0
    ensures q == m * spc
  {
    m := q / spc;
  }

  /** The end of a cluster that lies in the last cluster is the end of the directory. */
  lemma LastCluster(t: nat, spc: nat, n: nat)
    requires spc > 0 && SectorEnd(t) && InLastSector(t, spc)
    requires t < SLOTS * (n * spc) <= t + SLOTS * spc
    ensures t + 1 == SLOTS * (n * spc)
  {
    var q := t / SLOTS + 1;
    var m := Multiple(q, spc);
    assert SLOTS * q == t + 1;
    if m < n {
      NextProduct(m, spc);
      Product(m + 1, n, spc);
    } else if n < m {
      NextProduct(n, spc);
      Product(n + 1, m, spc);
    }
  }

  lemma TidyNextSlot(s: seq<Slot>, spc: nat, n: nat)
    requires Tidy(s, spc) && spc > 0 && |s| == SLOTS * (n * spc) && |s| > 0
    ensures NextSlotOk(s, Terminal(s), spc)
  {
    var t := Terminal(s);
    if t < |s| && SectorEnd(t) && InLastSector(t, spc) {
      LastCluster(t, spc, n);
    }
  }

  lemma InsertedClean(s: seq<Slot>, t: nat, r: Slot, spc: nat)
    requires t < |s| && |s| % SLOTS == 0 && spc > 0 && CleanUpTo(s, t) && !IsLfn(r)
    requires SectorEnd(t) && !InLastSector(t, spc) ==> t + SLOTS < |s|
    requires SectorEnd(t) && InLastSector(t, spc) ==> t + 1 == |s|
    ensures CleanUpTo(Inserted(s, t, r, spc), t + 1)
  {
    forall k | 0 <= k < |s| && k / SLOTS <= (t + 1) / SLOTS
      ensures !IsLfn(Inserted(s, t, r, spc)[k])
    {
      InsertedSlot(s, t, r, spc, k);
    }
  }

  lemma InsertedSlot(s: seq<Slot>, t: nat, r: Slot, spc: nat, k: nat)
    requires t < |s| && |s| % SLOTS == 0 && spc > 0 && CleanUpTo(s, t) && !IsLfn(r)
    requires SectorEnd(t) && !InLastSector(t, spc) ==> t + SLOTS < |s|
    requires SectorEnd(t) && InLastSector(t, spc) ==> t + 1 == |s|
    requires k < |s| && k / SLOTS <= (t + 1) / SLOTS
    ensures !IsLfn(Inserted(s, t, r, spc)[k])
  {
  }

  lemma TidyAfter(u: seq<Slot>, t: nat, spc: nat)
    requires |Listing(u)| == t && CleanUpTo(u, t) && |u| <= t + SLOTS * spc
    ensures Tidy(u, spc)
  {
  }

  lemma TidyInserted(s: seq<Slot>, t: nat, r: Slot, spc: nat)
    requires t == Terminal(s) < |s| && CleanUpTo(s, t) && |s| <= t + SLOTS * spc
    requires spc > 0 && |s| % SLOTS == 0 && !IsTerminal(r) && !IsLfn(r) && NextSlotOk(s, t, spc)
    requires SectorEnd(t) && !InLastSector(t, spc) ==> t + SLOTS < |s|
    requires SectorEnd(t) && InLastSector(t, spc) ==> t + 1 == |s|
    ensures Tidy(Inserted(s, t, r, spc), spc)
  {
    InsertionAppends(s, t, r, spc);
    InsertedClean(s, t, r, spc);
    TidyAfter(Inserted(s, t, r, spc), t + 1, spc);
  }

  lemma GrownClean(s: seq<Slot>, name: seq<Byte>, c: Word, stale: seq<Slot>)
    requires CleanUpTo(s, |s|) && |s| >= SLOTS && |s| % SLOTS == 0 && |name| >= 11
    ensures CleanUpTo(s + FreshSector(s, name, c) + stale, |s| + 1)
  {
    var added, n := FreshSector(s, name, c), |s|;
    var u := s + added + stale;
    forall k | 0 <= k < |u| && k / SLOTS <= (n + 1) / SLOTS
      ensures !IsLfn(u[k])
    {
      if k < n {
        assert u[k] == s[k];
      } else {
        assert u[k] == added[k - n];
        FreshSlot(s, name, c, k - n);
      }
    }
  }

  lemma FreshSlot(s: seq<Slot>, name: seq<Byte>, c: Word, k: nat)
    requires CleanUpTo(s, |s|) && |s| >= SLOTS && |name| >= 11 && k < SLOTS
    ensures !IsLfn(FreshSector(s, name, c)[k])
  {
    var last := s[|s| - SLOTS..];
    FileRecordFields(last[0], name, c);
    assert !IsLfn(last[k]);
  }

  lemma TidyGrown(s: seq<Slot>, name: seq<Byte>, c: Word, stale: seq<Slot>, spc: nat)
    requires Clean(s) && Terminal(s) == |s| >= SLOTS && |s| % SLOTS == 0 && |name| >= 11 && name[0] != 0
    requires spc > 0 && |stale| == SLOTS * spc - SLOTS
    ensures Tidy(s + FreshSector(s, name, c) + stale, spc)
  {
    ExtensionAppends(s, name, c, FreshSector(s, name, c), stale);
    GrownClean(s, name, c, stale);
    assert !IsLfn(s[|s| - 15]);
    TidyAfter(s + FreshSector(s, name, c) + stale, |s| + 1, spc);
  }

  // ---- on the card ----

  ghost predicate TidyRoot(g: Geometry, d: Image, root: seq<nat>) {
    Tidy(RootSlots(g, d, root), g.spc)
  }

  lemma TidyIsAppendable(g: Geometry, d: Image, e: Creation)
    requires Sane(g) && Creates(g, d, e) && TidyRoot(g, d, e.root) && |e.name| >= 11 && e.name[0] != 0
    ensures Appendable(g, d, e)
  {
    assert |e.root| > 0 by {
      if InPlace(g, d, e) {
        InPlaceFacts(g, d, e);
      } else {
        ExtendedFacts(g, d, e);
      }
    }
    Product(1, |e.root|, g.spc);
    TidyNextSlot(OldSlots(g, d, e), g.spc, |e.root|);
  }

  lemma TidyInPlace(g: Geometry, d: Image, e: Creation)
    requires Sane(g) && InPlace(g, d, e) && TidyRoot(g, d, e.root) && Appendable(g, d, e)
    ensures TidyRoot(g, Final(e), e.root)
  {
    InPlaceSlots(g, d, e);
    RecordFields(g, d, e);
    var s, t := OldSlots(g, d, e), TerminalSlot(g, d, e);
    if SectorEnd(t) && InLastSector(t, g.spc) {
      LastCluster(t, g.spc, |e.root|);
    }
    TidyInserted(s, t, Record(g, d, e), g.spc);
  }

  lemma TidyExtended(g: Geometry, d: Image, e: Creation)
    requires Sane(g) && Extended(g, d, e) && TidyRoot(g, d, e.root) && Appendable(g, d, e)
    ensures TidyRoot(g, Final(e), NewRoot(e))
  {
    var stale := ExtendedSlots(g, d, e);
    TidyGrown(OldSlots(g, d, e), e.name, e.out, stale, g.spc);
  }

  /** In a tidy directory every creation appends its record, and leaves the directory tidy. */
  lemma CreationKeepsTidy(g: Geometry, d: Image, e: Creation)
    requires Sane(g) && Creates(g, d, e) && TidyRoot(g, d, e.root) && |e.name| >= 11 && e.name[0] != 0
    ensures Appendable(g, d, e) && TidyRoot(g, Final(e), NewRoot(e))
  {
    TidyIsAppendable(g, d, e);
    if InPlace(g, d, e) {
      InPlaceUngrown(g, d, e);
      TidyInPlace(g, d, e);
    } else {
      TidyExtended(g, d, e);
    }
  }
}
