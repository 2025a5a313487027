/** Finding files by name after creating them. */
module FileLookup {
  import opened Bytes
  import opened Card
  import opened CString
  import opened Volume
  import opened Directory
  import opened Effects
  import opened FileCreation
  import opened FileSystem
  import opened CrashSafety

  // ---- on lists ----

  lemma {:induction false} LookupExtends(list: seq<Slot>, more: seq<Slot>, name: seq<Byte>)
    requires !NoneMatch(list, name)
    ensures Lookup(list + more, name) == Lookup(list, name)
  {
    if !Matches(list[0], name) {
      assert (list + more)[1..] == list[1..] + more;
      var k :| 0 <= k < |list| && Matches(list[k], name);
      assert list[1..][k - 1] == list[k];
      LookupExtends(list[1..], more, name);
    }
  }

  lemma PrefixFound(list: seq<Slot>, list': seq<Slot>, name: seq<Byte>)
    requires list <= list' && !NoneMatch(list, name)
    ensures Lookup(list', name) == Lookup(list, name) && !NoneMatch(list', name)
  {
    assert list' == list + list'[|list|..];
    LookupExtends(list, list'[|list|..], name);
    var k :| 0 <= k < |list| && Matches(list[k], name);
    assert list'[k] == list[k];
  }

  /** The new record is in slot `t`, behind slots that do not match. */
  lemma FoundAt(s: seq<Slot>, u: seq<Slot>, t: nat, name: seq<Byte>)
    requires t == Terminal(s) && t < |u| && !IsTerminal(u[t]) && forall k :: 0 <= k < t ==> u[k] == s[k]
    requires NoneMatch(Listing(s), name) && Matches(u[t], name)
    ensures Lookup(Listing(u), name) == FirstCluster(u[t])
  {
    var list := Listing(u);
    assert t < Terminal(u) && list[t] == u[t];
    forall k | 0 <= k < t
      ensures !Matches(list[..t][k], name)
    {
      assert list[..t][k] == Listing(s)[k];
    }
    LookupAt(list, name, t);
  }

  lemma Prefix(s: seq<Slot>, u: seq<Slot>, t: nat)
    requires t == Terminal(s) && t <= |u| && forall k :: 0 <= k < t ==> u[k] == s[k]
    ensures Listing(s) <= Listing(u)
  {
  }

  // ---- on the card ----

  /** The slots `u` are `s` up to the slot `t`, which holds `r`. */
  ghost predicate PutAt(s: seq<Slot>, u: seq<Slot>, t: nat, r: Slot) {
    t <= |s| && t < |u| && u[t] == r && forall k :: 0 <= k < t ==> u[k] == s[k]
  }

  lemma WrittenPuts(g: Geometry, m: Image, p: seq<nat>, s: seq<Slot>, t: nat, r: Slot, tail: seq<Image>)
    requires Written(g, m, p, s, t, r, tail)
    ensures tail != [] && PutAt(s, RootSlots(g, tail[|tail| - 1], p), t, r)
  {
  }

  lemma FreshPuts(g: Geometry, d: Image, e: Creation, stale: seq<Slot>)
    requires |e.name| >= 11 && TerminalSlot(g, d, e) == |OldSlots(g, d, e)| >= SLOTS
    ensures PutAt(OldSlots(g, d, e), OldSlots(g, d, e) + FreshSector(OldSlots(g, d, e), e.name, e.out) + stale,
                  TerminalSlot(g, d, e), Record(g, d, e))
  {
    FreshRecord(g, d, e);
  }

  /** The slots after a creation: the old ones up to the terminal, then the new record. */
  lemma NewSlots(g: Geometry, d: Image, e: Creation)
    requires Sane(g) && Creates(g, d, e)
    ensures |e.name| >= 11
    ensures PutAt(OldSlots(g, d, e), RootSlots(g, Final(e), NewRoot(e)), TerminalSlot(g, d, e), Record(g, d, e))
  {
    if InPlace(g, d, e) {
      InPlaceUngrown(g, d, e);
      InPlaceSlots(g, d, e);
      WrittenPuts(g, e.mid, e.root, OldSlots(g, d, e), TerminalSlot(g, d, e), Record(g, d, e), e.tail);
    } else {
      var stale := ExtendedSlots(g, d, e);
      FreshPuts(g, d, e, stale);
    }
  }

  /** Whatever lies behind the terminal, no listed file is lost. */
  lemma ListGrows(g: Geometry, d: Image, e: Creation)
    requires Sane(g) && Creates(g, d, e)
    ensures ListOf(g, d, e.root) <= ListOf(g, Final(e), NewRoot(e))
  {
    NewSlots(g, d, e);
    Prefix(OldSlots(g, d, e), RootSlots(g, Final(e), NewRoot(e)), TerminalSlot(g, d, e));
  }

  /** Create, then find. After creating a name that matched nothing, a lookup returns the cluster
      that creation returned if and only if the name does not start with 0. */
  lemma CreateThenFind(g: Geometry, d: Image, e: Creation)
    requires Sane(g) && Creates(g, d, e) && NoneMatch(ListOf(g, d, e.root), e.name)
    ensures |e.name| >= 11
    ensures Lookup(ListOf(g, Final(e), NewRoot(e)), e.name) == e.out <==> e.name[0] != 0
  {
    NewSlots(g, d, e);
    RecordFields(g, d, e);
    var s, u, t := OldSlots(g, d, e), RootSlots(g, Final(e), NewRoot(e)), TerminalSlot(g, d, e);
    if e.name[0] != 0 {
      SameNameRefl(e.name, 11);
      FoundAt(s, u, t, e.name);
    } else {
      NamelessIsLost(s, u, t);
      LookupNone(Listing(u), e.name);
      CreationForest(g, d, e);
    }
  }

  /** A name that was found stays found, at the same cluster, after any other creation. */
  lemma FoundStaysFound(g: Geometry, d: Image, e: Creation, name: seq<Byte>)
    requires Sane(g) && Creates(g, d, e) && !NoneMatch(ListOf(g, d, e.root), name)
    ensures Lookup(ListOf(g, Final(e), NewRoot(e)), name) == Lookup(ListOf(g, d, e.root), name)
    ensures !NoneMatch(ListOf(g, Final(e), NewRoot(e)), name)
  {
    ListGrows(g, d, e);
    PrefixFound(ListOf(g, d, e.root), ListOf(g, Final(e), NewRoot(e)), name);
  }

  /** On a sound card -1 means absent: no record whose name can match has first cluster -1. */
  lemma AbsentMeansAbsent(g: Geometry, d: Image, root: seq<nat>, name: seq<Byte>)
    requires Sane(g) && Sound(g, d, root) && name != [] && Plain(name[..1]) && name[0] != 0xE5
    ensures Lookup(ListOf(g, d, root), name) == NOT_FOUND <==> NoneMatch(ListOf(g, d, root), name)
  {
    var list := ListOf(g, d, root);
    if NoneMatch(list, name) {
      LookupNone(list, name);
    } else {
      var k := FirstMatch(list, name);
      LookupAt(list, name, k);
      MatchIsNoTombstone(list[k], name);
      if OwnsChain(list[k]) {
        var p :| Heads(FatOf(g, d), p, FirstCluster(list[k]));
      }
    }
  }

  lemma {:induction false} FirstMatch(list: seq<Slot>, name: seq<Byte>) returns (k: nat)
    requires !NoneMatch(list, name)
    ensures k < |list| && NoneMatch(list[..k], name) && Matches(list[k], name)
    decreases |list|
  {
    if Matches(list[0], name) {
      k := 0;
    } else {
      var j :| 0 <= j < |list| && Matches(list[j], name);
      assert list[1..][j - 1] == list[j];
      k := FirstMatch(list[1..], name);
      assert list[..k + 1] == [list[0]] + list[1..][..k];
      k := k + 1;
    }
  }

  lemma MatchIsNoTombstone(r: Slot, name: seq<Byte>)
    requires Matches(r, name) && name != [] && Plain(name[..1]) && name[0] != 0xE5
    ensures r[0] != 0xE5
  {
    var s, t := Text(Clip(Name(r), 11)), Text(Clip(name, 11));
    assert name[..1][0] == name[0];
    assert Clip(name, 11)[0] == name[0] && t[0] == name[0];
    assert Clip(Name(r), 11)[0] == r[0];
    if !Stops(r[0]) {
      assert s[0] == r[0];
    }
  }
}
