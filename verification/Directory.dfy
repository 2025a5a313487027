/** The root directory: records, the terminal that ends the list, and what inserting a record does
    to the list (pi-src/fat32.c, pi-src/fat32.h; "FAT Directory Structure" in the Microsoft FAT32
    File System Specification). */
module Directory {
  import opened Bytes
  import opened Card
  import opened CString
  import opened Volume

  const SLOTS := 16

  // ---- one record ----

  function Name(r: Slot): seq<Byte> {
    r[..11]
  }

  predicate IsLfn(r: Slot) {
    r[11] == 0x0F
  }

  /** The test the program applies before it treats a slot as the end of the directory. A slot
      whose name was cleared but whose attribute byte is 0x0f does not pass it. */
  predicate IsTerminal(r: Slot) {
    !IsLfn(r) && r[0] == 0
  }

  /** The first cluster, stored as two 16-bit halves. */
  function FirstCluster(r: Slot): Word {
    Le(r[26], r[27], r[20], r[21])
  }

  /** A slot filled in for a new file: name, attribute 0 and both halves of the first cluster;
      the remaining bytes keep whatever they held. */
  function FileRecord(r: Slot, name: seq<Byte>, c: Word): Slot
    requires |name| >= 11
  {
    name[..11] + [0] + r[12..20] + [ByteOf(c, 2), ByteOf(c, 3)] + r[22..26]
    + [ByteOf(c, 0), ByteOf(c, 1)] + r[28..]
  }

  lemma FileRecordFields(r: Slot, name: seq<Byte>, c: Word)
    requires |name| >= 11
    ensures var f := FileRecord(r, name, c);
            Name(f) == name[..11] && f[11] == 0 && FirstCluster(f) == c
            && (IsTerminal(f) <==> name[0] == 0)
  {
    LeOfByteOf(c);
  }

  /** The same record byte by byte: the name at 0, the attribute at 11, the low half of the cluster at
      26 and the high half at 20, low byte first; the other bytes stay. */
  lemma FileRecordBytes(r: Slot, name: seq<Byte>, c: Word)
    requires |name| >= 11
    ensures var f := FileRecord(r, name, c);
            && (forall k :: 0 <= k < 11 ==> f[k] == name[k]) && f[11] == 0
            && f[26] as int + 0x100 * f[27] as int == c % 0x1_0000
            && f[20] as int + 0x100 * f[21] as int == c / 0x1_0000
            && forall k :: 12 <= k < 20 || 22 <= k < 26 || 28 <= k < 32 ==> f[k] == r[k]
  {
    LeOfByteOf(c);
    var b0: int, b1: int, b2: int, b3: int := ByteOf(c, 0), ByteOf(c, 1), ByteOf(c, 2), ByteOf(c, 3);
    assert c == b0 + 0x100 * b1 + 0x1_0000 * (b2 + 0x100 * b3);
  }

  /** Marking a slot as the terminal clears only its first byte. */
  function Cleared(r: Slot): Slot {
    r[0 := 0]
  }

  lemma ClearedIsTerminal(r: Slot)
    ensures IsTerminal(Cleared(r)) <==> !IsLfn(r)
  {
  }

  lemma BlankSlots(i: nat)
    requires i < SLOTS
    ensures IsTerminal(SlotAt(BLANK, i)) && SlotAt(BLANK, i) == Zeros(32)
  {
  }

  // ---- the list ----

  /** Index of the first terminal, or the number of slots when there is none. */
  function Terminal(s: seq<Slot>): (t: nat)
    ensures t <= |s|
    ensures forall k :: 0 <= k < t ==> !IsTerminal(s[k])
    ensures t < |s| ==> IsTerminal(s[t])
  {
    if s == [] || IsTerminal(s[0]) then 0 else 1 + Terminal(s[1..])
  }

  /** The files a scan sees: the slots before the first terminal. */
  function Listing(s: seq<Slot>): seq<Slot> {
    s[..Terminal(s)]
  }

  lemma TerminalIs(s: seq<Slot>, t: nat)
    requires t <= |s| && forall k :: 0 <= k < t ==> !IsTerminal(s[k])
    requires t < |s| ==> IsTerminal(s[t])
    ensures Terminal(s) == t
  {
  }

  // ---- finding a file by name ----

  const NOT_FOUND: Word := WRAP - 1

  predicate Matches(r: Slot, name: seq<Byte>) {
    !IsLfn(r) && SameName(Name(r), name, 11)
  }

  /** The first cluster of the first listed record that matches, or -1. */
  function Lookup(list: seq<Slot>, name: seq<Byte>): Word {
    if list == [] then NOT_FOUND
    else if Matches(list[0], name) then FirstCluster(list[0])
    else Lookup(list[1..], name)
  }

  ghost predicate NoneMatch(s: seq<Slot>, name: seq<Byte>) {
    forall k :: 0 <= k < |s| ==> !Matches(s[k], name)
  }

  lemma {:induction false} LookupAt(list: seq<Slot>, name: seq<Byte>, k: nat)
    requires k < |list| && NoneMatch(list[..k], name) && Matches(list[k], name)
    ensures Lookup(list, name) == FirstCluster(list[k])
  {
    if k > 0 {
      assert list[..k][0] == list[0];
      assert list[1..][..k - 1] == list[..k][1..];
      LookupAt(list[1..], name, k - 1);
    }
  }

  lemma {:induction false} LookupNone(list: seq<Slot>, name: seq<Byte>)
    requires NoneMatch(list, name)
    ensures Lookup(list, name) == NOT_FOUND
  {
    if list != [] {
      LookupNone(list[1..], name);
    }
  }

  /** Among the first `n` slots there is no terminal. */
  ghost predicate NoTerminal(s: seq<Slot>, n: nat) {
    n <= |s| && forall k: nat {:trigger Show(k)} :: Show(k) && k < n ==> !IsTerminal(s[k])
  }

  /** Among the first `n` slots there is neither a terminal nor a match. */
  ghost predicate NoHit(s: seq<Slot>, n: nat, name: seq<Byte>) {
    && NoTerminal(s, n)
    && forall k: nat {:trigger Show(k)} :: Show(k) && k < n ==> !Matches(s[k], name)
  }

  lemma NoTerminalStep(s: seq<Slot>, n: nat)
    requires NoTerminal(s, n) && n < |s| && !IsTerminal(s[n])
    ensures NoTerminal(s, n + 1)
  {
  }

  lemma NoHitStep(s: seq<Slot>, n: nat, name: seq<Byte>)
    requires NoHit(s, n, name) && n < |s| && !IsTerminal(s[n]) && !Matches(s[n], name)
    ensures NoHit(s, n + 1, name)
  {
  }

  lemma TerminalFound(s: seq<Slot>, n: nat)
    requires NoTerminal(s, n) && (n == |s| || IsTerminal(s[n]))
    ensures Terminal(s) == n
  {
    forall k: nat | k < n
      ensures !IsTerminal(s[k])
    {
      assert Show(k);
    }
    TerminalIs(s, n);
  }

  /** A scan of these slots meets a terminal or a match. */
  ghost predicate Decisive(s: seq<Slot>, name: seq<Byte>) {
    forall k: nat {:trigger Show(k)} :: Show(k) ==> Terminal(s) < |s| || !NoneMatch(Listing(s), name)
  }

  lemma DecisiveIs(s: seq<Slot>, name: seq<Byte>)
    ensures Decisive(s, name) <==> Terminal(s) < |s| || !NoneMatch(Listing(s), name)
  {
    assert Show(0);
  }

  /** A match before any terminal is what a lookup finds. */
  lemma HitAt(s: seq<Slot>, name: seq<Byte>, t: nat)
    requires NoHit(s, t, name) && t < |s| && !IsTerminal(s[t]) && Matches(s[t], name)
    ensures Lookup(Listing(s), name) == FirstCluster(s[t]) && Decisive(s, name)
  {
    NoTerminalStep(s, t);
    var list := Listing(s);
    assert t < |list| by {
      if |list| <= t {
        assert Show(|list|);
      }
    }
    forall k | 0 <= k < t
      ensures !Matches(list[..t][k], name)
    {
      assert Show(k) && list[..t][k] == s[k];
    }
    LookupAt(list, name, t);
    assert list[t] == s[t];
  }

  /** Without a match before the end of the list a lookup finds nothing. */
  lemma MissAt(s: seq<Slot>, name: seq<Byte>, t: nat)
    requires NoHit(s, t, name) && (t == |s| || IsTerminal(s[t]))
    ensures Lookup(Listing(s), name) == NOT_FOUND
    ensures Decisive(s, name) <==> t < |s|
  {
    TerminalFound(s, t);
    forall k | 0 <= k < t
      ensures !Matches(Listing(s)[k], name)
    {
      assert Show(k) && Listing(s)[k] == s[k];
    }
    LookupNone(Listing(s), name);
    DecisiveIs(s, name);
  }

  /** -1 is a first cluster no file on a sane volume has; short of that, -1 means no match. */
  lemma {:induction false} LookupMissing(list: seq<Slot>, name: seq<Byte>)
    requires Lookup(list, name) == NOT_FOUND
    requires forall k :: 0 <= k < |list| ==> FirstCluster(list[k]) != NOT_FOUND
    ensures NoneMatch(list, name)
  {
    if list != [] {
      assert forall k :: 0 <= k < |list[1..]| ==> list[1..][k] == list[k + 1];
      LookupMissing(list[1..], name);
      assert forall k :: 0 < k < |list| ==> list[k] == list[1..][k - 1];
    }
  }

  lemma SameNameRefl(name: seq<Byte>, n: nat)
    ensures SameName(name, name, n)
  {
  }

  // ---- the effect of an insertion, on slots ----

  predicate SectorEnd(t: nat) {
    (t + 1) % SLOTS == 0
  }

  /** The slot lies in the last sector of its cluster. */
  predicate InLastSector(t: nat, spc: nat)
    requires spc > 0
  {
    (t / SLOTS + 1) % spc == 0
  }

  /** The slots after writing record `r` at index `t`, in the three layouts where a terminal was
      found: inside a sector the next slot is cleared; at the end of a sector the next sector
      becomes a copy of this one with its first slot cleared; at the end of a cluster nothing
      more is written. */
  function Inserted(s: seq<Slot>, t: nat, r: Slot, spc: nat): (u: seq<Slot>)
    requires t < |s| && |s| % SLOTS == 0 && spc > 0
    requires SectorEnd(t) && !InLastSector(t, spc) ==> t + SLOTS < |s|
    ensures |u| == |s|
  {
    var v := s[t := r];
    if !SectorEnd(t) then v[t + 1 := Cleared(s[t + 1])]
    else if InLastSector(t, spc) then v
    else v[..t + 1] + [Cleared(v[t - 15])] + v[t - 14..t + 1] + v[t + 17..]
  }

  /** The copy of a sector to the next one, slot by slot. */
  lemma CopiedSlot(v: seq<Slot>, t: nat, c: Slot, k: nat)
    requires 15 <= t && t + 16 < |v| && k < |v|
    ensures var u := v[..t + 1] + [c] + v[t - 14..t + 1] + v[t + 17..];
            |u| == |v| && u[k] == if k <= t || t + 16 < k then v[k] else if k == t + 1 then c else v[k - 16]
  {
  }

  /** Which slots an insertion changes, one by one. */
  lemma InsertedBySlot(s: seq<Slot>, t: nat, r: Slot, spc: nat, k: nat)
    requires t < |s| && |s| % SLOTS == 0 && spc > 0 && k < |s|
    requires t % 16 == 15 && (t / 16 + 1) % spc != 0 ==> t + 16 < |s|
    ensures Inserted(s, t, r, spc)[k] ==
            if k == t then r
            else if t % 16 != 15 then (if k == t + 1 then s[k][0 := 0] else s[k])
            else if (t / 16 + 1) % spc == 0 || k < t || t + 16 < k then s[k]
            else if k == t + 1 then s[t - 15][0 := 0]
            else if k == t + 16 then r
            else s[k - 16]
  {
    assert SectorEnd(t) <==> t % 16 == 15;
    if t % 16 == 15 && (t / 16 + 1) % spc != 0 {
      var v := s[t := r];
      CopiedSlot(v, t, Cleared(v[t - 15]), k);
    }
  }

  /** The sector written to a fresh cluster when the directory was full: the last sector read,
      with the new record in front and the slot after it cleared. */
  function FreshSector(s: seq<Slot>, name: seq<Byte>, c: Word): (u: seq<Slot>)
    requires |s| >= SLOTS && |name| >= 11
    ensures |u| == SLOTS
  {
    var last := s[|s| - SLOTS..];
    [FileRecord(last[0], name, c), Cleared(last[1])] + last[2..]
  }

  /** What has to hold of the old slots for the new list to end right after the new record. */
  predicate NextSlotOk(s: seq<Slot>, t: nat, spc: nat)
    requires t <= |s| && |s| % SLOTS == 0 && spc > 0 && |s| > 0
  {
    if t == |s| then !IsLfn(s[|s| - 15])
    else if !SectorEnd(t) then !IsLfn(s[t + 1])
    else if InLastSector(t, spc) then t + 1 == |s| || IsTerminal(s[t + 1])
    else !IsLfn(s[t - 15])
  }

  /** The heart of directory refinement. After an insertion the list is the old list with the new
      record appended exactly when NextSlotOk held: where it fails, the slot meant to become the
      terminal is not recognised and stale slots join the list. */
  lemma InsertionAppends(s: seq<Slot>, t: nat, r: Slot, spc: nat)
    requires t == Terminal(s) < |s| && |s| % SLOTS == 0 && spc > 0 && !IsTerminal(r)
    requires SectorEnd(t) && !InLastSector(t, spc) ==> t + SLOTS < |s|
    ensures Listing(Inserted(s, t, r, spc)) == Listing(s) + [r] <==> NextSlotOk(s, t, spc)
    ensures |Listing(s)| < |Listing(Inserted(s, t, r, spc))|
  {
    var u := Inserted(s, t, r, spc);
    assert u[..t] == s[..t] && u[t] == r;
    assert forall k :: 0 <= k < t ==> u[k] == s[k];
    if t + 1 < |s| {
      NextSlot(s, t, r, spc);
    }
    AppendsWhen(s, t, r, u);
  }

  lemma NextSlot(s: seq<Slot>, t: nat, r: Slot, spc: nat)
    requires t + 1 < |s| && |s| % SLOTS == 0 && spc > 0
    requires SectorEnd(t) && !InLastSector(t, spc) ==> t + SLOTS < |s|
    ensures IsTerminal(Inserted(s, t, r, spc)[t + 1]) <==> NextSlotOk(s, t, spc)
  {
  }

  lemma AppendsWhen(s: seq<Slot>, t: nat, r: Slot, u: seq<Slot>)
    requires t == Terminal(s) && |s| <= |u| && t < |u| && u[t] == r && !IsTerminal(r)
    requires forall k :: 0 <= k < t ==> u[k] == s[k]
    ensures |Listing(s)| < |Listing(u)|
    ensures Listing(u) == Listing(s) + [r] <==> t + 1 == |u| || IsTerminal(u[t + 1])
  {
    var t' := Terminal(u);
    assert t' > t;
    if t + 1 == |u| || IsTerminal(u[t + 1]) {
      assert t' == t + 1;
      assert Listing(u) == Listing(s) + [r];
    } else {
      assert t' != t + 1;
      assert |Listing(u)| == t' && |Listing(s) + [r]| == t + 1;
    }
  }

  lemma FreshSectorSlots(s: seq<Slot>, name: seq<Byte>, c: Word)
    requires |s| >= SLOTS && |name| >= 11 && name[0] != 0
    ensures !IsTerminal(FreshSector(s, name, c)[0])
    ensures IsTerminal(FreshSector(s, name, c)[1]) <==> !IsLfn(s[|s| - 15])
  {
    var last := s[|s| - SLOTS..];
    FileRecordFields(last[0], name, c);
    ClearedIsTerminal(last[1]);
  }

  /** The chain-extension layout: the fresh cluster's slots follow the old ones. */
  lemma ExtensionAppends(s: seq<Slot>, name: seq<Byte>, c: Word, added: seq<Slot>, stale: seq<Slot>)
    requires Terminal(s) == |s| && |s| >= SLOTS && |name| >= 11 && name[0] != 0
    requires added == FreshSector(s, name, c)
    ensures Listing(s + added + stale) == Listing(s) + [added[0]] <==> !IsLfn(s[|s| - 15])
    ensures |Listing(s)| < |Listing(s + added + stale)|
  {
    FreshSectorSlots(s, name, c);
    AddedAppends(s, added, stale);
  }

  lemma AddedAppends(s: seq<Slot>, added: seq<Slot>, stale: seq<Slot>)
    requires Terminal(s) == |s| && |added| == SLOTS && !IsTerminal(added[0])
    ensures Listing(s + added + stale) == Listing(s) + [added[0]] <==> IsTerminal(added[1])
    ensures |Listing(s)| < |Listing(s + added + stale)|
  {
    var u, n := s + added + stale, |s|;
    assert u[n] == added[0] && u[n + 1] == added[1];
    assert forall k :: 0 <= k < n ==> u[k] == s[k];
    AppendsWhen(s, n, added[0], u);
  }

  // ---- sectors of the directory ----

  ghost function ClusterLbas(g: Geometry, c: nat): (a: seq<nat>)
    ensures |a| == g.spc && forall s :: 0 <= s < g.spc ==> a[s] == SectorLba(g, c, s)
  {
    seq(g.spc, s requires 0 <= s => SectorLba(g, c, s))
  }

  /** The addresses of the sectors of a directory whose clusters are `p`, in scan order. */
  ghost function DirLbas(g: Geometry, p: seq<nat>): (a: seq<nat>)
    ensures |a| == |p| * g.spc
  {
    if p == [] then [] else DirLbas(g, p[..|p| - 1]) + ClusterLbas(g, p[|p| - 1])
  }

  lemma {:induction false} DirLbaAt(g: Geometry, p: seq<nat>, i: nat, s: nat)
    requires i < |p| && s < g.spc
    ensures i * g.spc + s < |DirLbas(g, p)| && DirLbas(g, p)[i * g.spc + s] == SectorLba(g, p[i], s)
    decreases |p|
  {
    var n := |p| - 1;
    if i < n {
      DirLbaAt(g, p[..n], i, s);
    }
  }

  /** The slots of the sectors at addresses `a`. */
  function SlotIn(d: Image, a: seq<nat>, k: nat): Slot
    requires k < SLOTS * |a|
  {
    SlotAt(Read(d, a[k / SLOTS]), k % SLOTS)
  }

  ghost predicate IsSlots(d: Image, a: seq<nat>, s: seq<Slot>) {
    |s| == SLOTS * |a| && forall k: nat {:trigger Show(k)} :: Show(k) && k < |s| ==> s[k] == SlotIn(d, a, k)
  }

  ghost function Slots(d: Image, a: seq<nat>): (s: seq<Slot>)
    ensures IsSlots(d, a, s)
    ensures |s| == SLOTS * |a|
  {
    var w := seq(SLOTS * |a|, k requires 0 <= k < SLOTS * |a| => SlotIn(d, a, k));
    assert IsSlots(d, a, w);
    var s :| IsSlots(d, a, s);
    s
  }

  lemma SlotsAt(d: Image, a: seq<nat>, k: nat)
    requires k < SLOTS * |a|
    ensures Slots(d, a)[k] == SlotIn(d, a, k)
  {
    assert Show(k);
  }

  lemma SlotsKept(d: Image, d': Image, a: seq<nat>)
    requires forall i :: 0 <= i < |a| ==> Read(d', a[i]) == Read(d, a[i])
    ensures Slots(d', a) == Slots(d, a)
  {
    forall k | 0 <= k < SLOTS * |a|
      ensures Slots(d', a)[k] == Slots(d, a)[k]
    {
      SlotsAt(d, a, k);
      SlotsAt(d', a, k);
      assert Read(d', a[k / SLOTS]) == Read(d, a[k / SLOTS]);
    }
  }

  ghost predicate Distinct(a: seq<nat>) {
    forall i, j :: 0 <= i < j < |a| ==> a[i] != a[j]
  }

  /** Writing sector `j` of a directory replaces its sixteen slots and nothing else. */
  lemma SlotsWritten(d: Image, a: seq<nat>, j: nat, rs: seq<Slot>)
    requires Distinct(a) && j < |a| && |rs| == SLOTS
    ensures Slots(d[a[j] := EncodeSlots(rs)], a) == Slots(d, a)[..SLOTS * j] + rs + Slots(d, a)[SLOTS * j + SLOTS..]
  {
    var d' := d[a[j] := EncodeSlots(rs)];
    var s, s' := Slots(d, a), Slots(d', a);
    SlotsRoundTrip(rs);
    forall k | 0 <= k < SLOTS * |a|
      ensures s'[k] == if k / SLOTS == j then rs[k % SLOTS] else s[k]
    {
      SlotsAt(d, a, k);
      SlotsAt(d', a, k);
      if k / SLOTS == j {
        assert DecodeSlots(EncodeSlots(rs))[k % SLOTS] == rs[k % SLOTS];
      } else {
        assert Read(d', a[k / SLOTS]) == Read(d, a[k / SLOTS]);
      }
    }
    assert s'[..SLOTS * j] == s[..SLOTS * j];
    assert s'[SLOTS * j..SLOTS * j + SLOTS] == rs;
    assert s'[SLOTS * j + SLOTS..] == s[SLOTS * j + SLOTS..];
  }
}
