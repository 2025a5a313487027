/** Whole runs: any number of file creations, completed or cut short by a power failure, interleaved
    with rewrites of sectors of files, as the id table is rewritten. */
module FileRuns {
  import opened Bytes
  import opened Card
  import opened Volume
  import opened Chains
  import opened Directory
  import opened Effects
  import opened FileCreation
  import opened FileSystem
  import opened FileContents
  import opened FileLookup
  import opened CrashSafety
  import opened PowerFailure

  /** One operation: create a file; write the first sector of cluster `c`; begin to create a file and
      lose power after write `k`, with `n` clusters gone from the free ones. What follows a power
      failure starts from the card, as mounting it again does. */
  datatype Op = Create(e: Creation) | Rewrite(c: nat, x: Sector) | Cut(e: Creation, k: nat, n: nat)

  /** A creation proceeds as proved for the driver; a rewrite goes to a cluster of some file; power
      fails anywhere but between the two directory writes of the sector-boundary layout. */
  ghost predicate Allowed(g: Geometry, d: Image, root: seq<nat>, op: Op) {
    match op
    case Create(e) => Creates(g, d, e) && e.root == root
    case Rewrite(c, x) => InUse(g, d, c) && c !in root
    case Cut(e, k, n) =>
      && Creates(g, d, e) && e.root == root && k + 1 < |Images(e)| && !Midway(e, k)
      && LosesFirst(FatOf(g, d), FatOf(g, Images(e)[k]), Handed(e), n)
  }

  /** Power may fail after any of those writes. */
  lemma CutAllowed(g: Geometry, d: Image, e: Creation, k: nat) returns (n: nat)
    requires Sane(g) && Creates(g, d, e) && k + 1 < |Images(e)| && !Midway(e, k)
    ensures Allowed(g, d, e.root, Cut(e, k, n))
  {
    CreationLeaks(g, d, e, k);
    n :| LosesFirst(FatOf(g, d), FatOf(g, Images(e)[k]), Handed(e), n);
  }

  ghost function After(g: Geometry, d: Image, op: Op): Image {
    match op
    case Create(e) => Final(e)
    case Rewrite(c, x) => d[SectorLba(g, c, 0) := x]
    case Cut(e, k, n) => if k < |Images(e)| then Images(e)[k] else d
  }

  function RootAfter(root: seq<nat>, op: Op): seq<nat> {
    match op
    case Create(e) => NewRoot(e)
    case Rewrite(c, x) => root
    case Cut(e, k, n) => CutRoot(e, k)
  }

  ghost predicate Run(g: Geometry, d: Image, root: seq<nat>, ops: seq<Op>)
    decreases |ops|
  {
    ops == [] || (Allowed(g, d, root, ops[0]) && Run(g, After(g, d, ops[0]), RootAfter(root, ops[0]), ops[1..]))
  }

  ghost function End(g: Geometry, d: Image, ops: seq<Op>): Image
    decreases |ops|
  {
    if ops == [] then d else End(g, After(g, d, ops[0]), ops[1..])
  }

  function EndRoot(root: seq<nat>, ops: seq<Op>): seq<nat>
    decreases |ops|
  {
    if ops == [] then root else EndRoot(RootAfter(root, ops[0]), ops[1..])
  }

  /** The creations that a run completes, in order. */
  function Made(ops: seq<Op>): seq<Creation> {
    if ops == [] then []
    else (if ops[0].Create? then [ops[0].e] else []) + Made(ops[1..])
  }

  // ---- rewrites ----

  lemma RewriteKeeps(g: Geometry, d: Image, root: seq<nat>, c: nat, x: Sector)
    requires Sane(g) && RootChain(g, d, root) && InUse(g, d, c) && c !in root
    ensures var d' := d[SectorLba(g, c, 0) := x];
            SameFat(g, d, d') && RootChain(g, d', root) && RootSlots(g, d', root) == RootSlots(g, d, root)
  {
    var d' := d[SectorLba(g, c, 0) := x];
    DataWriteKeeps(g, d, c, 0, x);
    var a := DirLbas(g, root);
    forall i | 0 <= i < |a|
      ensures Read(d', a[i]) == Read(d, a[i])
    {
      var j, k := SectorOwner(g, root, i);
      AddressInjective(g, root[j], k, c, 0);
    }
    SlotsKept(d, d', a);
  }

  lemma RewriteElsewhere(g: Geometry, d: Image, c: nat, x: Sector, y: nat)
    requires Sane(g) && InUse(g, d, c) && IsCluster(g, y) && y != c
    ensures Untouched(g, d, d[SectorLba(g, c, 0) := x], y)
  {
    DataWriteKeeps(g, d, c, 0, x);
    forall s: nat | s < g.spc
      ensures SectorLba(g, y, s) != SectorLba(g, c, 0)
    {
      AddressInjective(g, y, s, c, 0);
    }
  }

  /** The directory's chain, and how it changes. */
  lemma RootKept(g: Geometry, d: Image, root: seq<nat>, op: Op)
    requires Sane(g) && RootChain(g, d, root) && Allowed(g, d, root, op)
    ensures RootChain(g, After(g, d, op), RootAfter(root, op))
  {
    match op
    case Create(e) => CreationForest(g, d, e);
    case Rewrite(c, x) => RewriteKeeps(g, d, root, c, x);
    case Cut(e, k, n) => CutIsHealthy(g, d, e, k);
  }

  // ---- first-fit accounting ----

  /** All clusters that left the free ones during a run, in order. */
  function Taken(ops: seq<Op>): seq<nat> {
    if ops == [] then [] else TakenBy(ops[0]) + Taken(ops[1..])
  }

  function TakenBy(op: Op): seq<nat> {
    match op
    case Create(e) => Handed(e)
    case Rewrite(_, _) => []
    case Cut(e, _, n) => if n <= |Handed(e)| then Handed(e)[..n] else []
  }

  lemma FirstFitPrefix(f: Fat, s: seq<nat>, n: nat)
    requires FirstFit(f, s) && n <= |s|
    ensures FirstFit(f, s[..n])
  {
    forall i, c | 0 <= i < n && Allocatable(f, c) && c < s[..n][i]
      ensures c in s[..n]
    {
      var j :| 0 <= j < |s| && s[j] == c;
      assert j < i;
      assert s[..n][j] == c;
    }
  }

  lemma FirstFitConcat(f: Fat, f': Fat, a: seq<nat>, b: seq<nat>)
    requires |f| == |f'| && FirstFit(f, a) && FreeSet(f') == FreeSet(f) - Elements(a) && FirstFit(f', b)
    ensures FirstFit(f, a + b)
  {
    forall x | x in b
      ensures Allocatable(f, x) && x !in a && forall i :: 0 <= i < |a| ==> a[i] < x
    {
      var j :| 0 <= j < |b| && b[j] == x;
      assert Allocatable(f', b[j]) && x in FreeSet(f');
      assert x in FreeSet(f) && x !in Elements(a);
    }
    var t := a + b;
    forall i, x | 0 <= i < |t| && Allocatable(f, x) && x < t[i]
      ensures x in t
    {
      if i >= |a| && x !in a {
        assert x in FreeSet(f) && x !in Elements(a);
        assert x in FreeSet(f');
        assert Allocatable(f', x) && t[i] == b[i - |a|];
      }
    }
    forall i, j | 0 <= i < j < |t|
      ensures t[i] < t[j]
    {
      if i < |a| <= j {
        assert t[j] == b[j - |a|] && t[j] in b;
      }
    }
    forall i | 0 <= i < |t|
      ensures Allocatable(f, t[i])
    {
      if |a| <= i {
        assert t[i] == b[i - |a|] && t[i] in b;
      }
    }
  }

  /** Between these FATs the clusters `a` were handed out, first-fit, and no other. */
  ghost predicate Takes(f: Fat, f': Fat, a: seq<nat>) {
    |f| == |f'| && FirstFit(f, a) && FreeSet(f') == FreeSet(f) - Elements(a)
  }

  lemma TakesConcat(f: Fat, f': Fat, f'': Fat, a: seq<nat>, b: seq<nat>)
    requires Takes(f, f', a) && Takes(f', f'', b)
    ensures Takes(f, f'', a + b)
  {
    FirstFitConcat(f, f', a, b);
    assert Elements(a + b) == Elements(a) + Elements(b);
  }

  lemma TakenByOne(g: Geometry, d: Image, root: seq<nat>, op: Op)
    requires Sane(g) && RootChain(g, d, root) && Allowed(g, d, root, op)
    ensures Takes(FatOf(g, d), FatOf(g, After(g, d, op)), TakenBy(op))
  {
    match op
    case Create(e) => CreationAccounting(g, d, e);
    case Rewrite(c, x) => RewriteKeeps(g, d, root, c, x);
    case Cut(e, k, n) =>
      CreationAccounting(g, d, e);
      FirstFitPrefix(FatOf(g, d), Handed(e), n);
  }

  lemma {:induction false} TakenInOrder(g: Geometry, d: Image, root: seq<nat>, ops: seq<Op>)
    requires Sane(g) && RootChain(g, d, root) && Run(g, d, root, ops)
    ensures Takes(FatOf(g, d), FatOf(g, End(g, d, ops)), Taken(ops))
    decreases |ops|
  {
    if ops != [] {
      var d' := After(g, d, ops[0]);
      assert Takes(FatOf(g, d), FatOf(g, d'), TakenBy(ops[0])) by {
        TakenByOne(g, d, root, ops[0]);
      }
      assert Takes(FatOf(g, d'), FatOf(g, End(g, d, ops)), Taken(ops[1..])) by {
        RootKept(g, d, root, ops[0]);
        TakenInOrder(g, d', RootAfter(root, ops[0]), ops[1..]);
      }
      TakesConcat(FatOf(g, d), FatOf(g, d'), FatOf(g, End(g, d, ops)), TakenBy(ops[0]), Taken(ops[1..]));
    }
  }

  /** First-fit accounting over a whole run, power failures included: the clusters handed out, taken
      together in the order they were handed out, are strictly increasing and are the least free
      clusters of the card as it stood at the start; the free count drops by exactly their number. */
  lemma RunAccounting(g: Geometry, d: Image, root: seq<nat>, ops: seq<Op>)
    requires Sane(g) && RootChain(g, d, root) && Run(g, d, root, ops)
    ensures FirstFit(FatOf(g, d), Taken(ops))
    ensures CountFree(FatOf(g, End(g, d, ops))) == CountFree(FatOf(g, d)) - |Taken(ops)|
  {
    TakenInOrder(g, d, root, ops);
    TakenCount(FatOf(g, d), FatOf(g, End(g, d, ops)), Taken(ops));
  }

  // ---- clusters nobody writes ----

  lemma StepKeepsCluster(g: Geometry, d: Image, root: seq<nat>, op: Op, y: nat)
    requires Sane(g) && RootChain(g, d, root) && Allowed(g, d, root, op)
    requires InUse(g, d, y) && y !in root && !(op.Rewrite? && op.c == y)
    ensures Untouched(g, d, After(g, d, op), y) && InUse(g, After(g, d, op), y) && y !in RootAfter(root, op)
  {
    match op
    case Create(e) => CreationKeepsClusters(g, d, e, y);
    case Rewrite(c, x) => RewriteElsewhere(g, d, c, x, y);
    case Cut(e, k, n) => CreationKeepsClusters(g, d, e, y);
  }

  /** Stability over a run: a file's cluster that is not itself rewritten keeps all its sectors. */
  lemma {:induction false} RunKeepsCluster(g: Geometry, d: Image, root: seq<nat>, ops: seq<Op>, y: nat)
    requires Sane(g) && RootChain(g, d, root) && Run(g, d, root, ops) && InUse(g, d, y) && y !in root
    requires forall i :: 0 <= i < |ops| && ops[i].Rewrite? ==> ops[i].c != y
    ensures Untouched(g, d, End(g, d, ops), y) && InUse(g, End(g, d, ops), y) && y !in EndRoot(root, ops)
    decreases |ops|
  {
    if ops != [] {
      RootKept(g, d, root, ops[0]);
      StepKeepsCluster(g, d, root, ops[0], y);
      forall i | 0 <= i < |ops[1..]| && ops[1..][i].Rewrite?
        ensures ops[1..][i].c != y
      {
        assert ops[1..][i] == ops[i + 1];
      }
      RunKeepsCluster(g, After(g, d, ops[0]), RootAfter(root, ops[0]), ops[1..], y);
    }
  }

  // ---- the directory over a run ----

  ghost predicate NamesStart(ops: seq<Op>) {
    forall i :: 0 <= i < |ops| && ops[i].Create? ==> |ops[i].e.name| >= 11 && ops[i].e.name[0] != 0
  }

  /** `more` lists the files of the creations `made`. */
  ghost predicate Lists(more: seq<Slot>, made: seq<Creation>) {
    && |more| == |made|
    && forall i :: 0 <= i < |made| ==>
                     |made[i].name| >= 11 && !IsLfn(more[i])
                     && Name(more[i]) == made[i].name[..11] && FirstCluster(more[i]) == made[i].out
  }

  lemma RewriteHealthy(g: Geometry, d: Image, root: seq<nat>, c: nat, x: Sector)
    requires Sane(g) && Healthy(g, d, root) && InUse(g, d, c) && c !in root
    ensures var d' := d[SectorLba(g, c, 0) := x];
            Healthy(g, d', root) && ListOf(g, d', root) == ListOf(g, d, root) && (Mounted(g, d) ==> Mounted(g, d'))
  {
    var d' := d[SectorLba(g, c, 0) := x];
    HealthyIs(g, d, root);
    RewriteKeeps(g, d, root, c, x);
    MountedKept(g, d, d');
    HealthyIs(g, d', root);
  }

  /** The list `after` is `before` followed by the files of the creations `made`. */
  ghost predicate Gains(before: seq<Slot>, after: seq<Slot>, made: seq<Creation>) {
    before <= after && Lists(after[|before|..], made)
  }

  lemma GainsPrefix(before: seq<Slot>, after: seq<Slot>, made: seq<Creation>)
    requires Gains(before, after, made)
    ensures before <= after
  {
  }

  lemma GainsNothing(list: seq<Slot>)
    ensures Gains(list, list, [])
  {
  }

  lemma GainsOne(list: seq<Slot>, r: Slot, e: Creation)
    requires |e.name| >= 11 && !IsLfn(r) && Name(r) == e.name[..11] && FirstCluster(r) == e.out
    ensures Gains(list, list + [r], [e])
  {
    assert (list + [r])[|list|..] == [r];
  }

  lemma GainsConcat(l0: seq<Slot>, l1: seq<Slot>, l2: seq<Slot>, a: seq<Creation>, b: seq<Creation>)
    requires Gains(l0, l1, a) && Gains(l1, l2, b)
    ensures Gains(l0, l2, a + b)
  {
    var x, y := l1[|l0|..], l2[|l1|..];
    assert l2[|l0|..] == x + y;
    forall i | 0 <= i < |a + b|
      ensures Lists([(x + y)[i]], [(a + b)[i]])
    {
      if i < |a| {
        assert (x + y)[i] == x[i];
      } else {
        assert (x + y)[i] == y[i - |a|];
      }
    }
    assert forall i :: 0 <= i < |a + b| ==> Lists([(x + y)[i]], [(a + b)[i]]);
  }

  lemma StepHealthy(g: Geometry, d: Image, root: seq<nat>, op: Op)
    requires Sane(g) && Healthy(g, d, root) && Allowed(g, d, root, op) && NamesStart([op])
    ensures Healthy(g, After(g, d, op), RootAfter(root, op))
    ensures Mounted(g, d) ==> Mounted(g, After(g, d, op))
    ensures Gains(ListOf(g, d, root), ListOf(g, After(g, d, op), RootAfter(root, op)), Made([op]))
  {
    assert [op][0] == op;
    MadeOne(op);
    var list := ListOf(g, d, root);
    match op
    case Create(e) =>
      CreationHealthy(g, d, e);
      GainsOne(list, Record(g, d, e), e);
    case Rewrite(c, x) =>
      RewriteHealthy(g, d, root, c, x);
      GainsNothing(list);
    case Cut(e, k, n) =>
      CutIsHealthy(g, d, e, k);
      GainsNothing(list);
  }

  lemma MadeOne(op: Op)
    ensures Made([op]) == if op.Create? then [op.e] else []
  {
    assert [op][1..] == [];
  }

  lemma MadeFirst(ops: seq<Op>)
    requires ops != []
    ensures Made(ops) == Made([ops[0]]) + Made(ops[1..])
    ensures NamesStart(ops) ==> NamesStart([ops[0]]) && NamesStart(ops[1..])
  {
    assert forall i :: 0 <= i < |ops[1..]| ==> ops[1..][i] == ops[i + 1];
  }

  /** Directory refinement and soundness over a whole run, from a healthy card: the final list is
      the initial one followed by one record for each file created, in order, each carrying its
      name and the cluster its creation returned; and the card is healthy again. */
  lemma {:induction false} RunHealthy(g: Geometry, d: Image, root: seq<nat>, ops: seq<Op>)
    requires Sane(g) && Healthy(g, d, root) && Run(g, d, root, ops) && NamesStart(ops)
    ensures Healthy(g, End(g, d, ops), EndRoot(root, ops))
    ensures Mounted(g, d) ==> Mounted(g, End(g, d, ops))
    ensures Gains(ListOf(g, d, root), ListOf(g, End(g, d, ops), EndRoot(root, ops)), Made(ops))
    decreases |ops|
  {
    if ops != [] {
      var d', root' := After(g, d, ops[0]), RootAfter(root, ops[0]);
      MadeFirst(ops);
      StepHealthy(g, d, root, ops[0]);
      RunHealthy(g, d', root', ops[1..]);
      GainsConcat(ListOf(g, d, root), ListOf(g, d', root'), ListOf(g, End(g, d, ops), EndRoot(root, ops)),
                  Made([ops[0]]), Made(ops[1..]));
    }
  }

  /** Crash safety at any point of a run, in which power may have failed before: a power failure after
      write `k` of the next creation leaves a healthy card that mounts and lists everything the run
      created so far, and the new file if that was the last write. */
  lemma RunIsCrashSafe(g: Geometry, d: Image, root: seq<nat>, ops: seq<Op>, e: Creation, k: nat)
    requires Sane(g) && Healthy(g, d, root) && Run(g, d, root, ops) && NamesStart(ops + [Create(e)])
    requires Creates(g, End(g, d, ops), e) && e.root == EndRoot(root, ops)
    requires k < |Images(e)| && !Midway(e, k)
    ensures Healthy(g, Images(e)[k], CutRoot(e, k)) && (Mounted(g, d) ==> Mounted(g, Images(e)[k]))
    ensures Gains(ListOf(g, d, root), ListOf(g, Images(e)[k], CutRoot(e, k)),
                  if k + 1 < |Images(e)| then Made(ops) else Made(ops) + [e])
  {
    NamesLast(ops, e);
    RunHealthy(g, d, root, ops);
    if k + 1 < |Images(e)| {
      CutIsHealthy(g, End(g, d, ops), e, k);
    } else {
      LastIsFinal(g, End(g, d, ops), e, k);
      CompletedGains(g, End(g, d, ops), e, ListOf(g, d, root), Made(ops));
    }
  }

  lemma NamesLast(ops: seq<Op>, e: Creation)
    requires NamesStart(ops + [Create(e)])
    ensures NamesStart(ops) && |e.name| >= 11 && e.name[0] != 0
  {
    assert forall i :: 0 <= i < |ops| ==> (ops + [Create(e)])[i] == ops[i];
    assert (ops + [Create(e)])[|ops|] == Create(e);
  }

  lemma CompletedGains(g: Geometry, d: Image, e: Creation, list: seq<Slot>, made: seq<Creation>)
    requires Sane(g) && Healthy(g, d, e.root) && Creates(g, d, e) && |e.name| >= 11 && e.name[0] != 0
    requires Gains(list, ListOf(g, d, e.root), made)
    ensures Healthy(g, Final(e), NewRoot(e)) && (Mounted(g, d) ==> Mounted(g, Final(e)))
    ensures Gains(list, ListOf(g, Final(e), NewRoot(e)), made + [e])
  {
    CreationHealthy(g, d, e);
    GainsOne(ListOf(g, d, e.root), Record(g, d, e), e);
    GainsConcat(list, ListOf(g, d, e.root), ListOf(g, Final(e), NewRoot(e)), made, [e]);
  }

  lemma LastIsFinal(g: Geometry, d: Image, e: Creation, k: nat)
    requires Sane(g) && Creates(g, d, e) && k + 1 == |Images(e)|
    ensures Images(e)[k] == Final(e) && CutRoot(e, k) == NewRoot(e)
  {
    var last := LastImage(g, d, e);
    if InPlace(g, d, e) {
      InPlaceUngrown(g, d, e);
    } else {
      ExtendedParts(g, d, e);
      assert |Images(e)| >= 3;
    }
  }

  /** A file that a lookup finds is found at the same cluster after any run. */
  lemma RunKeepsFound(g: Geometry, d: Image, root: seq<nat>, ops: seq<Op>, name: seq<Byte>)
    requires Sane(g) && Healthy(g, d, root) && Run(g, d, root, ops) && NamesStart(ops)
    requires !NoneMatch(ListOf(g, d, root), name)
    ensures Lookup(ListOf(g, End(g, d, ops), EndRoot(root, ops)), name) == Lookup(ListOf(g, d, root), name)
  {
    RunHealthy(g, d, root, ops);
    GainsPrefix(ListOf(g, d, root), ListOf(g, End(g, d, ops), EndRoot(root, ops)), Made(ops));
    PrefixFound(ListOf(g, d, root), ListOf(g, End(g, d, ops), EndRoot(root, ops)), name);
  }
}
