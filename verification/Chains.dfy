/** Cluster chains inside a FAT, and what first-fit allocation does to them. Everything here is
    about a FAT as a sequence of words; the program's array and the card come later. */
module Chains {
  import opened Bytes
  import opened Volume

  /** FAT32_TERMINAL_CLUSTER_NO, and the mask CLUSTER_NO() applies. */
  const END: Word := 0x0FFF_FFFF

  function ClusterNo(w: Word): Word {
    w % 0x1000_0000
  }

  lemma ClusterNoKeeps(c: Word)
    requires c <= END
    ensures ClusterNo(c) == c
  {
  }

  function Next(f: Fat, c: nat): Word
    requires c < |f|
  {
    ClusterNo(f[c])
  }

  /** The scans of the program compare the next cluster with -1, but the next cluster is always
      masked to 28 bits: that comparison never succeeds, whatever the FAT holds. */
  lemma MinusOneNeverReached(f: Fat, c: nat)
    requires c < |f|
    ensures Next(f, c) != WRAP - 1
  {
  }

  /** The top four bits of an entry play no part in traversal, though an entry is free only if they are
      0 as well. */
  lemma TopBitsIgnored(f: Fat, c: nat, top: nat, n: nat)
    requires c < |f| && n < 0x1000_0000 && f[c] as nat == 0x1000_0000 * top + n
    ensures Next(f, c) == n
    ensures 2 <= c && Allocatable(f, c) ==> top == 0 && n == 0
  {
  }

  predicate Allocatable(f: Fat, c: nat) {
    2 <= c < |f| && f[c] == 0
  }

  /** `p` lists the clusters of one file: links from each to the next, then the end mark. */
  ghost predicate IsChain(f: Fat, p: seq<nat>) {
    && |p| > 0
    && (forall i :: 0 <= i < |p| ==> 2 <= p[i] < |f|)
    && (forall i :: 0 <= i < |p| - 1 ==> Next(f, p[i]) == p[i + 1])
    && Next(f, p[|p| - 1]) == END
  }

  ghost predicate Disjoint(p: seq<nat>, q: seq<nat>) {
    forall c :: c in p ==> c !in q
  }

  // ---- a FAT determines its chains ----

  lemma ChainTail(f: Fat, p: seq<nat>)
    requires IsChain(f, p) && |p| > 1
    ensures IsChain(f, p[1..])
  {
  }

  lemma ChainSuffix(f: Fat, p: seq<nat>, i: nat)
    requires IsChain(f, p) && i < |p|
    ensures IsChain(f, p[i..])
  {
  }

  lemma {:induction false} ChainUnique(f: Fat, p: seq<nat>, q: seq<nat>)
    requires |f| <= END && IsChain(f, p) && IsChain(f, q) && p[0] == q[0]
    ensures p == q
    decreases |p|
  {
    assert |p| > 1 ==> Next(f, p[0]) == p[1];
    assert |q| > 1 ==> Next(f, q[0]) == q[1];
    if |p| > 1 {
      assert p[1] == Next(f, p[0]) == q[1];
      ChainTail(f, p);
      ChainTail(f, q);
      ChainUnique(f, p[1..], q[1..]);
      assert p == [p[0]] + p[1..] && q == [q[0]] + q[1..];
    }
  }

  /** A chain that reaches the end mark visits no cluster twice. */
  lemma ChainAcyclic(f: Fat, p: seq<nat>, i: nat, j: nat)
    requires |f| <= END && IsChain(f, p) && i < j < |p|
    ensures p[i] != p[j]
  {
    if p[i] == p[j] {
      ChainSuffix(f, p, i);
      ChainSuffix(f, p, j);
      ChainUnique(f, p[i..], p[j..]);
    }
  }

  lemma ChainAllocated(f: Fat, p: seq<nat>, c: nat)
    requires |f| <= END && IsChain(f, p) && c in p
    ensures 2 <= c < |f| && f[c] != 0
  {
    var i :| 0 <= i < |p| && p[i] == c;
    if i < |p| - 1 {
      assert Next(f, p[i]) == p[i + 1];
    }
  }

  /** A chain survives any change that leaves its own entries alone. */
  lemma ChainKept(f: Fat, f': Fat, p: seq<nat>)
    requires IsChain(f, p) && |f'| == |f|
    requires forall c :: c in p ==> f'[c] == f[c]
    ensures IsChain(f', p)
  {
    forall i | 0 <= i < |p|
      ensures f'[p[i]] == f[p[i]]
    {
      assert p[i] in p;
    }
  }

  lemma ChainExtended(f: Fat, f': Fat, p: seq<nat>, c: nat)
    requires IsChain(f, p) && |f'| == |f| <= END
    requires 2 <= c < |f| && c !in p && Next(f', c) == END
    requires f'[p[|p| - 1]] == c
    requires forall x :: x in p && x != p[|p| - 1] ==> f'[x] == f[x]
    ensures IsChain(f', p + [c])
  {
    var q := p + [c];
    forall i | 0 <= i < |q| - 1
      ensures Next(f', q[i]) == q[i + 1]
    {
      if i < |p| - 1 {
        assert p[i] in p;
        ChainAcyclic(f, p, i, |p| - 1);
      }
    }
  }

  // ---- first fit ----

  ghost function FreeSet(f: Fat): set<nat> {
    set c | 2 <= c < |f| && f[c] == 0
  }

  ghost function CountFree(f: Fat): nat {
    |FreeSet(f)|
  }

  /** `s` lists the |s| least free clusters, in increasing order. */
  ghost predicate FirstFit(f: Fat, s: seq<nat>) {
    && (forall i, j :: 0 <= i < j < |s| ==> s[i] < s[j])
    && (forall i :: 0 <= i < |s| ==> Allocatable(f, s[i]))
    && (forall i, c :: 0 <= i < |s| && Allocatable(f, c) && c < s[i] ==> c in s)
  }

  ghost predicate LeastFree(f: Fat, c: nat) {
    Allocatable(f, c) && forall x :: 2 <= x < c ==> f[x] != 0
  }

  /** The FAT after the clusters `s` were handed out: the old one with a chain made of `s`. */
  ghost predicate Linked(f: Fat, f': Fat, s: seq<nat>) {
    && |f'| == |f|
    && (forall c :: 0 <= c < |f| && c !in s ==> f'[c] == f[c])
    && (forall i :: 0 <= i < |s| ==> s[i] < |f|)
    && (forall i :: 0 <= i < |s| - 1 ==> f'[s[i]] == s[i + 1])
    && (|s| > 0 ==> f'[s[|s| - 1]] == END)
  }

  /** The FAT after the free cluster `c` was ended and linked behind cluster `last`. */
  ghost predicate Appended(f: Fat, f': Fat, last: nat, c: nat) {
    && |f'| == |f| && c < |f| && last < |f|
    && f'[c] == END && f'[last] == c
    && forall x: nat :: x < |f| && x != c && x != last ==> f'[x] == f[x]
  }

  /** The least free cluster of the FAT as it stands is the next in first-fit order. */
  lemma FirstFitExtends(f: Fat, f': Fat, s: seq<nat>, c: nat)
    requires |f| <= END && FirstFit(f, s) && Linked(f, f', s) && LeastFree(f', c)
    ensures FirstFit(f, s + [c]) && c !in s
    ensures f'[c] == f[c] == 0
  {
    forall i | 0 <= i < |s|
      ensures f'[s[i]] != 0
    {
      if i < |s| - 1 {
        assert f'[s[i]] == s[i + 1];
      }
    }
    forall i | 0 <= i < |s|
      ensures s[i] < c
    {
      assert c < s[i] ==> c in s;
    }
    assert forall x: nat :: Allocatable(f, x) && x < c ==> x in s;
  }

  lemma LinkedExtends(f: Fat, f': Fat, s: seq<nat>, c: nat)
    requires |f| <= END && FirstFit(f, s) && Linked(f, f', s) && LeastFree(f', c) && |s| > 0
    ensures Linked(f, f'[c := END][s[|s| - 1] := c], s + [c])
  {
    FirstFitExtends(f, f', s, c);
  }

  lemma LinkedStarts(f: Fat, c: nat)
    requires LeastFree(f, c)
    ensures FirstFit(f, [c]) && Linked(f, f[c := END], [c])
  {
  }

  /** What was handed out is a chain, headed by its first cluster. */
  lemma LinkedIsChain(f: Fat, f': Fat, s: seq<nat>)
    requires |f| <= END && FirstFit(f, s) && Linked(f, f', s) && |s| > 0
    ensures IsChain(f', s)
  {
    forall i | 0 <= i < |s|
      ensures 2 <= s[i] < |f'|
      ensures i < |s| - 1 ==> Next(f', s[i]) == s[i + 1]
    {
      assert Allocatable(f, s[i]);
      if i < |s| - 1 {
        assert Allocatable(f, s[i + 1]) && f'[s[i]] == s[i + 1];
      }
    }
  }

  /** The free count drops by exactly the number of clusters handed out. */
  lemma {:induction false} FreeAccounting(f: Fat, f': Fat, s: seq<nat>)
    requires |f| <= END && FirstFit(f, s) && Linked(f, f', s)
    ensures CountFree(f') == CountFree(f) - |s|
    ensures FreeSet(f') == FreeSet(f) - Elements(s)
  {
    var taken := Elements(s);
    forall i | 0 <= i < |s|
      ensures f'[s[i]] != 0
    {
      if i < |s| - 1 {
        assert f'[s[i]] == s[i + 1];
      }
    }
    assert FreeSet(f') == FreeSet(f) - taken;
    assert taken <= FreeSet(f);
    DistinctCount(s);
    assert |FreeSet(f) - taken| == |FreeSet(f)| - |taken|;
  }

  ghost function Elements(s: seq<nat>): set<nat> {
    set c | c in s
  }

  lemma {:induction false} DistinctCount(s: seq<nat>)
    requires forall i, j :: 0 <= i < j < |s| ==> s[i] < s[j]
    ensures |Elements(s)| == |s|
    decreases |s|
  {
    if s == [] {
      assert Elements(s) == {};
    } else {
      var n := |s| - 1;
      DistinctCount(s[..n]);
      OneMore(s[..n], s[n], s);
    }
  }

  lemma OneMore(t: seq<nat>, x: nat, s: seq<nat>)
    requires s == t + [x] && x !in t
    ensures |Elements(s)| == |Elements(t)| + 1
  {
    var a := Elements(t);
    assert x !in a;
    assert Elements(s) == a + {x};
  }

  lemma NoneFree(f: Fat)
    requires forall c :: 2 <= c < |f| ==> f[c] != 0
    ensures CountFree(f) == 0
  {
    assert FreeSet(f) == {};
  }

  /** Between these FATs the first `n` clusters of `a` went out of the free ones, and no other. */
  ghost predicate LosesFirst(f: Fat, f': Fat, a: seq<nat>, n: nat) {
    n <= |a| && FreeSet(f') == FreeSet(f) - Elements(a[..n])
  }

  ghost predicate LosesSome(f: Fat, f': Fat, a: seq<nat>) {
    exists n: nat :: LosesFirst(f, f', a, n)
  }

  lemma LosesAll(f: Fat, f': Fat, a: seq<nat>)
    requires FreeSet(f') == FreeSet(f) - Elements(a)
    ensures LosesFirst(f, f', a, |a|) && LosesSome(f, f', a)
  {
    assert a[..|a|] == a;
    assert LosesFirst(f, f', a, |a|);
  }

  lemma LosesLonger(f: Fat, f': Fat, a: seq<nat>, c: nat)
    requires LosesSome(f, f', a)
    ensures LosesSome(f, f', a + [c])
  {
    var n: nat :| LosesFirst(f, f', a, n);
    assert (a + [c])[..n] == a[..n];
    assert LosesFirst(f, f', a + [c], n);
  }

  /** Ending the free cluster `c` takes it, and nothing else, from the free ones. */
  lemma EndedFree(f: Fat, c: nat)
    requires Allocatable(f, c)
    ensures FreeSet(f[c := END]) == FreeSet(f) - {c}
  {
  }

  lemma LinkedFree(f: Fat, last: nat, c: nat)
    requires 2 <= last < |f| && f[last] != 0 && 0 < c < WRAP
    ensures FreeSet(f[last := c]) == FreeSet(f)
  {
  }

  lemma ElementsSnoc(a: seq<nat>, c: nat)
    ensures Elements(a + [c]) == Elements(a) + {c}
  {
  }

  // ---- the forest of chains ----

  /** Allocation adds exactly one chain, of previously free clusters: every old chain is still
      there, entry for entry, and shares nothing with the new one. */
  lemma AllocationKeepsForest(f: Fat, f': Fat, s: seq<nat>, p: seq<nat>)
    requires |f| <= END && FirstFit(f, s) && Linked(f, f', s) && |s| > 0 && IsChain(f, p)
    ensures IsChain(f', p) && Disjoint(p, s)
  {
    forall c | c in p
      ensures c !in s && f'[c] == f[c]
    {
      ChainAllocated(f, p, c);
    }
    ChainKept(f, f', p);
  }
}
