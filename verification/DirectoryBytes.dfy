/** Looking a file up, in the bytes of the directory's records alone: attribute at offset 11, the halves
    of the first cluster at 26 and 20 ("FAT Directory Structure" in the Microsoft FAT32 File System
    Specification). */
module DirectoryBytes {
  import opened Bytes
  import opened CString
  import opened Directory

  /** Slot `k` is before the end of the list: up to it only slots with attribute 0x0f start with 0. */
  ghost predicate Listed(s: seq<Slot>, k: nat) {
    k < |s| && forall j :: 0 <= j <= k ==> s[j][11] == 0x0F || s[j][0] != 0
  }

  /** Slot `k` holds a listed file that `strncmp` takes for `name`. */
  ghost predicate FileFor(s: seq<Slot>, k: nat, name: seq<Byte>) {
    Listed(s, k) && s[k][11] != 0x0F && Agree(s[k][..11], name, 11)
  }

  /** Slot `k` holds the listed file with these eleven bytes as its name. */
  ghost predicate Called(s: seq<Slot>, k: nat, name: seq<Byte>) {
    Listed(s, k) && s[k][11] != 0x0F && s[k][..11] == name
  }

  function ClusterBytes(r: Slot): nat {
    r[26] as nat + 0x100 * r[27] as nat + 0x1_0000 * r[20] as nat + 0x100_0000 * r[21] as nat
  }

  /** `c` is the first cluster of the first file taken for `name`, or -1 if there is none. */
  ghost predicate Finds(s: seq<Slot>, name: seq<Byte>, c: Word) {
    if exists k: nat :: FileFor(s, k, name)
    then exists k: nat ::
      FileFor(s, k, name) && (forall j: nat :: j < k ==> !FileFor(s, j, name)) && c == ClusterBytes(s[k])
    else c == 0xFFFF_FFFF
  }

  /** The same for the file called `name`. */
  ghost predicate FindsCalled(s: seq<Slot>, name: seq<Byte>, c: Word) {
    if exists k: nat :: Called(s, k, name)
    then exists k: nat ::
      Called(s, k, name) && (forall j: nat :: j < k ==> !Called(s, j, name)) && c == ClusterBytes(s[k])
    else c == 0xFFFF_FFFF
  }

  /** The name asked for and the names of all listed files are eleven bytes other than 0 and 0xff. */
  ghost predicate PlainNames(s: seq<Slot>, name: seq<Byte>) {
    && |name| >= 11 && Plain(name[..11])
    && forall k: nat :: Listed(s, k) && s[k][11] != 0x0F ==> Plain(s[k][..11])
  }

  lemma ListedIs(s: seq<Slot>, k: nat)
    ensures Listed(s, k) <==> k < Terminal(s)
  {
    if k < |s| && Terminal(s) <= k {
      assert IsTerminal(s[Terminal(s)]);
    }
    if k < Terminal(s) {
      forall j | 0 <= j <= k
        ensures s[j][11] == 0x0F || s[j][0] != 0
      {
        assert !IsTerminal(s[j]);
      }
    }
  }

  lemma FileForIs(s: seq<Slot>, k: nat, name: seq<Byte>)
    ensures FileFor(s, k, name) <==> k < |Listing(s)| && Matches(Listing(s)[k], name)
  {
    ListedIs(s, k);
    if k < |s| {
      SameNameBytes(Name(s[k]), name, 11);
    }
  }

  /** What a lookup returns, in bytes. */
  lemma LookupFinds(s: seq<Slot>, name: seq<Byte>)
    ensures Finds(s, name, Lookup(Listing(s), name))
  {
    var list := Listing(s);
    forall k: nat
      ensures FileFor(s, k, name) <==> k < |list| && Matches(list[k], name)
    {
      FileForIs(s, k, name);
    }
    if exists k: nat :: FileFor(s, k, name) {
      var k := LeastTaken(s, name);
      forall j | 0 <= j < k
        ensures !Matches(list[..k][j], name)
      {
        assert !FileFor(s, j, name) && list[..k][j] == list[j];
      }
      LookupAt(list, name, k);
      assert FirstCluster(s[k]) == ClusterBytes(s[k]);
    } else {
      forall j | 0 <= j < |list|
        ensures !Matches(list[j], name)
      {
        assert !FileFor(s, j, name);
      }
      LookupNone(list, name);
    }
  }

  lemma LeastTaken(s: seq<Slot>, name: seq<Byte>) returns (k: nat)
    requires exists k: nat :: FileFor(s, k, name)
    ensures FileFor(s, k, name) && forall j: nat :: j < k ==> !FileFor(s, j, name)
  {
    k := 0;
    while !FileFor(s, k, name)
      invariant forall j: nat :: j < k ==> !FileFor(s, j, name)
      invariant k < |s|
      decreases |s| - k
    {
      var x: nat :| FileFor(s, x, name);
      k := k + 1;
    }
  }

  /** Where no name ends early, the file found is the one called that name. */
  lemma FindsByName(s: seq<Slot>, name: seq<Byte>, c: Word)
    requires Finds(s, name, c) && PlainNames(s, name)
    ensures FindsCalled(s, name[..11], c)
  {
    forall k: nat
      ensures FileFor(s, k, name) <==> Called(s, k, name[..11])
    {
      if Listed(s, k) && s[k][11] != 0x0F {
        var n := s[k][..11];
        assert n[..11] == n;
        PlainAgree(n, name, 11);
      }
    }
  }

  lemma LookupMeans(s: seq<Slot>, name: seq<Byte>)
    ensures Finds(s, name, Lookup(Listing(s), name))
    ensures PlainNames(s, name) ==> FindsCalled(s, name[..11], Lookup(Listing(s), name))
  {
    LookupFinds(s, name);
    if PlainNames(s, name) {
      FindsByName(s, name, Lookup(Listing(s), name));
    }
  }
}
