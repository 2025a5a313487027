/** The program's own `strncpy` and `strncmp` (pi-src/string.c). Both treat 0 and 0xff as the
    end of a string, and `strncmp` reports "equal" as soon as either string ends. */
module CString {
  import opened Bytes

  predicate Stops(b: Byte) {
    b == 0 || b == 0xff
  }

  predicate Plain(s: seq<Byte>) {
    forall i :: 0 <= i < |s| ==> !Stops(s[i])
  }

  /** The string a buffer holds: everything before its first 0 or 0xff. */
  function Text(s: seq<Byte>): (t: seq<Byte>)
    ensures t <= s && Plain(t)
    ensures |t| < |s| ==> Stops(s[|t|])
  {
    if s == [] || Stops(s[0]) then [] else [s[0]] + Text(s[1..])
  }

  lemma {:induction false} TextIs(s: seq<Byte>, k: nat)
    requires k <= |s| && Plain(s[..k])
    requires k < |s| ==> Stops(s[k])
    ensures Text(s) == s[..k]
  {
    if k > 0 {
      assert s[..k][0] == s[0];
      assert s[1..][..k - 1] == s[..k][1..];
      assert s[..k] == [s[0]] + s[..k][1..];
      TextIs(s[1..], k - 1);
    }
  }

  lemma TextOfPlain(t: seq<Byte>, rest: seq<Byte>)
    requires Plain(t)
    requires rest != [] ==> Stops(rest[0])
    ensures Text(t + rest) == t
  {
    assert (t + rest)[..|t|] == t;
    TextIs(t + rest, |t|);
  }

  /** A caller may pass a buffer of at least `n` bytes, or a shorter one that ends. */
  predicate Readable(s: seq<Byte>, n: nat) {
    n <= |s| || |Text(s)| < |s|
  }

  function Clip(s: seq<Byte>, n: nat): seq<Byte> {
    if n <= |s| then s[..n] else s
  }

  /** A buffer after `text` and a terminator were put at `at`. */
  function Terminated(was: seq<Byte>, at: nat, text: seq<Byte>): seq<Byte>
    requires at + |text| < |was|
  {
    was[..at] + text + [0] + was[at + |text| + 1..]
  }

  /** The loop of either function, reading up to `n` bytes of `src`, meets the bytes of `text` and
      then a stop. */
  ghost predicate Spells(src: seq<Byte>, n: nat, text: seq<Byte>) {
    forall k: nat {:trigger Show(k)} :: Show(k) && k <= |text| && k < n ==>
                                          && k < |src| && (Stops(src[k]) <==> k == |text|)
                                          && (k < |text| ==> src[k] == text[k])
  }

  lemma TextSpells(src: seq<Byte>, n: nat)
    requires Readable(src, n)
    ensures Spells(src, n, Text(src)) && Spells(src, n, Text(Clip(src, n))) && |Text(Clip(src, n))| <= n
  {
    forall k: nat {:trigger Show(k)} | k <= |Text(src)| && k < n
      ensures k < |src| && (Stops(src[k]) <==> k == |Text(src)|) && (k < |Text(src)| ==> src[k] == Text(src)[k])
    {
      if k < |Text(src)| {
        assert src[k] == Text(src)[k];
      }
    }
    forall k: nat {:trigger Show(k)} | k <= |Text(Clip(src, n))| && k < n
      ensures k < |src| && (Stops(src[k]) <==> k == |Text(Clip(src, n))|)
      ensures k < |Text(Clip(src, n))| ==> src[k] == Text(Clip(src, n))[k]
    {
      TextAt(src, n, k);
    }
  }

  /** Copies at most `n - 1` bytes of text and always terminates; the rest of the
      destination keeps its bytes. */
  method Strncpy(dst: array<Byte>, at: nat, src: seq<Byte>, n: nat)
    requires at + n <= dst.Length && Readable(src, n)
    modifies dst
    ensures dst[..] == if n == 0 then old(dst[..]) else Terminated(old(dst[..]), at, Clip(Text(src), n - 1))
  {
    if n == 0 {
      return;
    }
    TextSpells(src, n);
    CopyText(dst, at, src, n, Text(src));
  }

  /** The copying loop and the terminator. */
  method CopyText(dst: array<Byte>, at: nat, src: seq<Byte>, n: nat, ghost text: seq<Byte>)
    requires 0 < n && at + n <= dst.Length && Spells(src, n, text)
    modifies dst
    ensures dst[..] == Terminated(old(dst[..]), at, Clip(text, n - 1))
  {
    ghost var was := dst[..];
    var i := 0;
    assert Show(0);
    while i < n && src[i] != 0 && src[i] != 0xff
      invariant i <= n && i <= |text| && (i < n ==> i < |src|)
      invariant i < n ==> (Stops(src[i]) <==> i == |text|) && (i < |text| ==> src[i] == text[i])
      invariant forall k :: 0 <= k < dst.Length ==>
                              dst[k] == if at <= k < at + i then text[k - at] else was[k]
      decreases n - i
    {
      assert Show(i + 1);
      dst[at + i] := src[i];
      i := i + 1;
    }
    var end := if i == n then n - 1 else i;
    dst[at + end] := 0;
    SplicedText(dst[..], was, at, Clip(text, n - 1));
  }

  lemma SplicedText(now: seq<Byte>, was: seq<Byte>, at: nat, text: seq<Byte>)
    requires |now| == |was| && at + |text| < |was|
    requires forall k :: 0 <= k < at ==> now[k] == was[k]
    requires forall k :: 0 <= k < |text| ==> now[at + k] == text[k]
    requires now[at + |text|] == 0
    requires forall k :: at + |text| < k < |was| ==> now[k] == was[k]
    ensures now == Terminated(was, at, text)
  {
    assert now[..at] == was[..at];
    assert now[at..at + |text|] == text;
    assert now[at + |text| + 1..] == was[at + |text| + 1..];
  }

  /** What `strncmp` decides: within the first `n` bytes, one text is a prefix of the other. */
  predicate SameName(a: seq<Byte>, b: seq<Byte>, n: nat) {
    var s, t := Text(Clip(a, n)), Text(Clip(b, n));
    s <= t || t <= s
  }

  /** Two texts that agree on their first `i` bytes are ordered by what comes next. */
  lemma FirstDifference(s: seq<Byte>, t: seq<Byte>, i: nat)
    requires i <= |s| && i <= |t| && s[..i] == t[..i]
    ensures |s| == i ==> s <= t
    ensures |t| == i ==> t <= s
    ensures i < |s| && i < |t| && s[i] != t[i] ==> !(s <= t) && !(t <= s)
  {
  }

  method Strncmp(a: seq<Byte>, b: seq<Byte>, n: nat) returns (ret: int)
    requires Readable(a, n) && Readable(b, n)
    ensures ret == 0 || ret == -1
    ensures ret == 0 <==> SameName(a, b, n)
  {
    TextSpells(a, n);
    TextSpells(b, n);
    ret := CompareTexts(a, b, n, Text(Clip(a, n)), Text(Clip(b, n)));
  }

  /** The comparing loop. */
  method CompareTexts(a: seq<Byte>, b: seq<Byte>, n: nat, ghost s: seq<Byte>, ghost t: seq<Byte>) returns (ret: int)
    requires Spells(a, n, s) && Spells(b, n, t) && |s| <= n && |t| <= n
    ensures ret == 0 || ret == -1
    ensures ret == 0 <==> s <= t || t <= s
  {
    var i := 0;
    while i < n
      invariant i <= n && i <= |s| && i <= |t|
      invariant s[..i] == t[..i]
    {
      assert Show(i);
      FirstDifference(s, t, i);
      if a[i] == 0 || b[i] == 0 || a[i] == 0xff || b[i] == 0xff {
        return 0;
      }
      if a[i] != b[i] {
        return -1;
      }
      i := i + 1;
    }
    FirstDifference(s, t, i);
    return 0;
  }

  lemma TextAt(a: seq<Byte>, n: nat, i: nat)
    requires Readable(a, n) && i < n && i <= |Text(Clip(a, n))|
    ensures i < |a| && (Stops(a[i]) <==> i == |Text(Clip(a, n))|)
    ensures i < |Text(Clip(a, n))| ==> Text(Clip(a, n))[i] == a[i]
  {
    var c, t := Clip(a, n), Text(Clip(a, n));
    assert |t| <= |c|;
    if |a| < n {
      assert |t| < |c|;
    }
    assert a[i] == c[i];
    if i < |t| {
      assert t[i] == c[i];
    }
  }

  // ---- the comparison, byte by byte ----

  /** Neither 0 nor 0xff up to byte `i`. */
  predicate Unended(a: seq<Byte>, i: nat) {
    i < |a| && forall j :: 0 <= j <= i ==> a[j] != 0 && a[j] != 0xff
  }

  /** Bytes of the first `n` that both strings reach are the same. */
  predicate Agree(a: seq<Byte>, b: seq<Byte>, n: nat) {
    forall i :: 0 <= i < n && Unended(a, i) && Unended(b, i) ==> a[i] == b[i]
  }

  lemma TextReaches(a: seq<Byte>, n: nat, i: nat)
    requires i < n
    ensures i < |Text(Clip(a, n))| <==> Unended(a, i)
    ensures Unended(a, i) ==> Text(Clip(a, n))[i] == a[i]
  {
    var c, t := Clip(a, n), Text(Clip(a, n));
    if i < |t| {
      forall j | 0 <= j <= i
        ensures a[j] != 0 && a[j] != 0xff
      {
        assert a[j] == c[j] == t[j];
      }
    } else if |t| < |c| {
      assert Stops(c[|t|]) && c[|t|] == a[|t|];
    }
  }

  /** What `strncmp` reports as equal, in bytes. */
  lemma SameNameBytes(a: seq<Byte>, b: seq<Byte>, n: nat)
    ensures SameName(a, b, n) <==> Agree(a, b, n)
  {
    var s, t := Text(Clip(a, n)), Text(Clip(b, n));
    assert |s| <= n && |t| <= n;
    forall i | 0 <= i < n
      ensures i < |s| <==> Unended(a, i)
      ensures i < |t| <==> Unended(b, i)
      ensures i < |s| ==> s[i] == a[i]
      ensures i < |t| ==> t[i] == b[i]
    {
      TextReaches(a, n, i);
      TextReaches(b, n, i);
    }
    if !(s <= t) && !(t <= s) {
      var i := Differ(s, t);
      assert s[i] == a[i] && t[i] == b[i];
    }
  }

  lemma {:induction false} Differ(s: seq<Byte>, t: seq<Byte>) returns (i: nat)
    requires !(s <= t) && !(t <= s)
    ensures i < |s| && i < |t| && s[i] != t[i]
  {
    if s[0] != t[0] {
      i := 0;
    } else {
      assert s == [s[0]] + s[1..] && t == [t[0]] + t[1..];
      i := Differ(s[1..], t[1..]);
      i := i + 1;
    }
  }

  /** For strings of `n` plain bytes that is equality. */
  lemma PlainAgree(a: seq<Byte>, b: seq<Byte>, n: nat)
    requires n <= |a| && n <= |b| && Plain(a[..n]) && Plain(b[..n])
    ensures Agree(a, b, n) <==> a[..n] == b[..n]
  {
    forall i | 0 <= i < n
      ensures Unended(a, i) && Unended(b, i)
    {
      forall j | 0 <= j <= i
        ensures a[j] != 0 && a[j] != 0xff && b[j] != 0 && b[j] != 0xff
      {
        assert !Stops(a[..n][j]) && !Stops(b[..n][j]);
      }
    }
    if a[..n] == b[..n] {
      forall i | 0 <= i < n
        ensures a[i] == b[i]
      {
        assert a[..n][i] == b[..n][i];
      }
    }
  }
}
