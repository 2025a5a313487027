/** The streaming end-marker scanner of mac-src/get-pi-output.c: a small automaton with one
    integer of state that watches for "DONE!!!\n" across read boundaries. */
module DoneScanner {
  import opened Bytes

  const MARKER: seq<Byte> := [68, 79, 78, 69, 33, 33, 33, 10]  // "DONE!!!\n"

  /** The C array: the marker and its terminating NUL, nine bytes. */
  const TEXT: seq<Byte> := [68, 79, 78, 69, 33, 33, 33, 10, 0]

  /** One call of `pi_done_scan`. An index of 9 lies outside the array: a further call would read
      past it, and the model has nothing to say about what happens then. */
  function NextIndex(idx: nat, c: Byte): (r: nat)
    requires idx <= 8
    ensures r <= 9
  {
    if c == TEXT[idx] then idx + 1 else if c == TEXT[0] then 1 else 0
  }

  /** No call while scanning `s` from index `idx` reads outside the array. */
  predicate InBounds(idx: nat, s: seq<Byte>)
    decreases |s|
  {
    idx <= 9 && (s == [] || (idx <= 8 && InBounds(NextIndex(idx, s[0]), s[1..])))
  }

  function Scan(idx: nat, s: seq<Byte>): (r: nat)
    requires InBounds(idx, s)
    ensures r <= 9
    decreases |s|
  {
    if s == [] then idx else Scan(NextIndex(idx, s[0]), s[1..])
  }

  predicate EndsWith(s: seq<Byte>, t: seq<Byte>) {
    |t| <= |s| && s[|s| - |t|..] == t
  }

  lemma {:induction false} RunAppend(idx: nat, s: seq<Byte>, c: Byte)
    ensures InBounds(idx, s + [c]) <==> InBounds(idx, s) && Scan(idx, s) <= 8
    ensures InBounds(idx, s + [c]) ==> Scan(idx, s + [c]) == NextIndex(Scan(idx, s), c)
    decreases |s|
  {
    if s == [] {
      assert ([] + [c])[1..] == [];
    } else {
      assert (s + [c])[1..] == s[1..] + [c];
      if idx <= 8 {
        RunAppend(NextIndex(idx, s[0]), s[1..], c);
      }
    }
  }

  lemma EndsWithStep(s: seq<Byte>, c: Byte, k: nat)
    requires k <= 8
    ensures EndsWith(s + [c], MARKER[..k]) <==> k == 0 || (EndsWith(s, MARKER[..k - 1]) && c == MARKER[k - 1])
  {
    if k > 0 {
      var m, sc := MARKER[..k], s + [c];
      assert m == MARKER[..k - 1] + [MARKER[k - 1]];
      if k <= |sc| {
        assert sc[|sc| - k..] == s[|s| - (k - 1)..] + [c];
      }
    }
  }

  /** The marker's first byte occurs nowhere else in it, so one prefix of it cannot end with
      another: falling back to index 0 or 1 loses nothing. */
  lemma NoBorder(s: seq<Byte>, i: nat, k: nat)
    requires 0 < k < i <= 8 && EndsWith(s, MARKER[..i])
    ensures !EndsWith(s, MARKER[..k])
  {
    assert s[|s| - k] == s[|s| - i..][i - k] == MARKER[i - k];
  }

  /** The index is the length of the longest prefix of the marker that ends the stream. */
  ghost predicate Longest(s: seq<Byte>, i: nat) {
    && i <= 8
    && EndsWith(s, MARKER[..i])
    && forall k :: 0 <= k <= 8 && EndsWith(s, MARKER[..k]) ==> k <= i
  }

  lemma LongestStep(s: seq<Byte>, i: nat, c: Byte)
    requires Longest(s, i)
    ensures NextIndex(i, c) == 9 <==> i == 8 && c == 0
    ensures NextIndex(i, c) <= 8 ==> Longest(s + [c], NextIndex(i, c))
    ensures NextIndex(i, c) == 9 ==> Longest(s + [c], 0)
  {
    var n := if NextIndex(i, c) == 9 then 0 else NextIndex(i, c);
    EndsWithStep(s, c, n);
    assert MARKER[..0] == [];
    forall k | 0 <= k <= 8 && EndsWith(s + [c], MARKER[..k])
      ensures k <= n
    {
      EndsWithStep(s, c, k);
      if 1 < k {
        if k - 1 < i {
          NoBorder(s, i, k - 1);
        }
      }
    }
  }

  /** As long as no byte NUL directly follows a complete marker (before the last byte), the scan
      stays inside the array, and its index is the longest match. */
  lemma {:induction false} ScanInvariant(s: seq<Byte>)
    ensures InBounds(0, s) <==> (forall j :: 0 <= j < |s| ==> !EndsWith(s[..j], TEXT))
    ensures InBounds(0, s) ==> if EndsWith(s, TEXT) then Scan(0, s) == 9 else Longest(s, Scan(0, s))
  {
    if s == [] {
      assert MARKER[..0] == [];
    } else {
      var n := |s| - 1;
      var t, c := s[..n], s[n];
      assert s == t + [c];
      ScanInvariant(t);
      RunAppend(0, t, c);
      assert forall j :: 0 <= j < n ==> s[..j] == t[..j];
      if InBounds(0, t) {
        if EndsWith(t, TEXT) {
          assert s[..n] == t;
        } else {
          LongestStep(t, Scan(0, t), c);
          TextStep(t, Scan(0, t), c);
        }
      }
    }
  }

  lemma TextStep(t: seq<Byte>, i: nat, c: Byte)
    requires Longest(t, i)
    ensures EndsWith(t + [c], TEXT) <==> i == 8 && c == 0
  {
    assert TEXT == MARKER + [0] && MARKER[..8] == MARKER;
    var s := t + [c];
    if 9 <= |s| {
      assert s[|s| - 9..] == t[|t| - 8..] + [c];
    }
    if EndsWith(s, TEXT) {
      assert s[|s| - 9..][..8] == MARKER;
      assert EndsWith(t, MARKER[..8]);
    }
  }

  /** `pi_done_scan` returns true exactly when the stream so far ends with the marker. */
  lemma DoneExactlyAtMarker(s: seq<Byte>)
    requires forall j :: 0 <= j < |s| ==> !EndsWith(s[..j], TEXT)
    ensures InBounds(0, s)
    ensures Scan(0, s) == 8 <==> EndsWith(s, MARKER)
  {
    ScanInvariant(s);
    assert MARKER[..8] == MARKER;
    if EndsWith(s, TEXT) {
      assert s[|s| - 1] == s[|s| - 9..][8] == 0;
    }
  }

  lemma {:induction false} ScanConcat(idx: nat, a: seq<Byte>, b: seq<Byte>)
    requires InBounds(idx, a) && Scan(idx, a) <= 8
    ensures InBounds(idx, a + b) <==> InBounds(Scan(idx, a), b)
    ensures InBounds(idx, a + b) ==> Scan(idx, a + b) == Scan(Scan(idx, a), b)
    decreases |a|
  {
    if a == [] {
      assert a + b == b;
    } else {
      assert (a + b)[0] == a[0] && (a + b)[1..] == a[1..] + b;
      ScanConcat(NextIndex(idx, a[0]), a[1..], b);
    }
  }

  lemma {:induction false} PrefixIndex(i: nat)
    requires i <= 8
    ensures InBounds(0, MARKER[..i]) && Scan(0, MARKER[..i]) == i
  {
    if i == 0 {
      assert MARKER[..0] == [];
    } else {
      PrefixIndex(i - 1);
      assert MARKER[..i] == MARKER[..i - 1] + [MARKER[i - 1]];
      RunAppend(0, MARKER[..i - 1], MARKER[i - 1]);
    }
  }

  lemma FirstByteOnce(k: nat)
    requires k < 8 && MARKER[k] == MARKER[0]
    ensures k == 0
  {
  }

  /** Behind the first `i` bytes of the marker, a short `s` completes it only as its remaining
      bytes. */
  lemma ShortCompletion(i: nat, s: seq<Byte>)
    requires i <= 8 && |s| < 8
    ensures EndsWith(MARKER[..i] + s, MARKER) <==> s == MARKER[i..]
  {
    var t := MARKER[..i] + s;
    if EndsWith(t, MARKER) {
      var k := |t| - 8;
      assert t[k..][0] == t[k] == MARKER[k];
      FirstByteOnce(k);
      assert t[k..] == t;
      assert s == t[i..];
    }
    if s == MARKER[i..] {
      assert t == MARKER;
      assert t[0..] == t;
    }
  }

  lemma Completion(i: nat, s: seq<Byte>)
    requires i <= 8
    ensures EndsWith(MARKER[..i] + s, MARKER) <==> EndsWith(s, MARKER) || s == MARKER[i..]
  {
    if |s| < 8 {
      ShortCompletion(i, s);
    } else {
      LongCompletion(MARKER[..i], s);
      assert |MARKER[i..]| == 8 - i;
      if s == MARKER[i..] {
        assert s == MARKER && s[0..] == s;
      }
    }
  }

  lemma LongCompletion(a: seq<Byte>, s: seq<Byte>)
    requires |s| >= 8
    ensures EndsWith(a + s, MARKER) <==> EndsWith(s, MARKER)
  {
    assert (a + s)[|a + s| - 8..] == s[|s| - 8..];
  }

  /** The index is never reset, so one pi's stream is scanned from the index `i` that another's left:
      0 to 7 when that one paused, 8 when it finished. The scan then stays inside the array, and
      reports, as if the first `i` bytes of the marker had come before. */
  lemma LeftoverIndex(i: nat, s: seq<Byte>)
    requires i <= 8
    ensures InBounds(i, s) <==> InBounds(0, MARKER[..i] + s)
    ensures InBounds(i, s) ==> (Scan(i, s) == 8 <==> EndsWith(s, MARKER) || s == MARKER[i..])
  {
    PrefixIndex(i);
    ScanConcat(0, MARKER[..i], s);
    if InBounds(i, s) {
      ScanInvariant(MARKER[..i] + s);
      DoneExactlyAtMarker(MARKER[..i] + s);
      Completion(i, s);
    }
  }

  /** A scan of `s` from index `idx` reports done at its last byte. */
  ghost predicate Reports(idx: nat, s: seq<Byte>) {
    InBounds(idx, s) && Scan(idx, s) == 8
  }

  lemma ReportsDiffer(i: nat, s: seq<Byte>)
    requires 0 < i <= 8 && s != [] && InBounds(i, s) && InBounds(0, s)
    ensures (Reports(i, s) <==> Reports(0, s)) <==> s != MARKER[i..]
  {
    LeftoverIndex(i, s);
    LeftoverIndex(0, s);
    assert MARKER[0..] == MARKER;
    assert EndsWith(MARKER, MARKER) by {
      assert MARKER[0..] == MARKER;
    }
    if s == MARKER[i..] {
      assert |s| < 8;
    }
  }

  /** So the leftover index makes a difference exactly when the next stream begins with the rest of
      the marker: then it is taken for finished there. */
  lemma LeftoverMatters(i: nat, s: seq<Byte>)
    requires 0 < i <= 8 && InBounds(i, s) && InBounds(0, s)
    ensures (forall k :: 0 < k <= |s| ==> (Reports(i, s[..k]) <==> Reports(0, s[..k])))
       <==> i == 8 || !(MARKER[i..] <= s)
  {
    forall k | 0 < k <= |s|
      ensures (Reports(i, s[..k]) <==> Reports(0, s[..k])) <==> s[..k] != MARKER[i..]
    {
      BoundedPrefix(i, s, k);
      BoundedPrefix(0, s, k);
      ReportsDiffer(i, s[..k]);
    }
    if i < 8 && MARKER[i..] <= s {
      assert s[..8 - i] == MARKER[i..];
    }
  }

  lemma {:induction false} BoundedPrefix(idx: nat, s: seq<Byte>, k: nat)
    requires InBounds(idx, s) && k <= |s|
    ensures InBounds(idx, s[..k])
    decreases k
  {
    if k > 0 {
      assert s[..k][1..] == s[1..][..k - 1];
      BoundedPrefix(NextIndex(idx, s[0]), s[1..], k - 1);
    }
  }

  /** The scanner's static index. `seen` is the stream scanned so far. */
  class Scanner {
    var idx: nat
    ghost var seen: seq<Byte>

    ghost predicate Valid()
      reads this
    {
      InBounds(0, seen) && idx == Scan(0, seen)
    }

    constructor ()
      ensures Valid() && seen == []
    {
      idx := 0;
      seen := [];
    }

    method PiDoneScan(c: Byte) returns (done: bool)
      requires Valid() && idx <= 8
      modifies this
      ensures Valid() && seen == old(seen) + [c]
      ensures done <==> EndsWith(seen, MARKER)
      ensures idx == NextIndex(old(idx), c) && (done <==> idx == 8)
    {
      RunAppend(0, seen, c);
      if c == TEXT[idx] {
        idx := idx + 1;
      } else if c == TEXT[0] {
        idx := 1;
      } else {
        idx := 0;
      }
      seen := seen + [c];
      ScanInvariant(seen);
      DoneExactlyAtMarker(seen);
      done := idx == 8;
    }

    /** The loop over one read: stops at the first byte that completes a marker. */
    method ScanRead(data: seq<Byte>) returns (done: bool)
      requires Valid() && idx < 8
      modifies this
      ensures Valid() && old(seen) <= seen <= old(seen) + data
      ensures NoMarkerBetween(seen, |old(seen)|, |seen|)
      ensures if done then EndsWith(seen, MARKER) && |old(seen)| < |seen|
              else idx < 8 && seen == old(seen) + data && NoMarkerBetween(seen, |old(seen)|, |seen| + 1)
    {
      done := false;
      ghost var start := seen;
      var i := 0;
      while i < |data|
        invariant i <= |data| && Valid() && idx < 8
        invariant seen == start + data[..i]
        invariant NoMarkerBetween(seen, |start|, |seen| + 1)
      {
        ghost var prev := seen;
        done := PiDoneScan(data[i]);
        assert seen == start + data[..i + 1];
        NoMarkerExtends(|start|, prev, seen);
        if done {
          assert start + data[..i + 1] <= start + data;
          return;
        }
        i := i + 1;
      }
    }

    /** Successive reads, up to and including the first match: the outcome depends on the bytes
        alone, not on where the reads split them. */
    method ScanReads(chunks: seq<seq<Byte>>) returns (done: bool)
      requires Valid() && idx < 8
      modifies this
      ensures Valid() && old(seen) <= seen <= old(seen) + Flatten(chunks)
      ensures NoMarkerBetween(seen, |old(seen)|, |seen|)
      ensures if done then EndsWith(seen, MARKER) && |old(seen)| < |seen|
              else seen == old(seen) + Flatten(chunks) && NoMarkerBetween(seen, |old(seen)|, |seen| + 1)
    {
      done := false;
      var r := 0;
      ghost var start := seen;
      while r < |chunks|
        invariant r <= |chunks| && Valid() && idx < 8
        invariant seen == start + Flatten(chunks[..r])
        invariant NoMarkerBetween(seen, |start|, |seen| + 1)
      {
        ghost var prev := seen;
        FlattenStep(chunks, r);
        done := ScanRead(chunks[r]);
        NoMarkerExtends(|start|, prev, seen);
        assert prev + chunks[r] == start + Flatten(chunks[..r + 1]);
        if done {
          return;
        }
        r := r + 1;
      }
      assert chunks[..r] == chunks;
    }
  }

  /** No marker ends strictly between positions `from` and `to` of the stream. */
  ghost predicate NoMarkerBetween(s: seq<Byte>, from: nat, to: nat) {
    forall j :: from < j < to && j <= |s| ==> !EndsWith(s[..j], MARKER)
  }

  lemma NoMarkerExtends(from: nat, prev: seq<Byte>, seen: seq<Byte>)
    requires from <= |prev| && prev <= seen
    requires NoMarkerBetween(prev, from, |prev| + 1) && NoMarkerBetween(seen, |prev|, |seen|)
    ensures NoMarkerBetween(seen, from, |seen|)
    ensures (|prev| < |seen| ==> !EndsWith(seen, MARKER)) ==> NoMarkerBetween(seen, from, |seen| + 1)
  {
    assert seen[..|seen|] == seen;
    forall j | from < j <= |prev|
      ensures !EndsWith(seen[..j], MARKER)
    {
      assert seen[..j] == prev[..j];
    }
  }

  function Flatten(chunks: seq<seq<Byte>>): seq<Byte> {
    if chunks == [] then [] else Flatten(chunks[..|chunks| - 1]) + chunks[|chunks| - 1]
  }

  lemma FlattenStep(chunks: seq<seq<Byte>>, r: nat)
    requires r < |chunks|
    ensures Flatten(chunks[..r + 1]) == Flatten(chunks[..r]) + chunks[r]
    ensures Flatten(chunks[..r + 1]) <= Flatten(chunks)
    decreases |chunks| - r
  {
    assert chunks[..r + 1][..r] == chunks[..r];
    if r + 1 < |chunks| {
      FlattenStep(chunks, r + 1);
    } else {
      assert chunks[..r + 1] == chunks;
    }
  }
}
