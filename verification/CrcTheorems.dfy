/** What the checksum of a program download guarantees. */
module CrcTheorems {
  import opened ShiftRegister
  import opened Crc32

  // ---- incremental checksums ----

  lemma {:induction false} BitsAppend(a: seq<bv8>, b: seq<bv8>)
    ensures Bits(a + b) == Bits(a) + Bits(b)
    decreases |a|
  {
    if a == [] {
      assert a + b == b;
    } else {
      assert (a + b)[1..] == a[1..] + b;
      BitsAppend(a[1..], b);
      assert ByteBits(a[0]) + (Bits(a[1..]) + Bits(b)) == (ByteBits(a[0]) + Bits(a[1..])) + Bits(b);
    }
  }

  lemma DoubleComplement(c: bv32)
    ensures !!c == c
  {
  }

  lemma NotIsInvolution(not: bv32 -> bv32)
    requires not == Not
    ensures forall c :: not(not(c)) == c
  {
    forall c
      ensures not(not(c)) == c
    {
      DoubleComplement(c);
    }
  }

  lemma ConcatenationBy<T(!new)>(m: Machine<T>, not: T -> T, a: seq<bv8>, b: seq<bv8>, crc: T)
    requires forall c :: not(not(c)) == c
    ensures ChecksumBy(m, not, a + b, crc) == ChecksumBy(m, not, b, ChecksumBy(m, not, a, crc))
  {
    BitsAppend(a, b);
    FeedAppend(m, not(crc), Bits(a), Bits(b));
  }

  /** Checksumming a concatenation is checksumming its parts in turn. */
  lemma Concatenation(a: seq<bv8>, b: seq<bv8>, crc: bv32)
    ensures Checksum(a + b, crc) == Checksum(b, Checksum(a, crc))
  {
    NotIsInvolution(Not);
    ConcatenationBy(REGISTER, Not, a, b, crc);
  }

  // ---- error detection ----

  lemma BitsDetermineByte(x: bv8, y: bv8)
    requires Bit(x, 0) == Bit(y, 0) && Bit(x, 1) == Bit(y, 1) && Bit(x, 2) == Bit(y, 2)
    requires Bit(x, 3) == Bit(y, 3) && Bit(x, 4) == Bit(y, 4) && Bit(x, 5) == Bit(y, 5)
    requires Bit(x, 6) == Bit(y, 6) && Bit(x, 7) == Bit(y, 7)
    ensures x == y
  {
  }

  lemma ByteBitsInjective(x: bv8, y: bv8)
    requires ByteBits(x) == ByteBits(y)
    ensures x == y
  {
    forall j | 0 <= j < 8
      ensures Bit(x, j) == Bit(y, j)
    {
      assert ByteBits(x)[j] == Bit(x, j) && ByteBits(y)[j] == Bit(y, j);
    }
    BitsDetermineByte(x, y);
  }

  lemma {:induction false} BitsInjective(a: seq<bv8>, b: seq<bv8>)
    requires |a| == |b| && Bits(a) == Bits(b)
    ensures a == b
    decreases |a|
  {
    if a != [] {
      assert ByteBits(a[0]) == Bits(a)[..8] && ByteBits(b[0]) == Bits(b)[..8];
      assert Bits(a[1..]) == Bits(a)[8..] && Bits(b[1..]) == Bits(b)[8..];
      ByteBitsInjective(a[0], b[0]);
      BitsInjective(a[1..], b[1..]);
      assert a == [a[0]] + a[1..] && b == [b[0]] + b[1..];
    }
  }

  /** Two messages of equal length that differ only inside 32 consecutive bits, aligned or not,
      never have the same checksum. */
  lemma BurstDetected(a: seq<bv8>, b: seq<bv8>, crc: bv32, k: nat, w: nat)
    requires |a| == |b| && a != b && w <= 32 && k + w <= 8 * |a|
    requires forall i :: 0 <= i < k || k + w <= i < 8 * |a| ==> Bits(a)[i] == Bits(b)[i]
    ensures Checksum(a, crc) != Checksum(b, crc)
  {
    var x, y := Bits(a), Bits(b);
    assert x != y by {
      if x == y {
        BitsInjective(a, b);
      }
    }
    RegistersDiffer(!crc, x, y, k, w);
    ComplementInjective(Feed(REGISTER, !crc, x), Feed(REGISTER, !crc, y));
  }

  lemma ComplementInjective(x: bv32, y: bv32)
    ensures !x == !y ==> x == y
  {
  }

  lemma RegistersDiffer(c: bv32, x: seq<bool>, y: seq<bool>, k: nat, w: nat)
    requires |x| == |y| && x != y && w <= 32 && k + w <= |x|
    requires forall i :: 0 <= i < k || k + w <= i < |x| ==> x[i] == y[i]
    ensures Feed(REGISTER, c, x) != Feed(REGISTER, c, y)
  {
    var p, s := x[..k], x[k + w..];
    assert x == p + x[k..k + w] + s;
    assert y == p + y[k..k + w] + s;
    RegisterIsLinear();
    RegisterIsGraded();
    BurstSeparates(REGISTER, c, p, x[k..k + w], y[k..k + w], s);
  }

  lemma {:induction false} BitsPrefix(a: seq<bv8>, b: seq<bv8>, i: nat)
    requires |a| == |b| && i <= |a| && a[..i] == b[..i]
    ensures Bits(a)[..8 * i] == Bits(b)[..8 * i]
  {
    assert a == a[..i] + a[i..] && b == b[..i] + b[i..];
    BitsAppend(a[..i], a[i..]);
    BitsAppend(b[..i], b[i..]);
  }

  lemma BitsSuffix(a: seq<bv8>, b: seq<bv8>, i: nat)
    requires |a| == |b| && i <= |a| && a[i..] == b[i..]
    ensures Bits(a)[8 * i..] == Bits(b)[8 * i..]
  {
    assert a == a[..i] + a[i..] && b == b[..i] + b[i..];
    BitsAppend(a[..i], a[i..]);
    BitsAppend(b[..i], b[i..]);
  }

  /** Damage confined to four consecutive bytes is always detected. */
  lemma FourByteDamageDetected(a: seq<bv8>, b: seq<bv8>, crc: bv32, i: nat)
    requires |a| == |b| && a != b
    requires forall j :: 0 <= j < |a| && !(i <= j < i + 4) ==> a[j] == b[j]
    ensures Checksum(a, crc) != Checksum(b, crc)
  {
    var lo := if i < |a| then i else |a|;
    var hi := if i + 4 < |a| then i + 4 else |a|;
    BitsPrefix(a, b, lo);
    BitsSuffix(a, b, hi);
    forall j | 0 <= j < 8 * lo || 8 * hi <= j < 8 * |a|
      ensures Bits(a)[j] == Bits(b)[j]
    {
      if j < 8 * lo {
        assert Bits(a)[j] == Bits(a)[..8 * lo][j] && Bits(b)[j] == Bits(b)[..8 * lo][j];
      } else {
        assert Bits(a)[j] == Bits(a)[8 * hi..][j - 8 * hi];
        assert Bits(b)[j] == Bits(b)[8 * hi..][j - 8 * hi];
      }
    }
    BurstDetected(a, b, crc, 8 * lo, 8 * (hi - lo));
  }

  // ---- affinity ----

  function XorBytes(a: seq<bv8>, b: seq<bv8>): (r: seq<bv8>)
    requires |a| == |b|
    ensures |r| == |a|
  {
    seq(|a|, i requires 0 <= i < |a| => a[i] ^ b[i])
  }

  lemma MaskXor(x: bv8, y: bv8, z: bv8, m: bv8)
    requires z == x ^ y
    requires m == 1 || m == 2 || m == 4 || m == 8 || m == 16 || m == 32 || m == 64 || m == 128
    ensures z & m != 0 <==> (x & m != 0) != (y & m != 0)
  {
  }

  lemma BitXor(x: bv8, y: bv8, z: bv8, j: nat)
    requires z == x ^ y && j < 8
    ensures Bit(z, j) <==> Bit(x, j) != Bit(y, j)
  {
    BitMask(x, j);
    BitMask(y, j);
    BitMask(z, j);
    MaskXor(x, y, z, Mask(j));
  }

  function Mask(j: nat): (m: bv8)
    ensures m == 1 || m == 2 || m == 4 || m == 8 || m == 16 || m == 32 || m == 64 || m == 128
  {
    match j
    case 0 => 1 case 1 => 2 case 2 => 4 case 3 => 8
    case 4 => 16 case 5 => 32 case 6 => 64 case _ => 128
  }

  lemma BitMask(b: bv8, j: nat)
    ensures Bit(b, j) <==> b & Mask(j) != 0
  {
  }

  lemma ByteBitsXor(x: bv8, y: bv8, z: bv8)
    requires z == x ^ y
    ensures ByteBits(z) == Xor(ByteBits(x), ByteBits(y))
  {
    forall j | 0 <= j < 8
      ensures ByteBits(z)[j] == Xor(ByteBits(x), ByteBits(y))[j]
    {
      BitXor(x, y, z, j);
    }
  }

  lemma XorHead(u: seq<bool>, v: seq<bool>, p: seq<bool>, q: seq<bool>, r: seq<bool>, s: seq<bool>)
    requires |p| == |q| && |r| == |s| && u == Xor(p, q) && v == Xor(r, s)
    ensures u + v == Xor(p + r, q + s)
  {
  }

  lemma {:induction false} BitsXor(a: seq<bv8>, b: seq<bv8>)
    requires |a| == |b|
    ensures Bits(XorBytes(a, b)) == Xor(Bits(a), Bits(b))
    decreases |a|
  {
    if a != [] {
      var x := XorBytes(a, b);
      assert x[1..] == XorBytes(a[1..], b[1..]);
      BitsXor(a[1..], b[1..]);
      ByteBitsXor(a[0], b[0], x[0]);
      XorHead(ByteBits(x[0]), Bits(x[1..]), ByteBits(a[0]), ByteBits(b[0]), Bits(a[1..]), Bits(b[1..]));
    }
  }

  lemma ComplementOfSum(x: bv32, y: bv32, z: bv32)
    ensures !((x ^ y) ^ z) == (!x ^ !y) ^ !z
  {
  }

  lemma AffinityBy(m: Machine<bv32>, a: seq<bv8>, b: seq<bv8>, c: seq<bv8>, crc: bv32)
    requires Group(m) && Additive(m) && forall x, y :: m.add(x, y) == x ^ y
    requires |a| == |b| == |c|
    ensures ChecksumBy(m, Not, XorBytes(XorBytes(a, b), c), crc)
         == (ChecksumBy(m, Not, a, crc) ^ ChecksumBy(m, Not, b, crc)) ^ ChecksumBy(m, Not, c, crc)
  {
    var s, x, y, z := !crc, Bits(a), Bits(b), Bits(c);
    BitsXor(a, b);
    BitsXor(XorBytes(a, b), c);
    FeedOfThree(m, s, x, y, z);
    ComplementOfSum(Feed(m, s, x), Feed(m, s, y), Feed(m, s, z));
  }

  lemma FeedOfThree(m: Machine<bv32>, s: bv32, x: seq<bool>, y: seq<bool>, z: seq<bool>)
    requires Group(m) && Additive(m) && |x| == |y| == |z|
    ensures Feed(m, s, Xor(Xor(x, y), z)) == m.add(m.add(Feed(m, s, x), Feed(m, s, y)), Feed(m, s, z))
  {
    FeedLinear(m, s, s, x, y);
    FeedLinear(m, m.add(s, s), s, Xor(x, y), z);
    assert m.add(m.add(s, s), s) == s;
  }

  /** The checksum is affine: the xor of three messages has the xor of their checksums. */
  lemma Affinity(a: seq<bv8>, b: seq<bv8>, c: seq<bv8>, crc: bv32)
    requires |a| == |b| == |c|
    ensures Checksum(XorBytes(XorBytes(a, b), c), crc)
         == (Checksum(a, crc) ^ Checksum(b, crc)) ^ Checksum(c, crc)
  {
    RegisterIsLinear();
    forall x, y
      ensures REGISTER.add(x, y) == x ^ y
    {
      Add(x, y);
    }
    AffinityBy(REGISTER, a, b, c, crc);
  }
}
