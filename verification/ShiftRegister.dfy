/** Linear shift registers over an arbitrary register type. The laws below are all that the
    checksum theorems need; Crc32 shows that its 32-bit register obeys them. */
module ShiftRegister {

  /** `unit(i)` is the register that needs `i` steps to bring its only set bit to the bottom;
      `low` reads the bottom bit. */
  datatype Machine<!T(!new)> = Machine(
    zero: T, add: (T, T) -> T, step: T -> T, low: T -> bool, unit: nat -> T, width: nat)

  /** Always true: naming four terms here is how a proof asks for the exchange law. */
  ghost predicate Quad<T>(a: T, b: T, p: T, q: T) {
    true
  }

  ghost predicate Group<T(!new)>(m: Machine<T>) {
    && (forall x :: m.add(x, m.zero) == x && m.add(m.zero, x) == x)
    && (forall x :: m.add(x, x) == m.zero)
    && (forall a, b, p, q :: Quad(a, b, p, q) ==>
          m.add(m.add(a, b), m.add(p, q)) == m.add(m.add(a, p), m.add(b, q)))
  }

  ghost predicate Additive<T(!new)>(m: Machine<T>) {
    && (forall x, y :: m.step(m.add(x, y)) == m.add(m.step(x), m.step(y)))
    && m.step(m.zero) == m.zero
  }

  ghost predicate Invertible<T(!new)>(m: Machine<T>) {
    forall x, y :: m.step(x) == m.step(y) ==> x == y
  }

  ghost predicate Linear<T(!new)>(m: Machine<T>) {
    Group(m) && Additive(m) && Invertible(m)
  }

  ghost predicate Graded<T(!new)>(m: Machine<T>) {
    && m.width > 0
    && (forall x, y :: m.low(m.add(x, y)) <==> m.low(x) != m.low(y))
    && !m.low(m.zero)
    && (forall i: nat :: i < m.width ==> (m.low(m.unit(i)) <==> i == 0))
    && (forall i: nat :: 0 < i < m.width ==> m.step(m.unit(i)) == m.unit(i - 1))
  }

  lemma Cancel<T(!new)>(m: Machine<T>, x: T, y: T, b: T)
    requires Group(m) && m.add(x, b) == m.add(y, b)
    ensures x == y
  {
    assert Quad(x, b, m.zero, b) && Quad(y, b, m.zero, b);
  }

  /** `b` as a multiple of `unit(i)`. */
  function Scaled<T(!new)>(m: Machine<T>, b: bool, i: nat): T {
    if b then m.unit(i) else m.zero
  }

  /** Each bit is added at the bottom of the register, then the register steps. */
  function Feed<T(!new)>(m: Machine<T>, c: T, bits: seq<bool>): T
    decreases |bits|
  {
    if bits == [] then c
    else Feed(m, m.step(m.add(c, Scaled(m, bits[0], 0))), bits[1..])
  }

  function Steps<T(!new)>(m: Machine<T>, c: T, n: nat): T
    decreases n
  {
    if n == 0 then c else Steps(m, m.step(c), n - 1)
  }

  lemma {:induction false} FeedAppend<T(!new)>(m: Machine<T>, c: T, a: seq<bool>, b: seq<bool>)
    ensures Feed(m, c, a + b) == Feed(m, Feed(m, c, a), b)
    decreases |a|
  {
    if a == [] {
      assert a + b == b;
    } else {
      assert (a + b)[1..] == a[1..] + b;
      FeedAppend(m, m.step(m.add(c, Scaled(m, a[0], 0))), a[1..], b);
    }
  }

  lemma {:induction false} FeedInjective<T(!new)>(m: Machine<T>, x: T, y: T, bits: seq<bool>)
    requires Group(m) && Invertible(m) && Feed(m, x, bits) == Feed(m, y, bits)
    ensures x == y
    decreases |bits|
  {
    if bits != [] {
      var b := Scaled(m, bits[0], 0);
      FeedInjective(m, m.step(m.add(x, b)), m.step(m.add(y, b)), bits[1..]);
      Cancel(m, x, y, b);
    }
  }

  function Xor(a: seq<bool>, b: seq<bool>): seq<bool>
    requires |a| == |b|
  {
    seq(|a|, i requires 0 <= i < |a| => a[i] != b[i])
  }

  lemma {:induction false} FeedLinear<T(!new)>(m: Machine<T>, x: T, y: T, a: seq<bool>, b: seq<bool>)
    requires Group(m) && Additive(m) && |a| == |b|
    ensures Feed(m, m.add(x, y), Xor(a, b)) == m.add(Feed(m, x, a), Feed(m, y, b))
    decreases |a|
  {
    if a != [] {
      var p, q := Scaled(m, a[0], 0), Scaled(m, b[0], 0);
      assert Xor(a, b)[1..] == Xor(a[1..], b[1..]);
      assert Scaled(m, a[0] != b[0], 0) == m.add(p, q);
      FeedLinear(m, m.step(m.add(x, p)), m.step(m.add(y, q)), a[1..], b[1..]);
      assert Quad(x, y, p, q);
    }
  }

  lemma {:induction false} StepsLinear<T(!new)>(m: Machine<T>, x: T, y: T, n: nat)
    requires Additive(m)
    ensures Steps(m, m.add(x, y), n) == m.add(Steps(m, x, n), Steps(m, y, n))
    decreases n
  {
    if n > 0 {
      StepsLinear(m, m.step(x), m.step(y), n - 1);
    }
  }

  lemma {:induction false} StepsInjective<T(!new)>(m: Machine<T>, x: T, y: T, n: nat)
    requires Invertible(m) && Steps(m, x, n) == Steps(m, y, n)
    ensures x == y
    decreases n
  {
    if n > 0 {
      StepsInjective(m, m.step(x), m.step(y), n - 1);
    }
  }

  /** The register whose bit `i + k` is `bits[k]`. */
  function Pack<T(!new)>(m: Machine<T>, bits: seq<bool>, i: nat): T
    decreases |bits|
  {
    if bits == [] then m.zero
    else m.add(Pack(m, bits[1..], i + 1), Scaled(m, bits[0], i))
  }

  lemma {:induction false} PackStep<T(!new)>(m: Machine<T>, bits: seq<bool>, i: nat)
    requires Group(m) && Additive(m) && Graded(m) && 0 < i && i + |bits| <= m.width
    ensures m.step(Pack(m, bits, i)) == Pack(m, bits, i - 1)
    ensures !m.low(Pack(m, bits, i))
    decreases |bits|
  {
    if bits != [] {
      PackStep(m, bits[1..], i + 1);
      assert m.step(Scaled(m, bits[0], i)) == Scaled(m, bits[0], i - 1);
    }
  }

  /** Feeding a register-width of bits one by one is adding them all at once, then stepping. */
  lemma {:induction false} FeedIsAddThenSteps<T(!new)>(m: Machine<T>, c: T, bits: seq<bool>)
    requires Group(m) && Additive(m) && Graded(m) && |bits| <= m.width
    ensures Feed(m, c, bits) == Steps(m, m.add(c, Pack(m, bits, 0)), |bits|)
    decreases |bits|
  {
    if bits != [] {
      var b, rest := Scaled(m, bits[0], 0), bits[1..];
      FeedIsAddThenSteps(m, m.step(m.add(c, b)), rest);
      PackStep(m, rest, 1);
      var tail := Pack(m, rest, 1);
      assert m.add(m.add(c, b), tail) == m.add(c, m.add(tail, b)) by {
        assert Quad(c, b, m.zero, tail) && Quad(c, m.zero, tail, b);
        assert Quad(m.zero, b, tail, m.zero);
      }
    }
  }

  lemma {:induction false} PackInjective<T(!new)>(m: Machine<T>, a: seq<bool>, b: seq<bool>)
    requires Group(m) && Additive(m) && Graded(m) && |a| == |b| <= m.width
    requires Pack(m, a, 0) == Pack(m, b, 0)
    ensures a == b
    decreases |a|
  {
    if a != [] {
      PackStep(m, a[1..], 1);
      PackStep(m, b[1..], 1);
      assert m.low(Pack(m, a, 0)) == a[0] && m.low(Pack(m, b, 0)) == b[0];
      Cancel(m, Pack(m, a[1..], 1), Pack(m, b[1..], 1), Scaled(m, a[0], 0));
      PackInjective(m, a[1..], b[1..]);
      assert a == [a[0]] + a[1..] && b == [b[0]] + b[1..];
    }
  }

  /** No two bit strings of register width or less bring a register to the same place. */
  lemma FeedSeparates<T(!new)>(m: Machine<T>, c: T, a: seq<bool>, b: seq<bool>)
    requires Linear(m) && Graded(m) && |a| == |b| <= m.width
    requires Feed(m, c, a) == Feed(m, c, b)
    ensures a == b
  {
    FeedIsAddThenSteps(m, c, a);
    FeedIsAddThenSteps(m, c, b);
    var p, q := Pack(m, a, 0), Pack(m, b, 0);
    StepsInjective(m, m.add(c, p), m.add(c, q), |a|);
    assert Quad(m.zero, c, p, m.zero) && Quad(m.zero, c, q, m.zero);
    Cancel(m, p, q, c);
    PackInjective(m, a, b);
  }

  /** Two messages of equal length that differ only inside one window no longer than the
      register leave different registers. */
  lemma BurstSeparates<T(!new)>(m: Machine<T>, c: T, p: seq<bool>, a: seq<bool>, b: seq<bool>, s: seq<bool>)
    requires Linear(m) && Graded(m) && |a| == |b| <= m.width && a != b
    ensures Feed(m, c, p + a + s) != Feed(m, c, p + b + s)
  {
    FeedAppend(m, c, p + a, s);
    FeedAppend(m, c, p, a);
    FeedAppend(m, c, p + b, s);
    FeedAppend(m, c, p, b);
    if Feed(m, c, p + a + s) == Feed(m, c, p + b + s) {
      FeedInjective(m, Feed(m, c, p + a), Feed(m, c, p + b), s);
      FeedSeparates(m, Feed(m, c, p), a, b);
    }
  }

  lemma {:induction false} StepsOfZero<T(!new)>(m: Machine<T>, n: nat)
    requires Additive(m)
    ensures Steps(m, m.zero, n) == m.zero
    decreases n
  {
    if n > 0 {
      StepsOfZero(m, n - 1);
    }
  }
}
