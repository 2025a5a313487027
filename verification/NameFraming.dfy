/** How a filesystem name crosses the serial line: the mac pads it with four 0xff bytes and a zero
    and sends whole words of that (mac-src/pi-install.c, mac-src/bootpi.c); the pi reads words into
    a 30-byte buffer until one of them is 0xffffffff or seven have come (pi-src/main.c). */
module NameFraming {
  import opened Bytes
  import opened CString

  const ALL_ONES: Word := 0xFFFF_FFFF
  const MAX_WORDS := 7
  const BUFFER_LEN := 30

  // ---- the mac ----

  /** `name_to_send`. */
  function Padded(name: seq<Byte>): (b: seq<Byte>)
    ensures |b| == |name| + 5
  {
    name + [0xff, 0xff, 0xff, 0xff] + [0]
  }

  function WordCount(length: nat): nat {
    (length + 5) / 4
  }

  function NameWord(name: seq<Byte>, i: nat): Word
    requires i < WordCount(|name|)
  {
    var b := Padded(name);
    Le(b[4 * i], b[4 * i + 1], b[4 * i + 2], b[4 * i + 3])
  }

  /** The words sent for a name. */
  function NameWords(name: seq<Byte>): (ws: seq<Word>)
    ensures |ws| == WordCount(|name|) > 0
    ensures forall i :: 0 <= i < |ws| ==> ws[i] == NameWord(name, i)
  {
    seq(WordCount(|name|), i requires 0 <= i < WordCount(|name|) => NameWord(name, i))
  }

  // ---- the pi ----

  /** `get_string`, fed these words, returns after exactly the last of them. */
  predicate TakenWhole(ws: seq<Word>) {
    && 0 < |ws| <= MAX_WORDS
    && (forall i :: 0 <= i < |ws| - 1 ==> ws[i] != ALL_ONES)
    && (|ws| == MAX_WORDS || ws[|ws| - 1] == ALL_ONES)
  }

  /** The buffer after word `i` was stored. */
  function Store(buf: seq<Byte>, i: nat, w: Word): (b: seq<Byte>)
    requires |buf| == BUFFER_LEN && i < MAX_WORDS
    ensures |b| == BUFFER_LEN
  {
    buf[..4 * i] + WordBytes(w) + buf[4 * i + 4..]
  }

  /** The buffer after the first `n` words were stored. */
  function StoreAll(buf: seq<Byte>, ws: seq<Word>, n: nat): (b: seq<Byte>)
    requires |buf| == BUFFER_LEN && n <= |ws| && n <= MAX_WORDS
    ensures |b| == BUFFER_LEN
  {
    if n == 0 then buf else Store(StoreAll(buf, ws, n - 1), n - 1, ws[n - 1])
  }

  // ---- which names are framed ----

  /** The lengths for which both sides count the same number of words. */
  predicate FramedLength(length: nat) {
    (length % 4 == 0 && length <= 24) || 23 <= length <= 26
  }

  lemma NotAllOnes(b0: Byte, b1: Byte, b2: Byte, b3: Byte)
    ensures Le(b0, b1, b2, b3) == ALL_ONES <==> b0 == 0xff && b1 == 0xff && b2 == 0xff && b3 == 0xff
  {
    var w := Le(b0, b1, b2, b3);
    ByteOfLe(b0, b1, b2, b3);
    if w == ALL_ONES {
      assert WordBytes(w) == [0xff, 0xff, 0xff, 0xff];
    }
  }

  /** Word `i` is 0xffffffff exactly when it is the padding behind a name of 4 * i bytes. */
  lemma OnesWord(name: seq<Byte>, i: nat)
    requires Plain(name) && i < WordCount(|name|)
    ensures NameWord(name, i) == ALL_ONES <==> |name| == 4 * i
  {
    var b, n := Padded(name), |name|;
    NotAllOnes(b[4 * i], b[4 * i + 1], b[4 * i + 2], b[4 * i + 3]);
    if 4 * i < n {
      assert b[4 * i] == name[4 * i];
    } else if 4 * i > n {
      assert b[n + 4] == 0 && n + 4 == 4 * i + 3;
    }
  }

  /** Name framing: the number of words the mac sends equals the number the pi consumes exactly for
      lengths that are multiples of four up to 24, and for 23 to 26. */
  lemma Framing(name: seq<Byte>)
    requires Plain(name)
    ensures TakenWhole(NameWords(name)) <==> FramedLength(|name|)
  {
    var ws, n := NameWords(name), |name|;
    forall i | 0 <= i < |ws|
      ensures ws[i] == ALL_ONES <==> n == 4 * i
    {
      OnesWord(name, i);
    }
    if n % 4 == 0 {
      assert |ws| == n / 4 + 1 && ws[n / 4] == ALL_ONES;
    }
  }

  lemma {:induction false} StoredByte(buf: seq<Byte>, name: seq<Byte>, n: nat, x: nat)
    requires |buf| == BUFFER_LEN && n <= WordCount(|name|) && n <= MAX_WORDS && x < 4 * n
    ensures StoreAll(buf, NameWords(name), n)[x] == Padded(name)[x]
  {
    var b, i, ws := Padded(name), n - 1, NameWords(name);
    if x < 4 * i {
      StoredByte(buf, name, i, x);
    } else {
      assert ws[i] == NameWord(name, i);
      ByteOfLe(b[4 * i], b[4 * i + 1], b[4 * i + 2], b[4 * i + 3]);
      assert WordBytes(ws[i])[x - 4 * i] == b[x];
    }
  }

  /** The received bytes start with the name and one byte of padding. */
  lemma Received(buf: seq<Byte>, name: seq<Byte>, n: nat)
    requires |buf| == BUFFER_LEN && n <= WordCount(|name|) && n <= MAX_WORDS && |name| < 4 * n
    ensures var s := StoreAll(buf, NameWords(name), n); s[..|name|] == name && s[|name|] == 0xff
  {
    var s := StoreAll(buf, NameWords(name), n);
    forall x | 0 <= x <= |name|
      ensures s[x] == Padded(name)[x]
    {
      StoredByte(buf, name, n, x);
    }
  }

  lemma FramedRoom(length: nat)
    requires FramedLength(length)
    ensures WordCount(length) <= MAX_WORDS && length < 4 * WordCount(length) <= BUFFER_LEN
  {
  }

  /** A framed name arrives intact, whatever the buffer held before. */
  lemma NameArrives(buf: seq<Byte>, name: seq<Byte>)
    requires |buf| == BUFFER_LEN && Plain(name) && FramedLength(|name|)
    ensures WordCount(|name|) <= MAX_WORDS
    ensures Text(StoreAll(buf, NameWords(name), WordCount(|name|))) == name
  {
    FramedRoom(|name|);
    Received(buf, name, WordCount(|name|));
    TextIs(StoreAll(buf, NameWords(name), WordCount(|name|)), |name|);
  }
}
