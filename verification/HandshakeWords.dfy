/** The boot handshake word by word: what the mac sends (mac-src/bootpi.c) and how the pi, waiting
    at a given place of its program (pi-src/main.c), reacts to each word. */
module HandshakeWords {
  import opened Bytes
  import opened CString
  import opened NameFraming
  import opened IdTable

  const DUMMY: Word := 0x1234_5678
  const DUMMY2: Word := 0x9abc_deff
  const CONFIG_INIT: Word := 0x0000_EEEE
  const FS_ID_START: Word := 0x0000_FFFF
  const REQUEST_ID: Word := 0xCCCC_DDDD

  /** One handshake: the name, what the pi's name buffer happens to hold, the disk's id table, and
      the coordinator's counter. */
  datatype Setup = Setup(name: seq<Byte>, buffer: seq<Byte>, rows: seq<Row>, counter: Word)

  ghost predicate Proper(p: Setup) {
    Plain(p.name) && p.name != [] && |p.buffer| == BUFFER_LEN && |p.rows| <= ENTRIES
  }

  // ---- the words the mac sends ----

  /** `0xffffff00 | *assignable_id`. */
  function IdWord(counter: Word): Word {
    0xffff_ff00 + counter % 0x100
  }

  function Script(p: Setup): (ws: seq<Word>)
    ensures Shaped(ws, NameWords(p.name), IdWord(p.counter))
  {
    [FS_ID_START] + NameWords(p.name) + [CONFIG_INIT, REQUEST_ID, IdWord(p.counter)]
  }

  /** The words of a handshake: the start, the words `name`, then three more. */
  ghost predicate Shaped(ws: seq<Word>, name: seq<Word>, id: Word) {
    && |ws| == |name| + 4 && |name| > 0
    && ws[0] == FS_ID_START && ws[|name| + 1] == CONFIG_INIT && ws[|name| + 2] == REQUEST_ID && ws[|name| + 3] == id
    && forall i :: 0 <= i < |name| ==> ws[i + 1] == name[i]
  }

  // ---- where the pi waits ----

  /** Waiting for FS_ID_START; reading word `i` of the name; waiting for CONFIG_INIT; waiting for
      REQUEST_ID; reading the id; or fed a word that will never be answered. */
  datatype Place = Start | Name(i: nat) | Config | Request | Id | Silent

  /** Where the pi waits for the next word after being sent `w` and answering it. */
  function React(r: Place, w: Word): Place {
    match r
    case Start => if w == FS_ID_START then Name(0) else Silent
    case Name(i) => if w == ALL_ONES || i + 1 == MAX_WORDS then Config else Name(i + 1)
    case Config => if w == CONFIG_INIT then Request else Silent
    case Request => if w == REQUEST_ID then Id else Silent
    case Id => Silent
    case Silent => Silent
  }

  /** Where the pi waits when it is to receive word `k` of `ws`. */
  function PlaceAt(ws: seq<Word>, k: nat): Place
    requires k <= |ws|
  {
    if k == 0 then Start else React(PlaceAt(ws, k - 1), ws[k - 1])
  }

  // ---- when the last word is taken for the id ----

  /** A pi that is still reading the name has been sent only words of it, and no terminator. */
  lemma {:induction false} NamePlace(ws: seq<Word>, k: nat)
    requires k <= |ws| && PlaceAt(ws, k).Name?
    ensures PlaceAt(ws, k) == Name(k - 1) && 1 <= k <= MAX_WORDS
    ensures forall j :: 1 <= j < k ==> ws[j] != ALL_ONES
  {
    if k > 1 {
      NamePlace(ws, k - 1);
    }
  }

  /** While the words are not terminators the pi goes on reading the name. */
  lemma {:induction false} StillReading(ws: seq<Word>, k: nat)
    requires 1 <= k <= |ws| && k <= MAX_WORDS && ws[0] == FS_ID_START
    requires forall j :: 1 <= j < k ==> ws[j] != ALL_ONES
    ensures PlaceAt(ws, k) == Name(k - 1)
  {
    if k == 1 {
      assert PlaceAt(ws, 0) == Start;
    } else {
      StillReading(ws, k - 1);
    }
  }

  /** Fed a name that is taken whole, the pi comes to wait for the id. */
  lemma TakenInStep(ws: seq<Word>, name: seq<Word>, id: Word)
    requires Shaped(ws, name, id) && TakenWhole(name)
    ensures PlaceAt(ws, |ws| - 1) == Id
  {
    var n := |name|;
    forall j | 1 <= j < n
      ensures ws[j] != ALL_ONES
    {
      assert ws[j] == name[j - 1];
    }
    StillReading(ws, n);
    assert ws[n] == name[n - 1];
    assert PlaceAt(ws, n + 1) == Config;
    assert PlaceAt(ws, n + 2) == Request;
  }

  lemma InStepTaken(ws: seq<Word>, name: seq<Word>, id: Word)
    requires Shaped(ws, name, id) && PlaceAt(ws, |ws| - 1) == Id
    ensures TakenWhole(name)
  {
    var n := |name|;
    assert PlaceAt(ws, n + 2) == Request && PlaceAt(ws, n + 1) == Config;
    assert ws[n] == name[n - 1];
    NamePlace(ws, n);
    forall i | 0 <= i < n - 1
      ensures name[i] != ALL_ONES
    {
      assert ws[i + 1] == name[i];
    }
  }

  /** The pi reads the last word as its id, so the two sides stay in step, exactly for names of a
      framed length. */
  lemma InStep(p: Setup)
    requires Plain(p.name)
    ensures PlaceAt(Script(p), |Script(p)| - 1) == Id <==> FramedLength(|p.name|)
  {
    Framing(p.name);
    var ws, name := Script(p), NameWords(p.name);
    if TakenWhole(name) {
      TakenInStep(ws, name, IdWord(p.counter));
    } else if PlaceAt(ws, |ws| - 1) == Id {
      InStepTaken(ws, name, IdWord(p.counter));
    }
  }

  /** In step, every word finds the pi at a place from which it answers. */
  lemma {:induction false} NeverSilent(ws: seq<Word>, k: nat)
    requires k < |ws| && PlaceAt(ws, |ws| - 1) == Id
    ensures PlaceAt(ws, k) != Silent && (k < |ws| - 1 ==> PlaceAt(ws, k) != Id && PlaceAt(ws, k + 1) != Silent)
    decreases |ws| - k
  {
    if k < |ws| - 1 {
      NeverSilent(ws, k + 1);
    }
  }

  /** No word but the mac's own is CONFIG_INIT: a word of a name has at most one zero byte. */
  lemma NotConfigWord(name: seq<Byte>, i: nat)
    requires Plain(name) && i < WordCount(|name|)
    ensures NameWord(name, i) != CONFIG_INIT
  {
    var b := Padded(name);
    ByteOfLe(b[4 * i], b[4 * i + 1], b[4 * i + 2], b[4 * i + 3]);
    assert WordBytes(CONFIG_INIT) == [0xEE, 0xEE, 0, 0];
    if 4 * i + 2 < |name| {
      assert b[4 * i + 2] == name[4 * i + 2];
    }
  }

  lemma IdAfterConfig(ws: seq<Word>, name: seq<Word>, id: Word, k: nat)
    requires Shaped(ws, name, id) && id >= 0xffff_ff00 && CONFIG_INIT !in name
    requires k <= |ws| && PlaceAt(ws, k) == Id
    ensures k == |ws| - 1
  {
    forall j | 1 <= j <= |name|
      ensures ws[j] != CONFIG_INIT
    {
      assert ws[j - 1 + 1] == name[j - 1];
    }
    assert k > 2 && PlaceAt(ws, k - 1) == Request && PlaceAt(ws, k - 2) == Config && ws[k - 2] == CONFIG_INIT;
  }

  /** The pi reads an id only as the last word. */
  lemma IdOnlyLast(p: Setup, k: nat)
    requires Plain(p.name) && k <= |Script(p)| && PlaceAt(Script(p), k) == Id
    ensures k == |Script(p)| - 1
  {
    forall w | w in NameWords(p.name)
      ensures w != CONFIG_INIT
    {
      var i :| 0 <= i < |NameWords(p.name)| && NameWords(p.name)[i] == w;
      NotConfigWord(p.name, i);
    }
    IdAfterConfig(Script(p), NameWords(p.name), IdWord(p.counter), k);
  }

  // ---- the name buffer ----

  /** The pi's buffer when it waits for word `k` of `ws`, if it held `buffer` at first. */
  function BufferAt(ws: seq<Word>, buffer: seq<Byte>, k: nat): (b: seq<Byte>)
    requires k <= |ws| && |buffer| == BUFFER_LEN
    ensures |b| == BUFFER_LEN
  {
    if k == 0 then buffer else Buffered(PlaceAt(ws, k - 1), ws[k - 1], BufferAt(ws, buffer, k - 1))
  }

  /** The buffer after the pi at place `r` received `w`. */
  function Buffered(r: Place, w: Word, buffer: seq<Byte>): (b: seq<Byte>)
    requires |buffer| == BUFFER_LEN
    ensures |b| == BUFFER_LEN
  {
    if r.Name? && r.i < MAX_WORDS then Store(buffer, r.i, w) else buffer
  }

  lemma {:induction false} BufferHolds(ws: seq<Word>, name: seq<Word>, id: Word, buffer: seq<Byte>, k: nat)
    requires Shaped(ws, name, id) && |buffer| == BUFFER_LEN && TakenWhole(name) && k <= |name|
    ensures BufferAt(ws, buffer, k + 1) == StoreAll(buffer, name, k)
  {
    if k == 0 {
      assert PlaceAt(ws, 0) == Start && BufferAt(ws, buffer, 0) == buffer;
    } else {
      BufferHolds(ws, name, id, buffer, k - 1);
      forall j | 1 <= j < k
        ensures ws[j] != ALL_ONES
      {
        assert ws[j] == name[j - 1];
      }
      StillReading(ws, k);
      assert ws[k] == name[k - 1];
    }
  }

  lemma IdPlaces(ws: seq<Word>, n: nat)
    requires n + 4 == |ws| && PlaceAt(ws, n + 3) == Id
    ensures PlaceAt(ws, n + 2) == Request && PlaceAt(ws, n + 1) == Config
  {
  }

  lemma BufferAfter(ws: seq<Word>, buffer: seq<Byte>, n: nat)
    requires n + 4 == |ws| && |buffer| == BUFFER_LEN && PlaceAt(ws, n + 3) == Id
    ensures BufferAt(ws, buffer, n + 4) == BufferAt(ws, buffer, n + 1)
  {
    IdPlaces(ws, n);
    assert BufferAt(ws, buffer, n + 2) == BufferAt(ws, buffer, n + 1) by {
      SameBuffer(ws, buffer, n + 1);
    }
    assert BufferAt(ws, buffer, n + 3) == BufferAt(ws, buffer, n + 2) by {
      SameBuffer(ws, buffer, n + 2);
    }
    SameBuffer(ws, buffer, n + 3);
  }

  /** A word that is not part of the name leaves the buffer alone. */
  lemma SameBuffer(ws: seq<Word>, buffer: seq<Byte>, k: nat)
    requires k < |ws| && |buffer| == BUFFER_LEN && !PlaceAt(ws, k).Name?
    ensures BufferAt(ws, buffer, k + 1) == BufferAt(ws, buffer, k)
  {
  }

  /** In step, the buffer the pi looks up holds the name. */
  lemma NameInBuffer(p: Setup)
    requires Proper(p) && PlaceAt(Script(p), |Script(p)| - 1) == Id
    ensures Text(BufferAt(Script(p), p.buffer, |Script(p)|)) == p.name
  {
    var ws, name := Script(p), NameWords(p.name);
    InStep(p);
    InStepTaken(ws, name, IdWord(p.counter));
    BufferAfter(ws, p.buffer, |name|);
    BufferHolds(ws, name, IdWord(p.counter), p.buffer, |name|);
    NameArrives(p.buffer, p.name);
  }
}
