/** The boot handshake as two processes that exchange single bytes over two channels. The mac writes
    whole words and reads bytes; the pi reads and writes bytes, and finds the opcodes it waits for
    with a window that slides over the incoming bytes. */
module Handshake {
  import opened Bytes
  import opened CString
  import opened NameFraming
  import opened IdTable
  import opened HandshakeWords
  import DoneScanner

  // ---- the two processes ----

  /** Where `dfs_boot` is: about to send word `k`; in `select`; in `get32`, waiting for the answer to
      word `k`; in the last `get32`; returned 0; returned -1. */
  datatype Mac =
    Sending(k: nat) | Selecting | Receiving(k: nat, got: seq<Byte>) | Claiming(got: seq<Byte>)
  | Done(claim: Byte) | GaveUp

  /** Where `entry` is: in an opcode loop; in `get_string`; about to mount the card; reading the id
      word; about to look the name up; writing bytes; returned. */
  datatype Pi =
    Scanning(place: Place, op: Word) | Reading(i: nat, got: seq<Byte>) | Mounting | ReadingId(got: seq<Byte>)
  | LookingUp(offered: Byte) | Writing(out: seq<Byte>, next: Pi) | Finished(id: Byte)

  datatype State = State(mac: Mac, counter: Word, pi: Pi, buffer: seq<Byte>, rows: seq<Row>,
                         toPi: seq<Byte>, toMac: seq<Byte>)

  /** What the two processes start from: the mac's words and counter, the pi's buffer and table. */
  datatype Talk = Talk(ws: seq<Word>, counter: Word, buffer: seq<Byte>, rows: seq<Row>)

  function Initial(t: Talk): State {
    State(Sending(0), t.counter, Waiting(Start), t.buffer, t.rows, [], [])
  }

  // ---- the pi ----

  /** The pi's control state when it waits for the next word at place `r`. The window of the
      CONFIG_INIT loop still holds FS_ID_START; the other two start out empty. */
  function Waiting(r: Place): Pi {
    match r
    case Start => Scanning(Start, 0)
    case Name(i) => Reading(i, [])
    case Config => Scanning(Config, FS_ID_START)
    case Request => Scanning(Request, 0)
    case Id => ReadingId([])
    case Silent => Mounting
  }

  function Target(r: Place): Word {
    match r
    case Start => FS_ID_START
    case Config => CONFIG_INIT
    case _ => REQUEST_ID
  }

  /** What follows an opcode loop. */
  function Matched(r: Place): Pi {
    match r
    case Start => Writing(WordBytes(DUMMY), Waiting(Name(0)))
    case Config => Mounting
    case _ => Writing(WordBytes(DUMMY), Waiting(Id))
  }

  /** `op >> 8 | byte << 24`. */
  function Shifted(op: Word, b: Byte): Word {
    op / 0x100 + 0x100_0000 * b
  }

  predicate Hears(pi: Pi) {
    pi.Scanning? || pi.Reading? || pi.ReadingId?
  }

  function Hear(pi: Pi, b: Byte): Pi
    requires Hears(pi)
  {
    match pi
    case Scanning(r, op) => if Shifted(op, b) == Target(r) then Matched(r) else Scanning(r, Shifted(op, b))
    case Reading(i, got) =>
      if |got| < 3 then Reading(i, got + [b])
      else if (got[0] == 0xff && got[1] == 0xff && got[2] == 0xff && b == 0xff) || i + 1 == MAX_WORDS
      then Writing(WordBytes(DUMMY), Waiting(Config))
      else Writing(WordBytes(DUMMY), Waiting(Name(i + 1)))
    case ReadingId(got) => if |got| < 3 then ReadingId(got + [b]) else LookingUp(got[0])
  }

  /** The name buffer after that byte: written when a word of the name is complete. */
  function HearInto(pi: Pi, b: Byte, buffer: seq<Byte>): seq<Byte> {
    if pi.Reading? && |pi.got| == 3 && pi.i < MAX_WORDS && |buffer| == BUFFER_LEN
    then Store(buffer, pi.i, Le(pi.got[0], pi.got[1], pi.got[2], b))
    else buffer
  }

  /** The id the pi claims after looking `name` up. */
  function ClaimedId(rows: seq<Row>, name: seq<Byte>, offered: Byte): Byte {
    match Respond(rows, name, offered)
    case Recorded(id) => id % 0x100
    case _ => offered
  }

  /** What the pi writes then: whether it took the offered id, four copies of its own id, and the end
      marker. */
  function Verdict(rows: seq<Row>, name: seq<Byte>, offered: Byte): seq<Byte> {
    var id := ClaimedId(rows, name, offered);
    WordBytes(if Respond(rows, name, offered) == Unassigned then DUMMY2 else DUMMY)
    + [id, id, id, id] + DoneScanner.MARKER
  }

  // ---- steps ----

  /** The mac waits in `select` after the third word from the end, CONFIG_INIT. */
  function SelectAfter(ws: seq<Word>): nat {
    if |ws| < 3 then 0 else |ws| - 3
  }

  predicate CanSend(ws: seq<Word>, s: State) {
    s.mac.Sending? && s.mac.k < |ws|
  }

  function Send(ws: seq<Word>, s: State): State
    requires CanSend(ws, s)
  {
    s.(mac := if s.mac.k == SelectAfter(ws) then Selecting else Receiving(s.mac.k, []),
       toPi := s.toPi + WordBytes(ws[s.mac.k]))
  }

  predicate CanSelect(s: State) {
    s.mac.Selecting? && s.toMac != []
  }

  predicate CanTimeOut(s: State) {
    s.mac.Selecting? && s.toMac == []
  }

  predicate CanReceive(s: State) {
    s.mac.Receiving? && s.toMac != []
  }

  function Receive(ws: seq<Word>, s: State): State
    requires CanReceive(s)
  {
    var k, got, rest := s.mac.k, s.mac.got + [s.toMac[0]], s.toMac[1..];
    if |got| != 4 then s.(mac := Receiving(k, got), toMac := rest)
    else
      var w := Le(got[0], got[1], got[2], got[3]);
      if k < |ws| - 1 then
        s.(mac := if w == DUMMY then Sending(k + 1) else Receiving(k, []), toMac := rest)
      else if w == DUMMY then s.(mac := Claiming([]), toMac := rest)
      else if w == DUMMY2 then s.(mac := Claiming([]), counter := (s.counter + 1) % WRAP, toMac := rest)
      else s.(mac := Receiving(k, []), toMac := rest)
  }

  predicate CanClaim(s: State) {
    s.mac.Claiming? && s.toMac != []
  }

  function TakeClaim(s: State): State
    requires CanClaim(s)
  {
    var got := s.mac.got + [s.toMac[0]];
    s.(mac := if |got| == 4 then Done(got[0]) else Claiming(got), toMac := s.toMac[1..])
  }

  predicate CanHear(s: State) {
    Hears(s.pi) && s.toPi != []
  }

  function HearByte(s: State): State
    requires CanHear(s)
  {
    var b := s.toPi[0];
    s.(pi := Hear(s.pi, b), buffer := HearInto(s.pi, b, s.buffer), toPi := s.toPi[1..])
  }

  predicate CanMount(s: State) {
    s.pi.Mounting?
  }

  function Mount(s: State): State {
    s.(pi := Writing(WordBytes(DUMMY), Waiting(Request)))
  }

  predicate CanLookUp(s: State) {
    s.pi.LookingUp?
  }

  function LookUp(s: State): State
    requires CanLookUp(s)
  {
    var name, offered := Text(s.buffer), s.pi.offered;
    s.(pi := Writing(Verdict(s.rows, name, offered), Finished(ClaimedId(s.rows, name, offered))),
       rows := Updated(s.rows, name, offered))
  }

  predicate CanWrite(s: State) {
    s.pi.Writing? && s.pi.out != []
  }

  function Write(s: State): State
    requires CanWrite(s)
  {
    s.(pi := if |s.pi.out| == 1 then s.pi.next else Writing(s.pi.out[1..], s.pi.next),
       toMac := s.toMac + [s.pi.out[0]])
  }

  predicate MacStep(ws: seq<Word>, s: State, s': State) {
    || (CanSend(ws, s) && s' == Send(ws, s))
    || (CanSelect(s) && s' == s.(mac := Receiving(SelectAfter(ws), [])))
    || (CanTimeOut(s) && s' == s.(mac := GaveUp))
    || (CanReceive(s) && s' == Receive(ws, s))
    || (CanClaim(s) && s' == TakeClaim(s))
  }

  predicate PiStep(s: State, s': State) {
    || (CanHear(s) && s' == HearByte(s))
    || (CanMount(s) && s' == Mount(s))
    || (CanLookUp(s) && s' == LookUp(s))
    || (CanWrite(s) && s' == Write(s))
  }

  /** Either process takes a step. */
  predicate Step(ws: seq<Word>, s: State, s': State) {
    MacStep(ws, s, s') || PiStep(s, s')
  }

  // ---- a word seen by the pi, byte by byte ----

  /** The opcode window after `j` bytes of `w`. */
  function Window(op: Word, w: Word, j: nat): Word
    requires j <= 4
  {
    if j == 0 then op else Shifted(Window(op, w, j - 1), ByteOf(w, j - 1))
  }

  lemma Slides(c: nat, x: nat, b: Byte)
    requires c < 0x100 && c + 0x100 * x < WRAP
    ensures Shifted(c + 0x100 * x, b) == x + 0x100_0000 * b as int
  {
  }

  /** The window, started at 0 or at FS_ID_START, after each byte of `w`. */
  lemma WindowIs(op: Word, w: Word)
    requires op == 0 || op == FS_ID_START
    ensures Window(op, w, 0) == op
    ensures Window(op, w, 1) == op / 0x100 + 0x100_0000 * ByteOf(w, 0) as int
    ensures Window(op, w, 2) == 0x1_0000 * ByteOf(w, 0) as int + 0x100_0000 * ByteOf(w, 1) as int
    ensures Window(op, w, 3) ==
            0x100 * ByteOf(w, 0) as int + 0x1_0000 * ByteOf(w, 1) as int + 0x100_0000 * ByteOf(w, 2) as int
    ensures Window(op, w, 4) == w
  {
    var b0: int, b1: int, b2: int, b3: int := ByteOf(w, 0), ByteOf(w, 1), ByteOf(w, 2), ByteOf(w, 3);
    Slides(op / 0x100, 0x1_0000 * b0, b1);
    Slides(0, 0x100 * b0 + 0x1_0000 * b1, b2);
    Slides(0, b0 + 0x100 * b1 + 0x1_0000 * b2, b3);
    LeOfByteOf(w);
  }

  lemma LowByte(c: nat, x: nat)
    requires c < 0x100
    ensures (c + 0x100 * x) % 0x100 == c
  {
  }

  lemma WindowLowByte(op: Word, w: Word, j: nat)
    requires (op == 0 || op == FS_ID_START) && 0 < j < 4
    ensures Window(op, w, j) % 0x100 == if j == 1 then op / 0x100 else 0
  {
    var b0: int, b1: int, b2: int := ByteOf(w, 0), ByteOf(w, 1), ByteOf(w, 2);
    WindowIs(op, w);
    if j == 1 {
      LowByte(op / 0x100, 0x1_0000 * b0);
    } else if j == 2 {
      LowByte(0, 0x100 * b0 + 0x1_0000 * b1);
    } else {
      LowByte(0, b0 + 0x100 * b1 + 0x1_0000 * b2);
    }
  }

  /** The window finds an opcode only when aligned with a word, and then exactly that word. */
  lemma Aligned(op: Word, w: Word, j: nat)
    requires op == 0 || op == FS_ID_START
    requires j < 4
    ensures Window(op, w, 4) == w
    ensures op == 0 ==> Window(op, w, j) != FS_ID_START && Window(op, w, j) != REQUEST_ID
    ensures op == FS_ID_START ==> Window(op, w, j) != CONFIG_INIT
  {
    WindowIs(op, w);
    if j > 0 {
      WindowLowByte(op, w, j);
      assert FS_ID_START % 0x100 == 0xFF && REQUEST_ID % 0x100 == 0xDD && CONFIG_INIT % 0x100 == 0xEE;
    }
  }
}
