/** What holds in every reachable state of the handshake, and what both sides know at the end. */
module HandshakeSafety {
  import opened Bytes
  import opened CString
  import opened NameFraming
  import opened IdTable
  import opened HandshakeWords
  import opened Handshake

  // ---- one word, byte by byte ----

  function WindowStart(r: Place): Word {
    if r == Config then FS_ID_START else 0
  }

  /** The pi after `j` bytes of the word `w`, received at place `r`. */
  function Mid(r: Place, w: Word, j: nat): Pi
    requires j < 4
  {
    match r
    case Name(i) => Reading(i, WordBytes(w)[..j])
    case Id => ReadingId(WordBytes(w)[..j])
    case _ => Scanning(r, Window(WindowStart(r), w, j))
  }

  /** The pi after all of `w`. */
  function Heard(r: Place, w: Word): Pi {
    match r
    case Name(_) => Writing(WordBytes(DUMMY), Waiting(React(r, w)))
    case Id => LookingUp(ByteOf(w, 0))
    case _ => if w == Target(r) then Matched(r) else Scanning(r, w)
  }

  lemma ScanStep(r: Place, w: Word, j: nat)
    requires r.Start? || r.Config? || r.Request?
    requires j < 4
    ensures Hear(Mid(r, w, j), ByteOf(w, j)) == if j < 3 then Mid(r, w, j + 1) else Heard(r, w)
  {
    Aligned(WindowStart(r), w, if j < 3 then j + 1 else 0);
    assert Window(WindowStart(r), w, j + 1) == Shifted(Window(WindowStart(r), w, j), ByteOf(w, j));
  }

  lemma NameStep(i: nat, w: Word, j: nat)
    requires j < 4
    ensures Hear(Mid(Name(i), w, j), ByteOf(w, j)) == if j < 3 then Mid(Name(i), w, j + 1) else Heard(Name(i), w)
  {
    var b := WordBytes(w);
    assert b[..j] + [b[j]] == b[..j + 1];
    LeOfByteOf(w);
    NotAllOnes(b[0], b[1], b[2], b[3]);
  }

  /** Each byte of a word takes the pi one step further, wherever it waits. */
  lemma HearStep(r: Place, w: Word, j: nat)
    requires r != Silent && j < 4
    ensures Hears(Mid(r, w, j))
    ensures Hear(Mid(r, w, j), ByteOf(w, j)) == if j < 3 then Mid(r, w, j + 1) else Heard(r, w)
  {
    match r
    case Name(i) => NameStep(i, w, j);
    case Id => assert WordBytes(w)[..j] + [WordBytes(w)[j]] == WordBytes(w)[..j + 1];
    case _ => ScanStep(r, w, j);
  }

  lemma HearIntoStep(r: Place, w: Word, j: nat, buffer: seq<Byte>)
    requires r != Silent && j < 4 && |buffer| == BUFFER_LEN
    ensures HearInto(Mid(r, w, j), ByteOf(w, j), buffer) == if j < 3 then buffer else Buffered(r, w, buffer)
  {
    LeOfByteOf(w);
  }

  // ---- the invariant ----

  function PlaceOf(t: Talk, k: nat): Place {
    if k <= |t.ws| then PlaceAt(t.ws, k) else Silent
  }

  /** Where the pi waits when the mac sends its last word. */
  function EndPlace(t: Talk): Place {
    if t.ws == [] then Silent else PlaceAt(t.ws, |t.ws| - 1)
  }

  /** The pi can come to read an id only as the last word, and that word offers the counter. */
  ghost predicate Orderly(t: Talk) {
    && |t.ws| >= 5 && |t.buffer| == BUFFER_LEN
    && forall k: nat {:trigger Show(k)} :: Show(k) && k < |t.ws| && PlaceAt(t.ws, k) == Id ==>
                                             k == |t.ws| - 1 && ByteOf(t.ws[k], 0) == Offered(t)
  }

  lemma IdIsLast(t: Talk, k: nat)
    requires Orderly(t) && k < |t.ws| && PlaceOf(t, k) == Id
    ensures k == |t.ws| - 1 && ByteOf(t.ws[k], 0) == Offered(t)
  {
    assert Show(k);
  }

  function Offered(t: Talk): Byte {
    t.counter % 0x100
  }

  /** The name the pi looks up. */
  function FinalName(t: Talk): seq<Byte>
    requires |t.buffer| == BUFFER_LEN
  {
    Text(BufferAt(t.ws, t.buffer, |t.ws|))
  }

  function TheVerdict(t: Talk): seq<Byte>
    requires |t.buffer| == BUFFER_LEN
  {
    Verdict(t.rows, FinalName(t), Offered(t))
  }

  function TheId(t: Talk): Byte
    requires |t.buffer| == BUFFER_LEN
  {
    ClaimedId(t.rows, FinalName(t), Offered(t))
  }

  /** The bytes the pi is still to write, and where it goes from there. */
  function Pending(pi: Pi): seq<Byte> {
    if pi.Writing? then pi.out else []
  }

  function Beyond(pi: Pi): Pi {
    if pi.Writing? then pi.next else pi
  }

  /** A message of which the mac holds `got`: the rest is in the channel or still to be written, and
      the pi goes on to `next`. */
  ghost predicate Underway(s: State, got: seq<Byte>, message: seq<Byte>, next: Pi) {
    && s.toPi == []
    && got + s.toMac + Pending(s.pi) == message
    && Beyond(s.pi) == next && !next.Writing?
    && (s.pi.Writing? ==> s.pi.out != [])
  }

  /** Word `k` is on its way: the channel holds the bytes the pi has not read. */
  ghost predicate InFlight(t: Talk, s: State, k: nat, got: seq<Byte>)
    requires k < |t.ws| && |t.buffer| == BUFFER_LEN
  {
    var r, w := PlaceOf(t, k), t.ws[k];
    && 1 <= |s.toPi| <= 4 && s.toPi == WordBytes(w)[4 - |s.toPi|..] && s.pi == Mid(r, w, 4 - |s.toPi|)
    && s.toMac == [] && got == []
    && s.buffer == BufferAt(t.ws, t.buffer, k) && s.rows == t.rows
  }

  /** The pi has all of word `k`, and is working or has begun to answer. */
  ghost predicate Answering(t: Talk, s: State, k: nat, got: seq<Byte>)
    requires k < |t.ws| && |t.buffer| == BUFFER_LEN
  {
    var r, w := PlaceOf(t, k), t.ws[k];
    && s.toPi == [] && s.buffer == BufferAt(t.ws, t.buffer, k + 1)
    && if r == Id then
         if s.pi.LookingUp? then s.pi.offered == Offered(t) && s.toMac == [] && got == [] && s.rows == t.rows
         else Underway(s, got, TheVerdict(t), Finished(TheId(t))) && s.rows == Updated(t.rows, FinalName(t), Offered(t))
       else
         s.rows == t.rows
         && if React(r, w) == Silent then s.pi == Scanning(r, w) && s.toMac == [] && got == []
            else if s.pi.Mounting? then r == Config && s.toMac == [] && got == []
            else Underway(s, got, WordBytes(DUMMY), Waiting(React(r, w)))
  }

  /** The mac has sent word `k` and holds `got` of the answer. */
  ghost predicate ExchangeBody(t: Talk, s: State, k: nat, got: seq<Byte>) {
    && k < |t.ws| && |t.buffer| == BUFFER_LEN && PlaceOf(t, k) != Silent && |got| < 4 && s.counter == t.counter
    && if s.toPi != [] then InFlight(t, s, k, got) else Answering(t, s, k, got)
  }

  ghost predicate Exchange(t: Talk, s: State, k: nat, got: seq<Byte>) {
    forall i: nat {:trigger Show(i)} :: Show(i) ==> ExchangeBody(t, s, k, got)
  }

  lemma ExchangeIs(t: Talk, s: State, k: nat, got: seq<Byte>)
    ensures Exchange(t, s, k, got) <==> ExchangeBody(t, s, k, got)
  {
    assert Show(0);
  }

  /** Both sides agree on what comes next: the mac is to send word `k`, the pi waits for it. */
  ghost predicate InStepAt(t: Talk, s: State, k: nat) {
    && k < |t.ws| && |t.buffer| == BUFFER_LEN && PlaceOf(t, k) != Silent
    && s.pi == Waiting(PlaceOf(t, k)) && s.toPi == [] && s.toMac == []
    && s.buffer == BufferAt(t.ws, t.buffer, k) && s.rows == t.rows && s.counter == t.counter
  }

  function NextCounter(t: Talk): Word
    requires |t.buffer| == BUFFER_LEN
  {
    if Respond(t.rows, FinalName(t), Offered(t)) == Unassigned then (t.counter + 1) % WRAP else t.counter
  }

  /** The mac knows whether its id was taken, holds `got` of what follows, and `rest` is that in
      full. */
  ghost predicate Decided(t: Talk, s: State, got: seq<Byte>, rest: seq<Byte>) {
    && |t.buffer| == BUFFER_LEN && EndPlace(t) == Id
    && Underway(s, got, rest, Finished(TheId(t)))
    && s.rows == Updated(t.rows, FinalName(t), Offered(t)) && s.counter == NextCounter(t)
  }

  /** The mac took the answer to a name word for the answer to its id: it waits for an id while the
      pi waits for a word. */
  ghost predicate Stranded(t: Talk, s: State) {
    && EndPlace(t) != Id && Hears(s.pi) && s.toPi == [] && s.toMac == []
    && s.rows == t.rows && s.counter == t.counter
  }

  ghost predicate Inv(t: Talk, s: State) {
    forall i: nat {:trigger Show(i)} :: Show(i) ==> InvBody(t, s)
  }

  ghost predicate InvBody(t: Talk, s: State) {
    match s.mac
    case Sending(k) => InStepAt(t, s, k)
    case Selecting => Exchange(t, s, SelectAfter(t.ws), [])
    case Receiving(k, got) => Exchange(t, s, k, got)
    case Claiming(got) =>
      if EndPlace(t) == Id then |got| < 4 && |t.buffer| == BUFFER_LEN && Decided(t, s, got, TheVerdict(t)[4..])
      else got == [] && Stranded(t, s)
    case Done(c) => |t.buffer| == BUFFER_LEN && c == TheId(t) && Decided(t, s, [], DoneScanner.MARKER)
    case GaveUp => Exchange(t, s, SelectAfter(t.ws), [])
  }

  lemma InvIs(t: Talk, s: State)
    ensures Inv(t, s) <==> InvBody(t, s)
  {
    assert Show(0);
  }

  lemma InvReceiving(t: Talk, s: State)
    requires s.mac.Receiving?
    ensures Inv(t, s) <==> Exchange(t, s, s.mac.k, s.mac.got)
  {
    InvIs(t, s);
  }

  lemma InvInitially(t: Talk)
    requires Orderly(t)
    ensures Inv(t, Initial(t))
  {
    InvIs(t, Initial(t));
    assert PlaceAt(t.ws, 0) == Start;
  }

  // ---- every step keeps it: the pi ----

  lemma HearKeepsExchange(t: Talk, s: State, k: nat, got: seq<Byte>)
    requires Orderly(t) && Exchange(t, s, k, got) && CanHear(s)
    ensures Exchange(t, HearByte(s), k, got)
  {
    ExchangeIs(t, s, k, got);
    var ws, r, w := t.ws, PlaceOf(t, k), t.ws[k];
    var j := 4 - |s.toPi|;
    assert s.toPi[0] == ByteOf(w, j);
    HearStep(r, w, j);
    HearIntoStep(r, w, j, s.buffer);
    var s' := HearByte(s);
    if j < 3 {
      assert s'.toPi == WordBytes(w)[j + 1..];
    } else {
      assert s'.toPi == [];
      assert s'.buffer == BufferAt(ws, t.buffer, k + 1);
      HeardAnswers(t, s', k);
    }
  }

  lemma HeardAnswers(t: Talk, s: State, k: nat)
    requires Orderly(t) && k < |t.ws| && PlaceOf(t, k) != Silent
    requires s.pi == Heard(PlaceOf(t, k), t.ws[k]) && s.toPi == [] && s.toMac == [] && s.rows == t.rows
    requires s.buffer == BufferAt(t.ws, t.buffer, k + 1)
    ensures Answering(t, s, k, [])
  {
    var r, w := PlaceOf(t, k), t.ws[k];
    if r == Id {
      IdIsLast(t, k);
    } else if s.pi.Writing? {
      HeardWrites(r, w);
      StartsUnderway(s, WordBytes(DUMMY), Waiting(React(r, w)));
    }
  }

  /** When the pi answers a word at once, it answers DUMMY and goes on to its next place. */
  lemma HeardWrites(r: Place, w: Word)
    requires r != Silent && Heard(r, w).Writing?
    ensures Heard(r, w) == Writing(WordBytes(DUMMY), Waiting(React(r, w))) && React(r, w) != Silent
    ensures !Waiting(React(r, w)).Writing? && WordBytes(DUMMY) != []
  {
  }

  /** While bytes are on their way to it the pi does nothing but read. */
  lemma NothingUnread(t: Talk, s: State, k: nat, got: seq<Byte>)
    requires ExchangeBody(t, s, k, got) && !Hears(s.pi)
    ensures s.toPi == [] && Answering(t, s, k, got)
  {
    if s.toPi != [] {
      HearStep(PlaceOf(t, k), t.ws[k], 4 - |s.toPi|);
    }
  }

  lemma MountKeepsExchange(t: Talk, s: State, k: nat, got: seq<Byte>)
    requires Exchange(t, s, k, got) && CanMount(s)
    ensures Exchange(t, Mount(s), k, got)
  {
    ExchangeIs(t, s, k, got);
    NothingUnread(t, s, k, got);
    assert PlaceOf(t, k) == Config && React(Config, t.ws[k]) == Request;
  }

  lemma FinalBuffer(t: Talk, s: State)
    requires |t.buffer| == BUFFER_LEN && s.buffer == BufferAt(t.ws, t.buffer, |t.ws|)
    ensures Text(s.buffer) == FinalName(t)
  {
  }

  /** The pi has begun to write its verdict. */
  lemma VerdictBegins(t: Talk, s: State, k: nat)
    requires k + 1 == |t.ws| && |t.buffer| == BUFFER_LEN && PlaceOf(t, k) == Id && s.counter == t.counter
    requires s.pi == Writing(TheVerdict(t), Finished(TheId(t))) && s.toPi == [] && s.toMac == []
    requires s.rows == Updated(t.rows, FinalName(t), Offered(t)) && s.buffer == BufferAt(t.ws, t.buffer, k + 1)
    ensures ExchangeBody(t, s, k, [])
  {
    VerdictParts(t.rows, FinalName(t), Offered(t));
    StartsUnderway(s, TheVerdict(t), Finished(TheId(t)));
  }

  lemma LookUpKeepsExchange(t: Talk, s: State, k: nat, got: seq<Byte>)
    requires Orderly(t) && Exchange(t, s, k, got) && CanLookUp(s)
    ensures Exchange(t, LookUp(s), k, got)
  {
    ExchangeIs(t, s, k, got);
    NothingUnread(t, s, k, got);
    assert PlaceOf(t, k) == Id;
    IdIsLast(t, k);
    assert s.pi.offered == Offered(t) && s.toMac == [] && got == [] && s.rows == t.rows && s.toPi == [];
    FinalBuffer(t, s);
    VerdictBegins(t, LookUp(s), k);
  }

  lemma StartsUnderway(s: State, message: seq<Byte>, next: Pi)
    requires s.pi == Writing(message, next) && message != [] && !next.Writing? && s.toPi == [] && s.toMac == []
    ensures Underway(s, [], message, next)
  {
    assert [] + [] + message == message;
  }

  lemma VerdictParts(rows: seq<Row>, name: seq<Byte>, offered: Byte)
    ensures var v, id := Verdict(rows, name, offered), ClaimedId(rows, name, offered);
            && |v| == 16 && v[8..] == DoneScanner.MARKER
            && v[..4] == WordBytes(if Respond(rows, name, offered) == Unassigned then DUMMY2 else DUMMY)
            && v[4..][..4] == [id, id, id, id] && v[4..][4..] == DoneScanner.MARKER
  {
  }

  lemma WriteUnderway(s: State, got: seq<Byte>, message: seq<Byte>, next: Pi)
    requires Underway(s, got, message, next) && CanWrite(s)
    ensures Underway(Write(s), got, message, next)
  {
    var out := s.pi.out;
    assert out == [out[0]] + out[1..];
    assert got + (s.toMac + [out[0]]) + out[1..] == got + s.toMac + out;
  }

  lemma WriteKeepsExchange(t: Talk, s: State, k: nat, got: seq<Byte>)
    requires Exchange(t, s, k, got) && CanWrite(s)
    ensures Exchange(t, Write(s), k, got)
  {
    ExchangeIs(t, s, k, got);
    NothingUnread(t, s, k, got);
    if PlaceOf(t, k) == Id {
      WriteUnderway(s, got, TheVerdict(t), Finished(TheId(t)));
    } else {
      WriteUnderway(s, got, WordBytes(DUMMY), Waiting(React(PlaceOf(t, k), t.ws[k])));
    }
  }

  // ---- every step keeps it: the mac ----

  lemma SendKeeps(t: Talk, s: State)
    requires Orderly(t) && Inv(t, s) && CanSend(t.ws, s)
    ensures Exchange(t, Send(t.ws, s), s.mac.k, [])
  {
    InvIs(t, s);
    var k := s.mac.k;
    var s' := Send(t.ws, s);
    assert s'.toPi == WordBytes(t.ws[k])[0..];
    assert Mid(PlaceOf(t, k), t.ws[k], 0) == Waiting(PlaceOf(t, k));
    ExchangeIs(t, s', k, []);
  }

  lemma TakeUnderway(s: State, s': State, got: seq<Byte>, message: seq<Byte>, next: Pi)
    requires Underway(s, got, message, next) && s.toMac != []
    requires s'.toPi == s.toPi && s'.pi == s.pi && s'.toMac == s.toMac[1..]
    ensures Underway(s', got + [s.toMac[0]], message, next)
  {
    assert s.toMac == [s.toMac[0]] + s.toMac[1..];
  }

  /** The mac has the whole message: nothing of it is left in the channel or at the pi. */
  lemma AllTaken(s: State, got: seq<Byte>, message: seq<Byte>, next: Pi)
    requires Underway(s, got, message, next) && |got| == |message|
    ensures got == message && s.toMac == [] && s.pi == next
  {
    assert |got + s.toMac + Pending(s.pi)| == |message|;
    assert s.toMac == [] && Pending(s.pi) == [];
    assert got + [] + [] == got;
  }

  /** The mac holds the first four bytes of a longer message. */
  lemma HeadTaken(s: State, got: seq<Byte>, message: seq<Byte>, next: Pi)
    requires Underway(s, got, message, next) && |got| == 4 <= |message|
    ensures got == message[..4] && Underway(s, [], message[4..], next)
  {
    var rest := s.toMac + Pending(s.pi);
    assert message == got + rest;
    assert [] + s.toMac + Pending(s.pi) == rest;
  }

  lemma WordRead(w: Word, got: seq<Byte>)
    requires got == WordBytes(w)
    ensures |got| == 4 && Le(got[0], got[1], got[2], got[3]) == w
  {
    LeOfByteOf(w);
  }

  /** A byte arrives only when the pi is answering. */
  lemma ByteArrives(t: Talk, s: State, k: nat, got: seq<Byte>)
    requires Orderly(t) && Exchange(t, s, k, got) && s.toMac != []
    ensures k < |t.ws| && |got| < 4 && s.counter == t.counter && s.buffer == BufferAt(t.ws, t.buffer, k + 1)
    ensures PlaceOf(t, k) == Id ==>
              && k == |t.ws| - 1 && Underway(s, got, TheVerdict(t), Finished(TheId(t)))
              && s.rows == Updated(t.rows, FinalName(t), Offered(t))
    ensures PlaceOf(t, k) != Id ==>
              && s.rows == t.rows && React(PlaceOf(t, k), t.ws[k]) != Silent
              && Underway(s, got, WordBytes(DUMMY), Waiting(React(PlaceOf(t, k), t.ws[k])))
  {
    ExchangeIs(t, s, k, got);
    if PlaceOf(t, k) == Id {
      IdIsLast(t, k);
    }
  }

  lemma PartOfAnswer(t: Talk, s: State, k: nat, got: seq<Byte>)
    requires Orderly(t) && Exchange(t, s, k, got) && s.toMac != [] && |got| < 3
    ensures Exchange(t, s.(mac := Receiving(k, got + [s.toMac[0]]), toMac := s.toMac[1..]), k, got + [s.toMac[0]])
  {
    ByteArrives(t, s, k, got);
    var s' := s.(mac := Receiving(k, got + [s.toMac[0]]), toMac := s.toMac[1..]);
    ExchangeIs(t, s, k, got);
    if PlaceOf(t, k) == Id {
      TakeUnderway(s, s', got, TheVerdict(t), Finished(TheId(t)));
    } else {
      TakeUnderway(s, s', got, WordBytes(DUMMY), Waiting(React(PlaceOf(t, k), t.ws[k])));
    }
    ExchangeIs(t, s', k, got + [s.toMac[0]]);
  }

  /** What the mac does with a DUMMY. */
  lemma ReceiveDummy(ws: seq<Word>, s: State)
    requires CanReceive(s) && s.mac.got + [s.toMac[0]] == WordBytes(DUMMY)
    ensures Receive(ws, s) == s.(mac := if s.mac.k < |ws| - 1 then Sending(s.mac.k + 1) else Claiming([]),
                                 toMac := s.toMac[1..])
  {
    WordRead(DUMMY, s.mac.got + [s.toMac[0]]);
  }

  /** What the mac does with the first word of a verdict. */
  lemma ReceiveHeader(ws: seq<Word>, s: State, taken: bool)
    requires CanReceive(s) && s.mac.k == |ws| - 1
    requires s.mac.got + [s.toMac[0]] == WordBytes(if taken then DUMMY2 else DUMMY)
    ensures Receive(ws, s) == s.(mac := Claiming([]), toMac := s.toMac[1..],
                                 counter := if taken then (s.counter + 1) % WRAP else s.counter)
  {
    WordRead(if taken then DUMMY2 else DUMMY, s.mac.got + [s.toMac[0]]);
  }

  lemma NextPlace(t: Talk, k: nat)
    requires k < |t.ws|
    ensures PlaceOf(t, k + 1) == React(PlaceOf(t, k), t.ws[k])
  {
  }

  /** The mac took a DUMMY for the answer to its id. */
  lemma NowStranded(t: Talk, s: State, next: Place)
    requires |t.ws| > 0 && PlaceOf(t, |t.ws| - 1) != Id && next != Silent && s.mac == Claiming([])
    requires s.toPi == [] && s.toMac == [] && s.pi == Waiting(next) && s.rows == t.rows && s.counter == t.counter
    ensures Inv(t, s)
  {
    InvIs(t, s);
  }

  lemma NowInStep(t: Talk, s: State, k: nat)
    requires k < |t.ws| && |t.buffer| == BUFFER_LEN && PlaceOf(t, k) != Silent && s.mac == Sending(k)
    requires s.toPi == [] && s.toMac == [] && s.pi == Waiting(PlaceOf(t, k))
    requires s.rows == t.rows && s.counter == t.counter
    requires s.buffer == BufferAt(t.ws, t.buffer, k)
    ensures Inv(t, s)
  {
    InvIs(t, s);
  }

  /** The fourth byte of a DUMMY is the last thing in the channel, and the pi waits for the next
      word. */
  lemma AnswerRead(t: Talk, s: State, k: nat, got: seq<Byte>)
    requires Orderly(t) && Exchange(t, s, k, got) && s.toMac != [] && |got| == 3 && PlaceOf(t, k) != Id
    ensures got + [s.toMac[0]] == WordBytes(DUMMY) && s.toMac[1..] == [] && s.toPi == []
    ensures k < |t.ws| && PlaceOf(t, k + 1) != Silent && s.pi == Waiting(PlaceOf(t, k + 1))
    ensures s.rows == t.rows && s.counter == t.counter && s.buffer == BufferAt(t.ws, t.buffer, k + 1)
  {
    ByteArrives(t, s, k, got);
    NextPlace(t, k);
    var next, s' := Waiting(PlaceOf(t, k + 1)), s.(toMac := s.toMac[1..]);
    TakeUnderway(s, s', got, WordBytes(DUMMY), next);
    AllTaken(s', got + [s.toMac[0]], WordBytes(DUMMY), next);
  }

  /** The fourth byte of a DUMMY: the mac goes on to the next word, or waits for an id. */
  lemma AnswerTaken(t: Talk, s: State, s': State)
    requires Orderly(t) && s.mac.Receiving? && Exchange(t, s, s.mac.k, s.mac.got)
    requires s.toMac != [] && |s.mac.got| == 3 && PlaceOf(t, s.mac.k) != Id && s' == Receive(t.ws, s)
    ensures Inv(t, s')
  {
    var k := s.mac.k;
    AnswerRead(t, s, k, s.mac.got);
    ReceiveDummy(t.ws, s);
    if k == |t.ws| - 1 {
      NowStranded(t, s', PlaceOf(t, k + 1));
    } else {
      NowInStep(t, s', k + 1);
    }
  }

  lemma VerdictRead(t: Talk, s: State, k: nat, got: seq<Byte>)
    requires Orderly(t) && Exchange(t, s, k, got) && s.toMac != [] && |got| == 3 && PlaceOf(t, k) == Id
    ensures k == |t.ws| - 1 && s.counter == t.counter
    ensures got + [s.toMac[0]] ==
            WordBytes(if Respond(t.rows, FinalName(t), Offered(t)) == Unassigned then DUMMY2 else DUMMY)
    ensures Underway(s.(toMac := s.toMac[1..]), [], TheVerdict(t)[4..], Finished(TheId(t)))
    ensures s.rows == Updated(t.rows, FinalName(t), Offered(t))
  {
    ByteArrives(t, s, k, got);
    var s' := s.(toMac := s.toMac[1..]);
    TakeUnderway(s, s', got, TheVerdict(t), Finished(TheId(t)));
    VerdictParts(t.rows, FinalName(t), Offered(t));
    HeadTaken(s', got + [s.toMac[0]], TheVerdict(t), Finished(TheId(t)));
  }

  /** The fourth byte of the verdict. */
  lemma VerdictTaken(t: Talk, s: State, s': State)
    requires Orderly(t) && s.mac.Receiving? && Exchange(t, s, s.mac.k, s.mac.got)
    requires s.toMac != [] && |s.mac.got| == 3 && PlaceOf(t, s.mac.k) == Id && s' == Receive(t.ws, s)
    ensures Inv(t, s')
  {
    VerdictRead(t, s, s.mac.k, s.mac.got);
    ReceiveHeader(t.ws, s, Respond(t.rows, FinalName(t), Offered(t)) == Unassigned);
    NowDecided(t, s.(toMac := s.toMac[1..]), s');
  }

  lemma NowDecided(t: Talk, s: State, r: State)
    requires Orderly(t) && EndPlace(t) == Id && r.mac == Claiming([])
    requires Underway(s, [], TheVerdict(t)[4..], Finished(TheId(t)))
    requires r.pi == s.pi && r.toPi == s.toPi && r.toMac == s.toMac
    requires r.rows == Updated(t.rows, FinalName(t), Offered(t)) && r.counter == NextCounter(t)
    ensures Inv(t, r)
  {
    InvIs(t, r);
  }

  lemma ReceiveKeeps(t: Talk, s: State)
    requires Orderly(t) && Inv(t, s) && CanReceive(s)
    ensures Inv(t, Receive(t.ws, s))
  {
    InvReceiving(t, s);
    var k, got := s.mac.k, s.mac.got;
    ByteArrives(t, s, k, got);
    if |got| < 3 {
      PartOfAnswer(t, s, k, got);
      InvReceiving(t, Receive(t.ws, s));
    } else if PlaceOf(t, k) == Id {
      VerdictTaken(t, s, Receive(t.ws, s));
    } else {
      AnswerTaken(t, s, Receive(t.ws, s));
    }
  }

  lemma ClaimKeeps(t: Talk, s: State)
    requires Orderly(t) && Inv(t, s) && CanClaim(s)
    ensures Inv(t, TakeClaim(s))
  {
    InvIs(t, s);
    var s', got := TakeClaim(s), s.mac.got + [s.toMac[0]];
    InvIs(t, s');
    var rest := TheVerdict(t)[4..];
    VerdictParts(t.rows, FinalName(t), Offered(t));
    TakeUnderway(s, s', s.mac.got, rest, Finished(TheId(t)));
    if |got| == 4 {
      HeadTaken(s', got, rest, Finished(TheId(t)));
    }
  }

  lemma MacMoves(t: Talk, s: State, s': State, k: nat, got: seq<Byte>)
    requires Exchange(t, s, k, got) && s' == s.(mac := s'.mac)
    ensures Exchange(t, s', k, got)
  {
    ExchangeIs(t, s, k, got);
    ExchangeIs(t, s', k, got);
  }

  lemma MacKeepsInv(t: Talk, s: State, s': State)
    requires Orderly(t) && Inv(t, s) && MacStep(t.ws, s, s')
    ensures Inv(t, s')
  {
    if CanSend(t.ws, s) {
      SendKeeps(t, s);
      InvIs(t, s');
    } else if s.mac.Selecting? {
      InvIs(t, s);
      MacMoves(t, s, s', SelectAfter(t.ws), []);
      InvIs(t, s');
    } else if CanReceive(s) {
      ReceiveKeeps(t, s);
    } else {
      ClaimKeeps(t, s);
    }
  }

  lemma PiKeepsExchange(t: Talk, s: State, s': State, k: nat, got: seq<Byte>)
    requires Orderly(t) && Exchange(t, s, k, got) && PiStep(s, s')
    ensures Exchange(t, s', k, got)
  {
    if CanHear(s) {
      HearKeepsExchange(t, s, k, got);
    } else if CanMount(s) {
      MountKeepsExchange(t, s, k, got);
    } else if CanLookUp(s) {
      LookUpKeepsExchange(t, s, k, got);
    } else {
      WriteKeepsExchange(t, s, k, got);
    }
  }

  lemma PiKeepsDecided(t: Talk, s: State, s': State, got: seq<Byte>, rest: seq<Byte>)
    requires Decided(t, s, got, rest) && PiStep(s, s')
    ensures Decided(t, s', got, rest)
  {
    assert CanWrite(s);
    WriteUnderway(s, got, rest, Finished(TheId(t)));
  }

  lemma PiKeepsInv(t: Talk, s: State, s': State)
    requires Orderly(t) && Inv(t, s) && PiStep(s, s')
    ensures Inv(t, s')
  {
    InvIs(t, s);
    InvIs(t, s');
    match s.mac
    case Sending(k) =>
    case Selecting => PiKeepsExchange(t, s, s', SelectAfter(t.ws), []);
    case Receiving(k, got) => PiKeepsExchange(t, s, s', k, got);
    case Claiming(got) => PiKeepsDecided(t, s, s', got, TheVerdict(t)[4..]);
    case Done(c) => PiKeepsDecided(t, s, s', [], DoneScanner.MARKER);
    case GaveUp => PiKeepsExchange(t, s, s', SelectAfter(t.ws), []);
  }

  // ---- reachable states ----

  /** A run of the two processes, in any interleaving. */
  ghost predicate Execution(t: Talk, run: seq<State>) {
    && |run| > 0 && run[0] == Initial(t)
    && forall i :: 0 <= i < |run| - 1 ==> Step(t.ws, run[i], run[i + 1])
  }

  lemma {:induction false} InvHolds(t: Talk, run: seq<State>, i: nat)
    requires Orderly(t) && Execution(t, run) && i < |run|
    ensures Inv(t, run[i])
  {
    if i == 0 {
      InvInitially(t);
    } else {
      InvHolds(t, run, i - 1);
      assert Step(t.ws, run[i - 1], run[i - 1 + 1]);
      if MacStep(t.ws, run[i - 1], run[i]) {
        MacKeepsInv(t, run[i - 1], run[i]);
      } else {
        PiKeepsInv(t, run[i - 1], run[i]);
      }
    }
  }

  /** What the mac's success means. */
  lemma DoneMeans(t: Talk, s: State)
    requires Inv(t, s) && s.mac.Done?
    ensures EndPlace(t) == Id && |t.buffer| == BUFFER_LEN && s.mac.claim == TheId(t)
    ensures Beyond(s.pi) == Finished(TheId(t)) && s.toPi == [] && s.toMac + Pending(s.pi) == DoneScanner.MARKER
    ensures s.rows == Updated(t.rows, FinalName(t), Offered(t)) && s.counter == NextCounter(t)
  {
    InvIs(t, s);
    assert [] + s.toMac + Pending(s.pi) == s.toMac + Pending(s.pi);
  }

  // ---- no deadlock, no endless run ----

  predicate Ended(s: State) {
    s.mac.Done? || s.mac.GaveUp?
  }

  predicate SomeStep(ws: seq<Word>, s: State) {
    || CanSend(ws, s) || s.mac.Selecting? || CanReceive(s) || CanClaim(s)
    || CanHear(s) || CanMount(s) || CanLookUp(s) || CanWrite(s)
  }

  /** Neither side can move. */
  ghost predicate Stuck(ws: seq<Word>, s: State) {
    !exists s' :: Step(ws, s, s')
  }

  lemma SomeStepIs(ws: seq<Word>, s: State)
    ensures SomeStep(ws, s) <==> !Stuck(ws, s)
  {
    if SomeStep(ws, s) {
      var s' :=
        if CanSend(ws, s) then Send(ws, s)
        else if CanSelect(s) then s.(mac := Receiving(SelectAfter(ws), []))
        else if CanTimeOut(s) then s.(mac := GaveUp)
        else if CanReceive(s) then Receive(ws, s)
        else if CanClaim(s) then TakeClaim(s)
        else if CanHear(s) then HearByte(s)
        else if CanMount(s) then Mount(s)
        else if CanLookUp(s) then LookUp(s)
        else Write(s);
      assert Step(ws, s, s');
    }
  }

  /** A message not read in full: the pi has a byte to write or the mac has one to read. */
  lemma MoreToCome(s: State, got: seq<Byte>, message: seq<Byte>, next: Pi)
    requires Underway(s, got, message, next) && |got| < |message|
    ensures CanWrite(s) || s.toMac != []
  {
    assert |message| == |got| + |s.toMac| + |Pending(s.pi)|;
  }

  lemma ExchangeMoves(t: Talk, s: State, k: nat, got: seq<Byte>)
    requires Orderly(t) && Exchange(t, s, k, got) && EndPlace(t) == Id
    ensures CanHear(s) || CanMount(s) || CanLookUp(s) || CanWrite(s) || s.toMac != []
  {
    ExchangeIs(t, s, k, got);
    var r, w := PlaceOf(t, k), t.ws[k];
    if s.toPi != [] {
      HearStep(r, w, 4 - |s.toPi|);
    } else if r == Id {
      VerdictParts(t.rows, FinalName(t), Offered(t));
      if !CanLookUp(s) {
        MoreToCome(s, got, TheVerdict(t), Finished(TheId(t)));
      }
    } else {
      NeverSilent(t.ws, k);
      NextPlace(t, k);
      if !CanMount(s) {
        MoreToCome(s, got, WordBytes(DUMMY), Waiting(React(r, w)));
      }
    }
  }

  /** In step there is no deadlock: until the mac's side returns, one of the two can move. */
  lemma NoDeadlock(t: Talk, s: State)
    requires Orderly(t) && Inv(t, s) && EndPlace(t) == Id && !Ended(s)
    ensures SomeStep(t.ws, s)
  {
    InvIs(t, s);
    match s.mac
    case Sending(k) =>
    case Selecting =>
    case Receiving(k, got) => ExchangeMoves(t, s, k, got);
    case Claiming(got) =>
      VerdictParts(t.rows, FinalName(t), Offered(t));
      MoreToCome(s, got, TheVerdict(t)[4..], Finished(TheId(t)));
  }

  function PiWeight(pi: Pi): nat {
    match pi
    case Writing(out, next) => 2 * |out| + PiWeight(next)
    case Mounting => 9
    case LookingUp(_) => 33
    case _ => 0
  }

  function MacWeight(ws: seq<Word>, mac: Mac): nat {
    match mac
    case Sending(k) => 1000 * Left(ws, k) + 900
    case Selecting => 1000 * Left(ws, SelectAfter(ws)) + 2
    case Receiving(k, _) => 1000 * Left(ws, k) + 1
    case _ => 0
  }

  function Left(ws: seq<Word>, k: nat): nat {
    if k < |ws| then |ws| - k else 0
  }

  /** An upper bound on the number of steps still to come. */
  function Weight(ws: seq<Word>, s: State): nat {
    MacWeight(ws, s.mac) + 40 * |s.toPi| + PiWeight(s.pi) + |s.toMac|
  }

  lemma HearWeight(pi: Pi, b: Byte)
    requires Hears(pi)
    ensures PiWeight(Hear(pi, b)) <= 33
  {
  }

  lemma LookUpWeight(s: State)
    requires CanLookUp(s)
    ensures PiWeight(LookUp(s).pi) == 32
  {
    var name, offered := Text(s.buffer), s.pi.offered;
    VerdictParts(s.rows, name, offered);
    var next := Finished(ClaimedId(s.rows, name, offered));
    assert PiWeight(next) == 0;
    assert LookUp(s).pi == Writing(Verdict(s.rows, name, offered), next);
  }

  lemma MacRunsOut(ws: seq<Word>, s: State, s': State)
    requires MacStep(ws, s, s')
    ensures Weight(ws, s') < Weight(ws, s)
  {
  }

  lemma PiRunsOut(ws: seq<Word>, s: State, s': State)
    requires PiStep(s, s')
    ensures Weight(ws, s') < Weight(ws, s)
  {
    if CanHear(s) {
      HearWeight(s.pi, s.toPi[0]);
    } else if CanLookUp(s) {
      LookUpWeight(s);
    }
  }

  lemma StepsRunOut(ws: seq<Word>, s: State, s': State)
    requires Step(ws, s, s')
    ensures Weight(ws, s') < Weight(ws, s)
  {
    if MacStep(ws, s, s') {
      MacRunsOut(ws, s, s');
    } else {
      PiRunsOut(ws, s, s');
    }
  }

  /** Every run is finite: no schedule keeps the two sides busy for ever. */
  lemma {:induction false} RunsAreBounded(t: Talk, run: seq<State>, i: nat)
    requires Execution(t, run) && i < |run|
    ensures i + Weight(t.ws, run[i]) <= Weight(t.ws, Initial(t))
  {
    if i > 0 {
      RunsAreBounded(t, run, i - 1);
      assert Step(t.ws, run[i - 1], run[i - 1 + 1]);
      StepsRunOut(t.ws, run[i - 1], run[i]);
    }
  }
}
