/** The handshake of one boot: when it completes, and what both sides then agree on. */
module HandshakeTheorems {
  import opened Bytes
  import opened NameFraming
  import opened IdTable
  import opened HandshakeWords
  import opened Handshake
  import opened HandshakeSafety

  function TalkOf(p: Setup): Talk {
    Talk(Script(p), p.counter, p.buffer, p.rows)
  }

  lemma OfferedByte(counter: Word)
    ensures ByteOf(IdWord(counter), 0) == counter % 0x100
  {
  }

  lemma IdAtEnd(p: Setup, k: nat)
    requires Proper(p) && k < |Script(p)| && PlaceAt(Script(p), k) == Id
    ensures k == |Script(p)| - 1 && ByteOf(Script(p)[k], 0) == p.counter % 0x100
  {
    IdOnlyLast(p, k);
    OfferedByte(p.counter);
  }

  lemma OrderlyWhen(t: Talk)
    requires |t.ws| >= 5 && |t.buffer| == BUFFER_LEN
    requires forall k: nat {:trigger Show(k)} :: Show(k) && k < |t.ws| && PlaceAt(t.ws, k) == Id ==>
                                                   k == |t.ws| - 1 && ByteOf(t.ws[k], 0) == t.counter % 0x100
    ensures Orderly(t)
  {
  }

  lemma ScriptIsOrderly(p: Setup)
    requires Proper(p)
    ensures Orderly(TalkOf(p))
    ensures EndPlace(TalkOf(p)) == Id <==> FramedLength(|p.name|)
  {
    var t := TalkOf(p);
    forall k: nat {:trigger Show(k)} | k < |t.ws| && PlaceAt(t.ws, k) == Id
      ensures k == |t.ws| - 1 && ByteOf(t.ws[k], 0) == t.counter % 0x100
    {
      IdAtEnd(p, k);
    }
    OrderlyWhen(t);
    InStep(p);
  }

  // ---- agreement ----

  /** The answer `id_for_dfs` gives when the handshake is in step. */
  function Outcome(p: Setup): Answer {
    Respond(p.rows, p.name, p.counter % 0x100)
  }

  /** The id the disk has then: the recorded one, cut to a byte, or the one offered. */
  function AgreedId(p: Setup): Byte {
    ClaimedId(p.rows, p.name, p.counter % 0x100)
  }

  /** The table and the counter as they are to be afterwards. */
  ghost predicate Settled(p: Setup, s: State) {
    && s.rows == Updated(p.rows, p.name, p.counter % 0x100)
    && s.counter == if Outcome(p) == Unassigned then (p.counter + 1) % WRAP else p.counter
  }

  /** In step, what the pi looks up is the name, and so its id is the one to agree on. */
  lemma InStepId(p: Setup)
    requires Proper(p) && EndPlace(TalkOf(p)) == Id && |TalkOf(p).buffer| == BUFFER_LEN
    ensures FinalName(TalkOf(p)) == p.name && TheId(TalkOf(p)) == AgreedId(p)
  {
    NameInBuffer(p);
  }

  lemma InStepSettled(p: Setup, s: State)
    requires Proper(p) && |TalkOf(p).buffer| == BUFFER_LEN && FinalName(TalkOf(p)) == p.name
    requires s.rows == Updated(TalkOf(p).rows, FinalName(TalkOf(p)), Offered(TalkOf(p)))
    requires s.counter == NextCounter(TalkOf(p))
    ensures Settled(p, s)
  {
  }

  /** Handshake agreement. When the mac's side returns success, its claimed id is the pi's id; the
      table and the counter are settled; and of the bytes the pi sends, exactly its end marker is
      left for the mac to read. */
  lemma Agreement(p: Setup, run: seq<State>, i: nat)
    requires Proper(p) && Execution(TalkOf(p), run) && i < |run| && run[i].mac.Done?
    ensures FramedLength(|p.name|)
    ensures run[i].mac.claim == AgreedId(p) && Beyond(run[i].pi) == Finished(AgreedId(p))
    ensures Settled(p, run[i])
    ensures run[i].toPi == [] && run[i].toMac + Pending(run[i].pi) == DoneScanner.MARKER
  {
    var t, s := TalkOf(p), run[i];
    ScriptIsOrderly(p);
    InvHolds(t, run, i);
    DoneMeans(t, s);
    InStepId(p);
    InStepSettled(p, s);
  }

  /** The agreed id is the one the disk's table now holds under the name, given room or a row; and the
      counter moves exactly when a row was written, or the table was full. */
  lemma TableAgrees(p: Setup, s: State)
    requires Proper(p) && Settled(p, s)
    ensures var k := Find(s.rows, p.name);
            if |p.rows| < ENTRIES || Outcome(p).Recorded?
            then k < |s.rows| && s.rows[k].id % 0x100 == AgreedId(p)
            else k == |s.rows| && s.rows == p.rows && AgreedId(p) == p.counter % 0x100
    ensures s.counter != p.counter <==> s.rows != p.rows || (|p.rows| == ENTRIES && !Outcome(p).Recorded?)
  {
    var offered: int := p.counter % 0x100;
    assert (p.counter + 1) % WRAP != p.counter;
    if Outcome(p).Recorded? {
      RecordedStays(p.rows, p.name, offered, p.name, offered);
    } else {
      AssignedOnce(p.rows, p.name, offered, offered);
      if |p.rows| < ENTRIES {
        assert Respond(s.rows, p.name, offered) == Recorded(offered % 0x1_0000);
      }
    }
  }

  // ---- completion ----

  /** Without the time-out, too, one of the two can move. */
  lemma NextMove(t: Talk, s: State) returns (s': State)
    requires Orderly(t) && Inv(t, s) && EndPlace(t) == Id && !Ended(s)
    ensures Step(t.ws, s, s') && !s'.mac.GaveUp?
  {
    NoDeadlock(t, s);
    if s.mac.Selecting? && s.toMac == [] {
      InvIs(t, s);
      ExchangeMoves(t, s, SelectAfter(t.ws), []);
    }
    s' :=
      if CanSend(t.ws, s) then Send(t.ws, s)
      else if CanSelect(s) then s.(mac := Receiving(SelectAfter(t.ws), []))
      else if CanReceive(s) then Receive(t.ws, s)
      else if CanClaim(s) then TakeClaim(s)
      else if CanHear(s) then HearByte(s)
      else if CanMount(s) then Mount(s)
      else if CanLookUp(s) then LookUp(s)
      else Write(s);
  }

  lemma {:induction false} Completes(t: Talk, run: seq<State>) returns (full: seq<State>)
    requires Orderly(t) && EndPlace(t) == Id && Execution(t, run) && !run[|run| - 1].mac.GaveUp?
    ensures Execution(t, full) && full[|full| - 1].mac.Done?
    decreases Weight(t.ws, run[|run| - 1])
  {
    var s := run[|run| - 1];
    if s.mac.Done? {
      full := run;
    } else {
      InvHolds(t, run, |run| - 1);
      var s' := NextMove(t, s);
      StepsRunOut(t.ws, s, s');
      var longer := run + [s'];
      forall i | 0 <= i < |longer| - 1
        ensures Step(t.ws, longer[i], longer[i + 1])
      {
        if i < |run| - 1 {
          assert Step(t.ws, run[i], run[i + 1]);
        }
      }
      full := Completes(t, longer);
    }
  }

  ghost predicate Succeeds(t: Talk, run: seq<State>) {
    Execution(t, run) && run[|run| - 1].mac.Done?
  }

  /** The handshake can succeed if and only if the name has a framed length. */
  lemma SucceedsExactlyWhenFramed(p: Setup)
    requires Proper(p)
    ensures (exists run :: Succeeds(TalkOf(p), run)) <==> FramedLength(|p.name|)
  {
    var t := TalkOf(p);
    ScriptIsOrderly(p);
    if FramedLength(|p.name|) {
      assert Execution(t, [Initial(t)]);
      var run := Completes(t, [Initial(t)]);
      assert Succeeds(t, run);
    } else if exists run :: Succeeds(t, run) {
      var run :| Succeeds(t, run);
      Agreement(p, run, |run| - 1);
    }
  }

  /** For a framed name every run that cannot go on has ended: the mac has its answer, or gave up in
      `select` before it asked for an id. */
  lemma StopsOnlyAtTheEnd(p: Setup, run: seq<State>)
    requires Proper(p) && FramedLength(|p.name|) && Execution(TalkOf(p), run)
    requires Stuck(Script(p), run[|run| - 1])
    ensures Ended(run[|run| - 1])
  {
    var t, s := TalkOf(p), run[|run| - 1];
    ScriptIsOrderly(p);
    InvHolds(t, run, |run| - 1);
    if !Ended(s) {
      NoDeadlock(t, s);
      SomeStepIs(t.ws, s);
    }
  }

  /** The mac waits in `select` while the pi mounts its card: before it asks for an id. */
  lemma WaitsForMount(p: Setup)
    requires Proper(p)
    ensures var ws := Script(p);
            && SelectAfter(ws) + 3 == |ws| && ws[SelectAfter(ws)] == CONFIG_INIT
            && ws[SelectAfter(ws) + 1] == REQUEST_ID && PlaceAt(ws, SelectAfter(ws)) != Id
  {
    var ws := Script(p);
    if PlaceAt(ws, SelectAfter(ws)) == Id {
      IdAtEnd(p, SelectAfter(ws));
    }
  }

  /** A handshake that has not succeeded changed neither the table nor the counter, unless the mac
      already waits for the answer to its id. */
  lemma NothingLost(p: Setup, run: seq<State>, i: nat)
    requires Proper(p) && Execution(TalkOf(p), run) && i < |run|
    requires !FramedLength(|p.name|) || run[i].mac.GaveUp? || run[i].mac.Sending? || run[i].mac.Selecting?
    ensures run[i].rows == p.rows && run[i].counter == p.counter
  {
    var t, s := TalkOf(p), run[i];
    ScriptIsOrderly(p);
    InvHolds(t, run, i);
    InvIs(t, s);
    match s.mac
    case Sending(k) =>
    case Selecting => RowsKept(t, s, SelectAfter(t.ws), []);
    case Receiving(k, got) => RowsKept(t, s, k, got);
    case Claiming(got) =>
    case Done(c) =>
    case GaveUp => RowsKept(t, s, SelectAfter(t.ws), []);
  }

  lemma RowsKept(t: Talk, s: State, k: nat, got: seq<Byte>)
    requires Orderly(t) && Exchange(t, s, k, got) && (k != |t.ws| - 1 || EndPlace(t) != Id)
    ensures s.rows == t.rows && s.counter == t.counter
  {
    ExchangeIs(t, s, k, got);
    if PlaceOf(t, k) == Id {
      IdIsLast(t, k);
    }
  }

  /** What is on its way to the pi is the rest of word `k`, of which the pi has read the part before;
      nothing is on its way back. */
  ghost predicate Carries(p: Setup, s: State, k: nat) {
    && k < |Script(p)| && 1 <= |s.toPi| <= 4 && s.toMac == []
    && var w, j := Script(p)[k], 4 - |s.toPi|;
       s.toPi == WordBytes(w)[j..] && s.pi == Mid(PlaceAt(Script(p), k), w, j)
  }

  /** The channels stay aligned with words. */
  lemma ChannelsAligned(p: Setup, run: seq<State>, i: nat) returns (k: nat)
    requires Proper(p) && Execution(TalkOf(p), run) && i < |run| && run[i].toPi != []
    ensures Carries(p, run[i], k)
  {
    var t, s := TalkOf(p), run[i];
    ScriptIsOrderly(p);
    InvHolds(t, run, i);
    var got;
    k, got := CurrentWord(t, s);
    ExchangeIs(t, s, k, got);
  }

  /** While bytes are on their way to the pi the mac waits for an answer. */
  lemma CurrentWord(t: Talk, s: State) returns (k: nat, got: seq<Byte>)
    requires Orderly(t) && Inv(t, s) && s.toPi != []
    ensures Exchange(t, s, k, got)
  {
    InvIs(t, s);
    k, got := SelectAfter(t.ws), [];
    if s.mac.Receiving? {
      k, got := s.mac.k, s.mac.got;
    }
  }

  // ---- the look-up ----

  /** The pi is past its look-up: it writes its verdict or has returned. */
  predicate LookedUp(s: State) {
    Beyond(s.pi).Finished?
  }

  /** Step `j` of the run is the look-up. */
  ghost predicate LooksUpAt(run: seq<State>, j: nat) {
    j + 1 < |run| && CanLookUp(run[j]) && run[j + 1] == LookUp(run[j])
  }

  /** When it has written its answer, the pi does not write on. */
  predicate WritesOnce(s: State) {
    s.pi.Writing? ==> !s.pi.next.Writing?
  }

  lemma StepLooksUp(ws: seq<Word>, s: State, s': State)
    requires Step(ws, s, s') && WritesOnce(s)
    ensures WritesOnce(s') && (LookedUp(s) ==> LookedUp(s'))
    ensures !LookedUp(s) ==> (LookedUp(s') <==> CanLookUp(s) && s' == LookUp(s))
    ensures CanLookUp(s) ==> !LookedUp(s)
  {
    if PiStep(s, s') && CanHear(s) {
      HearNeverEnds(s.pi, s.toPi[0]);
    }
  }

  lemma HearNeverEnds(pi: Pi, b: Byte)
    requires Hears(pi)
    ensures !Beyond(Hear(pi, b)).Finished? && (Hear(pi, b).Writing? ==> !Hear(pi, b).next.Writing?)
  {
  }

  /** The pi is past its look-up exactly when one of the steps so far was the look-up. */
  lemma {:induction false} LookedUpOnce(t: Talk, run: seq<State>, i: nat)
    requires Execution(t, run) && i < |run|
    ensures LookedUp(run[i]) <==> exists j: nat :: j < i && LooksUpAt(run, j)
    ensures WritesOnce(run[i])
  {
    if i == 0 {
      NotAtFirst(t);
    } else {
      LookedUpOnce(t, run, i - 1);
      StepOfRun(t, run, i);
    }
  }

  lemma NotAtFirst(t: Talk)
    ensures !LookedUp(Initial(t)) && WritesOnce(Initial(t))
  {
  }

  lemma StepOfRun(t: Talk, run: seq<State>, i: nat)
    requires Execution(t, run) && 0 < i < |run| && WritesOnce(run[i - 1])
    requires LookedUp(run[i - 1]) <==> exists j: nat :: j < i - 1 && LooksUpAt(run, j)
    ensures LookedUp(run[i]) <==> exists j: nat :: j < i && LooksUpAt(run, j)
    ensures WritesOnce(run[i])
  {
    assert Step(t.ws, run[i - 1], run[i - 1 + 1]);
    LookedUpNext(t.ws, run, i);
  }

  lemma LookedUpNext(ws: seq<Word>, run: seq<State>, i: nat)
    requires 0 < i < |run| && Step(ws, run[i - 1], run[i]) && WritesOnce(run[i - 1])
    requires LookedUp(run[i - 1]) <==> exists j: nat :: j < i - 1 && LooksUpAt(run, j)
    ensures LookedUp(run[i]) <==> exists j: nat :: j < i && LooksUpAt(run, j)
    ensures WritesOnce(run[i])
  {
    var s, s' := run[i - 1], run[i];
    StepLooksUp(ws, s, s');
    assert LooksUpAt(run, i - 1) <==> CanLookUp(s) && s' == LookUp(s);
    if j: nat :| j < i && LooksUpAt(run, j) {
      assert j < i - 1 || LooksUpAt(run, i - 1);
    }
  }

  /** The table is updated by the look-up and by nothing else, whatever the mac does: a panic before it
      finds the old table, one after it the updated one. It comes only for names of a framed length. */
  lemma TableFollowsLookUp(p: Setup, run: seq<State>, i: nat)
    requires Proper(p) && Execution(TalkOf(p), run) && i < |run|
    ensures LookedUp(run[i]) ==> FramedLength(|p.name|) && run[i].rows == Updated(p.rows, p.name, p.counter % 0x100)
    ensures !LookedUp(run[i]) ==> run[i].rows == p.rows
  {
    var t, s := TalkOf(p), run[i];
    ScriptIsOrderly(p);
    InvHolds(t, run, i);
    LookUpShows(t, s);
    if LookedUp(s) {
      InStepId(p);
    }
  }

  lemma LookUpShows(t: Talk, s: State)
    requires Orderly(t) && Inv(t, s)
    ensures if LookedUp(s) then EndPlace(t) == Id && s.rows == Updated(t.rows, FinalName(t), Offered(t))
            else s.rows == t.rows
  {
    InvIs(t, s);
    match s.mac
    case Sending(k) =>
    case Selecting => ExchangeLookUp(t, s, SelectAfter(t.ws), []);
    case Receiving(k, got) => ExchangeLookUp(t, s, k, got);
    case Claiming(got) =>
    case Done(c) =>
    case GaveUp => ExchangeLookUp(t, s, SelectAfter(t.ws), []);
  }

  lemma ExchangeLookUp(t: Talk, s: State, k: nat, got: seq<Byte>)
    requires Orderly(t) && Exchange(t, s, k, got)
    ensures if LookedUp(s) then EndPlace(t) == Id && s.rows == Updated(t.rows, FinalName(t), Offered(t))
            else s.rows == t.rows
  {
    ExchangeIs(t, s, k, got);
    if PlaceOf(t, k) == Id {
      IdIsLast(t, k);
    }
  }
}
