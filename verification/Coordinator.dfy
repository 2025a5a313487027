/** The coordinator program (mac-src/pi-install.c): read the counter of a filesystem, boot every
    connected disk, write the counter back if it moved. Each session is one list of events of the
    registry, and each boot in it is one handshake. */
module Coordinator {
  import opened Bytes
  import opened CString
  import opened NameFraming
  import opened IdTable
  import opened Registry
  import Card
  import DiskIdentity
  import HandshakeWords
  import Handshake
  import HandshakeSafety
  import HandshakeTheorems
  import Volume

  function BootEvents(pies: seq<nat>): (es: seq<Event>)
    ensures |es| == |pies| && forall i :: 0 <= i < |pies| ==> es[i] == Event.Boot(pies[i])
  {
    seq(|pies|, i requires 0 <= i < |pies| => Event.Boot(pies[i]))
  }

  lemma {:induction false} LastEvent(w: World, es: seq<Event>, e: Event)
    ensures ApplyAll(w, es + [e]) == Apply(ApplyAll(w, es), e)
    decreases |es|
  {
    if es == [] {
      assert es + [e] == [e];
      assert ApplyAll(w, [e]) == ApplyAll(Apply(w, e), []);
    } else {
      assert (es + [e])[0] == es[0] && (es + [e])[1..] == es[1..] + [e];
      LastEvent(Apply(w, es[0]), es[1..], e);
    }
  }

  /** The world `v` is `w` after the boots of the first `n` disks. */
  ghost predicate Reached(w: World, pies: seq<nat>, n: nat, v: World)
    requires n <= |pies|
  {
    forall k: nat {:trigger Show(k)} :: Show(k) ==> v == ApplyAll(w, BootEvents(pies[..n]))
  }

  lemma ReachedIs(w: World, pies: seq<nat>, n: nat, v: World)
    requires n <= |pies|
    ensures Reached(w, pies, n, v) <==> v == ApplyAll(w, BootEvents(pies[..n]))
  {
    assert Show(0);
  }

  lemma ReachedFirst(w: World, pies: seq<nat>)
    ensures Reached(w, pies, 0, w)
  {
    assert BootEvents(pies[..0]) == [];
  }

  lemma ReachedNext(w: World, pies: seq<nat>, n: nat, v: World)
    requires n < |pies| && Reached(w, pies, n, v)
    ensures Reached(w, pies, n + 1, Apply(v, Event.Boot(pies[n])))
  {
    ReachedIs(w, pies, n, v);
    LastEvent(w, BootEvents(pies[..n]), Event.Boot(pies[n]));
    assert BootEvents(pies[..n + 1]) == BootEvents(pies[..n]) + [Event.Boot(pies[n])];
  }

  /** What comes of one handshake: it completes, it times out in `select`, or the line breaks and the
      mac panics, before or after the pi has looked its name up. */
  datatype Fate = Answers | TimesOut | Panics(lookedUp: bool)

  /** How the boot loop ends: all disks booted, one timed out, or a panic. */
  datatype Ending = Finished | GivenUp | Panicked

  /** A pi gets as far as looking a name up only if the name has a framed length (see
      HandshakeTheorems.SucceedsExactlyWhenFramed and NothingLost). */
  predicate Possible(name: seq<Byte>, fate: Fate) {
    fate.Answers? || (fate.Panics? && fate.lookedUp) ==> FramedLength(|name|)
  }

  function LastEventOf(fate: Fate, a: nat): Event {
    if fate.Panics? && fate.lookedUp then Event.PanicAt(a) else Event.Panic
  }

  /** The first `n` disks answered, and the next one, if any, decided how the loop ended. */
  ghost predicate Ends(fates: seq<Fate>, n: nat, end: Ending) {
    && n <= |fates| && (forall i :: 0 <= i < n ==> fates[i].Answers?)
    && match end
       case Finished => n == |fates|
       case GivenUp => n < |fates| && fates[n].TimesOut?
       case Panicked => n < |fates| && fates[n].Panics?
  }

  /** The registry's events of one session. */
  function SessionEvents(name: seq<Byte>, pies: seq<nat>, fates: seq<Fate>, n: nat, end: Ending): seq<Event>
    requires |fates| == |pies| && n <= |pies| && (end.Panicked? ==> n < |pies|)
  {
    [Event.Open(name)] + BootEvents(pies[..n]) + [if end.Panicked? then LastEventOf(fates[n], pies[n]) else Event.Close]
  }

  /** A session opens, boots, and ends. */
  lemma SessionSteps(w: World, name: seq<Byte>, pies: seq<nat>, fates: seq<Fate>, n: nat, end: Ending)
    requires |fates| == |pies| && n <= |pies| && (end.Panicked? ==> n < |pies|)
    ensures var booted := ApplyAll(Apply(w, Event.Open(name)), BootEvents(pies[..n]));
            ApplyAll(w, SessionEvents(name, pies, fates, n, end)) ==
            Apply(booted, if end.Panicked? then LastEventOf(fates[n], pies[n]) else Event.Close)
  {
    FirstEvent(w, Event.Open(name), BootEvents(pies[..n]));
    LastEvent(w, [Event.Open(name)] + BootEvents(pies[..n]),
              if end.Panicked? then LastEventOf(fates[n], pies[n]) else Event.Close);
  }

  /** The registry after opening a session and booting the first `n` disks. */
  function AfterBoots(w: World, name: seq<Byte>, pies: seq<nat>, n: nat): World
    requires n <= |pies|
  {
    ApplyAll(Apply(w, Event.Open(name)), BootEvents(pies[..n]))
  }

  /** The table has no row that `strncmp` takes for the name, and room for one more. */
  predicate TakesRow(rows: seq<Row>, name: seq<Byte>) {
    |rows| < 16 && forall i :: 0 <= i < |rows| ==> !(rows[i].name <= name) && !(name <= rows[i].name)
  }

  /** What a session leaves. If it ends by a return, the filesystem's file holds the counter the boots
      came to. If it ends by a panic, the file holds what it held before; and the disk whose handshake
      broke has got the id it was offered if its pi looked the name up and had to give it a row, and is
      as it was otherwise. */
  ghost predicate Leaves(w: World, w': World, name: seq<Byte>, pies: seq<nat>, fates: seq<Fate>, n: nat, end: Ending)
    requires |fates| == |pies| && n <= |pies| && (end.Panicked? ==> n < |pies|)
  {
    var v := AfterBoots(w, name, pies, n);
    && v.session.Some? && w'.session.None?
    && (forall m :: m != name ==> Durable(w', m) == Durable(w, m))
    && if end.Panicked? then
         var a := pies[n];
         && Durable(w', name) == Durable(w, name)
         && (forall b: nat :: b != a ==> Disk(w', b) == Disk(v, b))
         && Disk(w', a) == if fates[n] == Panics(true) && TakesRow(Disk(v, a), name)
                           then Disk(v, a) + [Row(name, v.session.value.counter % 0x100)]
                           else Disk(v, a)
       else
         Durable(w', name) == v.session.value.counter && forall b: nat :: Disk(w', b) == Disk(v, b)
  }

  /** The boots of a session leave the files alone; the counter follows them in memory, and the session
      is dirty once it has moved. */
  lemma {:induction false} BootsKeepFiles(w: World, pies: seq<nat>, n: nat)
    requires w.session.Some? && n <= |pies|
    requires w.session.value.dirty || w.session.value.counter == Durable(w, w.session.value.name)
    ensures var v := ApplyAll(w, BootEvents(pies[..n]));
            && v.durable == w.durable && v.session.Some? && v.session.value.name == w.session.value.name
            && (v.session.value.dirty || v.session.value.counter == Durable(v, v.session.value.name))
  {
    if n == 0 {
      ReachedFirst(w, pies);
      ReachedIs(w, pies, 0, w);
    } else {
      BootsKeepFiles(w, pies, n - 1);
      var v := ApplyAll(w, BootEvents(pies[..n - 1]));
      ReachedIs(w, pies, n - 1, v);
      ReachedNext(w, pies, n - 1, v);
      ReachedIs(w, pies, n, Apply(v, Event.Boot(pies[n - 1])));
    }
  }

  lemma TakesRowIs(rows: seq<Row>, name: seq<Byte>, offered: Byte)
    requires |name| < NAME_LEN
    ensures Updated(rows, name, offered) == if TakesRow(rows, name) then rows + [Row(name, offered)] else rows
  {
    WritesRow(rows, name, offered);
    if TakesRow(rows, name) {
      FindIs(rows, name, |rows|);
    }
  }

  lemma SessionLeaves(w: World, name: seq<Byte>, pies: seq<nat>, fates: seq<Fate>, n: nat, end: Ending)
    requires w.session.None? && |fates| == |pies| && n <= |pies| && (end.Panicked? ==> n < |pies|)
    requires end.Panicked? ==> Possible(name, fates[n])
    requires Ends(fates, n, end)
    ensures Leaves(w, ApplyAll(w, SessionEvents(name, pies, fates, n, end)), name, pies, fates, n, end)
  {
    var v := AfterBoots(w, name, pies, n);
    OpenLeaves(w, name);
    BootsKeepFiles(Apply(w, Event.Open(name)), pies, n);
    SessionSteps(w, name, pies, fates, n, end);
    if !end.Panicked? {
      CloseLeaves(v, name);
    } else if fates[n].lookedUp {
      PanicAtLeaves(v, name, pies[n]);
    }
  }

  lemma OpenLeaves(w: World, name: seq<Byte>)
    requires w.session.None?
    ensures var v := Apply(w, Event.Open(name));
            && v.session == Some(Session(name, Durable(w, name), false, false))
            && forall m :: Durable(v, m) == Durable(w, m)
  {
  }

  lemma CloseLeaves(v: World, name: seq<Byte>)
    requires v.session.Some? && v.session.value.name == name
    requires v.session.value.dirty || v.session.value.counter == Durable(v, name)
    ensures var v' := Apply(v, Event.Close);
            && v'.session.None? && (forall b: nat :: Disk(v', b) == Disk(v, b))
            && Durable(v', name) == v.session.value.counter && forall m :: m != name ==> Durable(v', m) == Durable(v, m)
  {
  }

  lemma PanicAtLeaves(v: World, name: seq<Byte>, a: nat)
    requires v.session.Some? && v.session.value.name == name && |name| < NAME_LEN
    ensures var v' := Apply(v, PanicAt(a));
            && v'.session.None? && v'.durable == v.durable && (forall b: nat :: b != a ==> Disk(v', b) == Disk(v, b))
            && Disk(v', a) == if TakesRow(Disk(v, a), name)
                              then Disk(v, a) + [Row(name, v.session.value.counter % 0x100)]
                              else Disk(v, a)
  {
    TakesRowIs(Disk(v, a), name, Offer(v.session.value));
  }

  class Installation {
    var files: map<seq<Byte>, Word>
    var disks: map<nat, seq<Row>>

    constructor ()
      ensures Idle() == EMPTY
    {
      files, disks := map[], map[];
    }

    /** The registry between sessions. */
    ghost function Idle(): World
      reads this
    {
      World(files, disks, None)
    }

    /** The registry while a session runs. */
    ghost function Busy(s: Session): World
      reads this
    {
      World(files, disks, Some(s))
    }

    /** `init_dfs`: a file that does not exist yet, or is empty, is created with zeros. */
    method InitDfs(name: seq<Byte>) returns (counter: Word)
      modifies this
      ensures Busy(Session(name, counter, false, false)) == Apply(old(Idle()), Open(name))
    {
      if name !in files {
        files := files[name := 0];
      }
      counter := files[name];
      assert files == old(files)[name := counter];
    }

    /** `dfs_boot`, as far as its outcome goes: the pi looks the name up and the counter follows; or it
        fails in `select` before anything happens; or the mac panics, and the process is gone. */
    method DfsBoot(a: nat, name: seq<Byte>, counter: Word, fate: Fate, ghost s: Session)
      returns (counter': Word, ghost s': Session)
      requires s.name == name && s.counter == counter && Possible(name, fate)
      modifies this
      ensures counter' == s'.counter
      ensures fate.Answers? ==> Busy(s') == Apply(old(Busy(s)), Boot(a))
      ensures fate.TimesOut? ==> s' == s && Busy(s') == old(Busy(s))
      ensures fate.Panics? ==> Idle() == Apply(old(Busy(s)), if fate.lookedUp then PanicAt(a) else Panic)
    {
      counter', s' := counter, s;
      if fate.TimesOut? || (fate.Panics? && !fate.lookedUp) {
        return;
      }
      var rows, offered := if a in disks then disks[a] else [], counter % 0x100;
      s' := Booted(s, rows);
      if Respond(rows, name, offered) == Unassigned {
        counter' := (counter + 1) % WRAP;
      }
      disks := disks[a := Updated(rows, name, offered)];
    }

    /** `boot_connected_pies`: boot the disks in order until one fails or the mac panics. */
    method BootConnectedPies(name: seq<Byte>, pies: seq<nat>, fates: seq<Fate>, firstFreeId: Word)
      returns (end: Ending, counter: Word, dirty: bool, n: nat, ghost s: Session, ghost booted: World)
      requires |fates| == |pies| && forall i :: 0 <= i < |pies| ==> Possible(name, fates[i])
      modifies this
      ensures Ends(fates, n, end)
      ensures s.name == name && s.counter == counter && s.dirty == dirty
      ensures Reached(old(Busy(Session(name, firstFreeId, false, false))), pies, n, booted)
      ensures if end.Panicked? then Idle() == Apply(booted, LastEventOf(fates[n], pies[n])) else Busy(s) == booted
    {
      end, counter, dirty, n, s := Finished, firstFreeId, false, 0, Session(name, firstFreeId, false, false);
      booted := Busy(s);
      ghost var w := booted;
      ReachedFirst(w, pies);
      while n < |pies|
        invariant n <= |pies| && forall j :: 0 <= j < n ==> fates[j].Answers?
        invariant s.name == name && s.counter == counter && s.dirty == dirty
        invariant Reached(w, pies, n, booted) && booted == Busy(s)
      {
        var saved := counter;
        ghost var t;
        counter, t := DfsBoot(pies[n], name, counter, fates[n], s);
        if !fates[n].Answers? {
          return if fates[n].TimesOut? then GivenUp else Panicked, saved, dirty, n, s, booted;
        }
        s := t;
        if saved != counter {
          dirty := true;
        }
        ReachedNext(w, pies, n, booted);
        booted := Busy(s);
        n := n + 1;
      }
    }

    /** `main`: one session. */
    method Install(name: seq<Byte>, pies: seq<nat>, fates: seq<Fate>) returns (end: Ending, n: nat)
      requires Plain(name) && name != []
      requires |fates| == |pies| && forall i :: 0 <= i < |pies| ==> Possible(name, fates[i])
      modifies this
      ensures Ends(fates, n, end)
      ensures Idle() == ApplyAll(old(Idle()), SessionEvents(name, pies, fates, n, end))
      ensures Leaves(old(Idle()), Idle(), name, pies, fates, n, end)
      ensures !FramedLength(|name|) ==> n == 0
    {
      ghost var w := Idle();
      var first := InitDfs(name);
      var counter, dirty;
      ghost var s, booted;
      end, counter, dirty, n, s, booted := BootConnectedPies(name, pies, fates, first);
      ReachedIs(Apply(w, Open(name)), pies, n, booted);
      SessionSteps(w, name, pies, fates, n, end);
      SessionLeaves(w, name, pies, fates, n, end);
      if !end.Panicked? && dirty {
        files := files[name := counter];
      }
      if n > 0 {
        assert fates[0].Answers? && Possible(name, fates[0]);
      }
    }
  }

  // ---- a boot is a handshake ----

  /** The boot of disk `a` in world `w`, as a handshake; `buffer` is what the pi's name buffer happens
      to hold. */
  function SetupOf(w: World, a: nat, buffer: seq<Byte>): HandshakeWords.Setup
    requires w.session.Some?
  {
    HandshakeWords.Setup(w.session.value.name, buffer, Disk(w, a), w.session.value.counter)
  }

  /** A handshake that completes has the effect of the event Boot, on the disk and on the counter. */
  lemma HandshakeIsBoot(w: World, a: nat, buffer: seq<Byte>, run: seq<Handshake.State>, i: nat)
    requires w.session.Some? && HandshakeWords.Proper(SetupOf(w, a, buffer))
    requires HandshakeSafety.Execution(HandshakeTheorems.TalkOf(SetupOf(w, a, buffer)), run)
    requires i < |run| && run[i].mac.Done?
    ensures Disk(Apply(w, Boot(a)), a) == run[i].rows
    ensures Apply(w, Boot(a)).session.value.counter == run[i].counter
  {
    HandshakeTheorems.Agreement(SetupOf(w, a, buffer), run, i);
  }

  /** A panic in the middle of one leaves the disk as the event PanicAt does if the pi was past its
      look-up, and as the event Panic does if it was not; and it can be past its look-up only under a
      name of a framed length. */
  lemma BrokenHandshake(w: World, a: nat, buffer: seq<Byte>, run: seq<Handshake.State>, i: nat)
    requires w.session.Some? && HandshakeWords.Proper(SetupOf(w, a, buffer))
    requires HandshakeSafety.Execution(HandshakeTheorems.TalkOf(SetupOf(w, a, buffer)), run) && i < |run|
    ensures run[i].rows == Disk(Apply(w, if HandshakeTheorems.LookedUp(run[i]) then PanicAt(a) else Panic), a)
    ensures Possible(w.session.value.name, Panics(HandshakeTheorems.LookedUp(run[i])))
  {
    HandshakeTheorems.TableFollowsLookUp(SetupOf(w, a, buffer), run, i);
  }

  /** A handshake that times out changes neither. */
  lemma TimeOutIsNothing(w: World, a: nat, buffer: seq<Byte>, run: seq<Handshake.State>, i: nat)
    requires w.session.Some? && HandshakeWords.Proper(SetupOf(w, a, buffer))
    requires HandshakeSafety.Execution(HandshakeTheorems.TalkOf(SetupOf(w, a, buffer)), run)
    requires i < |run| && run[i].mac.GaveUp?
    ensures run[i].rows == Disk(w, a) && run[i].counter == w.session.value.counter
  {
    HandshakeTheorems.NothingLost(SetupOf(w, a, buffer), run, i);
  }

  /** The same event on a card: what the pi's program does to the file system moves the table it
      holds, and the counter, as the event Boot does. */
  lemma CardIsBoot(w: World, a: nat, g: Volume.Geometry, d: Card.Image, root: seq<nat>,
                   d': Card.Image, root': seq<nat>, r: Answer)
    requires w.session.Some? && Disk(w, a) == DiskIdentity.TableOf(g, d, root)
    requires DiskIdentity.Boots(g, d, root, d', root', w.session.value.name, Offer(w.session.value), r)
    ensures DiskIdentity.TableOf(g, d', root') == Disk(Apply(w, Boot(a)), a)
    ensures r == Unassigned <==> Apply(w, Boot(a)).session.value.counter != w.session.value.counter
  {
    assert (w.session.value.counter + 1) % WRAP != w.session.value.counter;
  }
}
