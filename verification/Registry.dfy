/** The registry of ids over any number of sessions, disks and filesystem names: the coordinator's
    durable counters (mac-src/pi-install.c), the tables of the disks, and what a session does to
    both. */
module Registry {
  import opened Bytes
  import opened CString
  import opened IdTable

  // ---- the state ----

  datatype Option<T> = None | Some(value: T)

  /** A running session: the counter in memory, whether it changed since it was read, and whether
      some disk was given a row. */
  datatype Session = Session(name: seq<Byte>, counter: Word, dirty: bool, wrote: bool)

  datatype World = World(durable: map<seq<Byte>, Word>, disks: map<nat, seq<Row>>, session: Option<Session>)

  /** A filesystem file that does not exist yet is created with counter 0. */
  function Durable(w: World, name: seq<Byte>): Word {
    if name in w.durable then w.durable[name] else 0
  }

  function Disk(w: World, a: nat): seq<Row> {
    if a in w.disks then w.disks[a] else []
  }

  /** The counter that decides the next id under `name`. */
  function Current(w: World, name: seq<Byte>): Word {
    if w.session.Some? && w.session.value.name == name then w.session.value.counter else Durable(w, name)
  }

  // ---- events ----

  /** Start a session; complete a handshake with disk `a`; return, writing back if dirty; panic, so
      that nothing is written back; panic after the pi of disk `a` looked its name up. */
  datatype Event = Open(name: seq<Byte>) | Boot(a: nat) | Close | Panic | PanicAt(a: nat)

  function Offer(s: Session): Byte {
    s.counter % 0x100
  }

  /** The call writes a row. */
  predicate Writes(rows: seq<Row>, name: seq<Byte>, offered: Byte) {
    Respond(rows, name, offered) == Unassigned && |rows| < ENTRIES
  }

  function Booted(s: Session, rows: seq<Row>): Session {
    var counter := if Respond(rows, s.name, Offer(s)) == Unassigned then (s.counter + 1) % WRAP else s.counter;
    s.(counter := counter, dirty := s.dirty || counter != s.counter,
       wrote := s.wrote || Writes(rows, s.name, Offer(s)))
  }

  function Apply(w: World, e: Event): World {
    if e.Open? then
      if w.session.Some? then w
      else w.(durable := w.durable[e.name := Durable(w, e.name)],
              session := Some(Session(e.name, Durable(w, e.name), false, false)))
    else if w.session.None? then w
    else
      var s := w.session.value;
      match e
      case Boot(a) =>
        w.(disks := w.disks[a := Updated(Disk(w, a), s.name, Offer(s))], session := Some(Booted(s, Disk(w, a))))
      case Close =>
        w.(durable := if s.dirty then w.durable[s.name := s.counter] else w.durable, session := None)
      case Panic => w.(session := None)
      case PanicAt(a) => w.(disks := w.disks[a := Updated(Disk(w, a), s.name, Offer(s))], session := None)
      case Open(_) => w
  }

  function ApplyAll(w: World, es: seq<Event>): World
    decreases |es|
  {
    if es == [] then w else ApplyAll(Apply(w, es[0]), es[1..])
  }

  // ---- what is recorded ----

  /** The table has the id `id` under `name`. */
  ghost predicate Holds(rows: seq<Row>, name: seq<Byte>, id: nat) {
    forall k: nat {:trigger Show(k)} :: Show(k) ==> Respond(rows, name, 0) == Recorded(id)
  }

  lemma HoldsIs(rows: seq<Row>, name: seq<Byte>, id: nat)
    ensures Holds(rows, name, id) <==> Respond(rows, name, 0) == Recorded(id)
  {
    assert Show(0);
  }

  /** Names that `strncmp` tells apart, that fit the table and are not empty. */
  ghost predicate Names(names: set<seq<Byte>>) {
    && (forall n :: n in names ==> n != [] && |n| < NAME_LEN)
    && (forall m, n :: m in names && n in names && Alike(m, n) ==> m == n)
  }

  lemma FindAppended(rows: seq<Row>, row: Row, name: seq<Byte>)
    ensures Find(rows + [row], name) ==
            if Find(rows, name) < |rows| then Find(rows, name)
            else if Alike(row.name, name) then |rows| else |rows| + 1
  {
    var k := Find(rows, name);
    if k < |rows| {
      FindExtends(rows, [row], name);
    } else if Alike(row.name, name) {
      FindIs(rows + [row], name, |rows|);
    } else {
      FindIs(rows + [row], name, |rows| + 1);
    }
  }

  lemma WritesRow(rows: seq<Row>, name: seq<Byte>, offered: Byte)
    requires |name| < NAME_LEN
    ensures Updated(rows, name, offered) == if Writes(rows, name, offered) then rows + [Row(name, offered)] else rows
    ensures Writes(rows, name, offered) <==> Updated(rows, name, offered) != rows
  {
    assert Clip(name, NAME_LEN - 1) == name && offered % 0x1_0000 == offered;
    assert |rows + [Row(name, offered)]| == |rows| + 1;
  }

  /** A call gives the table at most one new id: the one offered, under the name asked for. */
  lemma CallHolds(names: set<seq<Byte>>, rows: seq<Row>, name: seq<Byte>, offered: Byte, m: seq<Byte>, id: nat)
    requires Names(names) && name in names && m in names
    ensures Holds(Updated(rows, name, offered), m, id) <==>
            Holds(rows, m, id) || (m == name && id == offered && Writes(rows, name, offered))
    ensures Writes(rows, name, offered) ==> !Holds(rows, name, id)
  {
    WritesRow(rows, name, offered);
    HoldsIs(rows, m, id);
    HoldsIs(rows, name, id);
    HoldsIs(Updated(rows, name, offered), m, id);
    if Writes(rows, name, offered) {
      FindAppended(rows, Row(name, offered), m);
      assert Alike(name, name);
    }
  }

  // ---- safety ----

  ghost predicate WellFormed(names: set<seq<Byte>>, w: World) {
    && (forall a: nat :: |Disk(w, a)| <= ENTRIES)
    && (w.session.Some? ==> w.session.value.name in names)
  }

  /** Every id recorded under a name is below the counter that will decide the next one. */
  ghost predicate Below(names: set<seq<Byte>>, w: World) {
    forall n, a: nat, id: nat :: n in names && Holds(Disk(w, a), n, id) ==> id < Current(w, n)
  }

  /** No two disks hold the same id under one name. */
  ghost predicate Unique(names: set<seq<Byte>>, w: World) {
    forall n, a: nat, b: nat, id: nat :: n in names && Holds(Disk(w, a), n, id) && Holds(Disk(w, b), n, id) ==> a == b
  }

  /** Some disk holds an id under the session's name that the file's counter has not passed. */
  ghost predicate Ahead(w: World, s: Session) {
    exists a: nat, id: nat :: IsAhead(w, s, a, id)
  }

  ghost predicate IsAhead(w: World, s: Session, a: nat, id: nat) {
    Holds(Disk(w, a), s.name, id) && Durable(w, s.name) <= id
  }

  /** The counter in memory has moved away from the file only if the session is dirty; a session
      that gave out a row is dirty; and rows given out are those at or above the file's counter. */
  ghost predicate Tracked(names: set<seq<Byte>>, w: World) {
    w.session.Some? ==>
      var s := w.session.value;
      && Durable(w, s.name) <= s.counter && (!s.dirty ==> s.counter == Durable(w, s.name))
      && (s.wrote <==> Ahead(w, s))
  }

  ghost predicate Safe(names: set<seq<Byte>>, w: World) {
    WellFormed(names, w) && Below(names, w) && Unique(names, w) && Tracked(names, w)
  }

  const EMPTY := World(map[], map[], None)

  lemma EmptyIsSafe(names: set<seq<Byte>>)
    ensures Safe(names, EMPTY)
  {
    forall n, a: nat, id: nat
      ensures !Holds(Disk(EMPTY, a), n, id)
    {
      HoldsIs([], n, id);
    }
  }

  // ---- each event ----

  lemma OpenKeepsSafe(names: set<seq<Byte>>, w: World, name: seq<Byte>)
    requires Names(names) && Safe(names, w) && name in names
    ensures Safe(names, Apply(w, Open(name)))
  {
    var w' := Apply(w, Open(name));
    if w.session.None? {
      assert forall n :: Current(w', n) == Current(w, n);
      assert forall a: nat :: Disk(w', a) == Disk(w, a);
    }
  }

  lemma CloseKeepsSafe(names: set<seq<Byte>>, w: World)
    requires Names(names) && Safe(names, w)
    ensures Safe(names, Apply(w, Close))
  {
    var w' := Apply(w, Close);
    if w.session.Some? {
      assert forall n :: Current(w', n) == Current(w, n);
      assert forall a: nat :: Disk(w', a) == Disk(w, a);
    }
  }

  /** The id a boot of disk `a` writes, if it writes one, is not in use under that name. */
  ghost predicate OfferFree(w: World, a: nat, b: nat)
    requires w.session.Some?
  {
    var s := w.session.value;
    Writes(Disk(w, a), s.name, Offer(s)) ==> !Holds(Disk(w, b), s.name, Offer(s))
  }

  lemma BootHolds(names: set<seq<Byte>>, w: World, a: nat, b: nat, n: seq<Byte>, id: nat)
    requires Names(names) && Safe(names, w) && w.session.Some? && n in names
    ensures var s := w.session.value;
            Holds(Disk(Apply(w, Boot(a)), b), n, id) <==>
            || Holds(Disk(w, b), n, id)
            || (b == a && n == s.name && id == Offer(s) && Writes(Disk(w, a), s.name, Offer(s)))
    ensures Disk(Apply(w, PanicAt(a)), b) == Disk(Apply(w, Boot(a)), b)
    ensures var s := w.session.value; Writes(Disk(w, a), s.name, Offer(s)) ==> !Holds(Disk(w, a), s.name, id)
  {
    var s := w.session.value;
    CallHolds(names, Disk(w, a), s.name, Offer(s), n, id);
    CallHolds(names, Disk(w, a), s.name, Offer(s), s.name, id);
  }

  lemma BootWellFormed(names: set<seq<Byte>>, w: World, a: nat)
    requires Names(names) && Safe(names, w) && w.session.Some?
    ensures WellFormed(names, Apply(w, Boot(a)))
  {
    WritesRow(Disk(w, a), w.session.value.name, Offer(w.session.value));
    forall b: nat
      ensures |Disk(Apply(w, Boot(a)), b)| <= ENTRIES
    {
      assert b != a ==> Disk(Apply(w, Boot(a)), b) == Disk(w, b);
    }
  }

  lemma CounterMoves(s: Session, rows: seq<Row>)
    requires s.counter < WRAP - 1
    ensures s.counter <= Booted(s, rows).counter && Offer(s) <= s.counter
    ensures Writes(rows, s.name, Offer(s)) ==> s.counter < Booted(s, rows).counter
  {
  }

  lemma BootBelow(names: set<seq<Byte>>, w: World, a: nat)
    requires Names(names) && Safe(names, w) && w.session.Some? && w.session.value.counter < WRAP - 1
    ensures Below(names, Apply(w, Boot(a)))
  {
    var s, w' := w.session.value, Apply(w, Boot(a));
    CounterMoves(s, Disk(w, a));
    forall n, b: nat, id: nat | n in names && Holds(Disk(w', b), n, id)
      ensures id < Current(w', n)
    {
      BootHolds(names, w, a, b, n, id);
    }
  }

  lemma StaysAhead(names: set<seq<Byte>>, w: World, a: nat)
    requires Names(names) && Safe(names, w) && w.session.Some? && Ahead(w, w.session.value)
    ensures Ahead(Apply(w, Boot(a)), w.session.value)
  {
    var s := w.session.value;
    var b: nat, id: nat :| IsAhead(w, s, b, id);
    BootHolds(names, w, a, b, s.name, id);
    assert IsAhead(Apply(w, Boot(a)), s, b, id);
  }

  lemma OfferIsDurable(names: set<seq<Byte>>, w: World)
    requires Safe(names, w) && w.session.Some? && w.session.value.counter < 0x100
    ensures Durable(w, w.session.value.name) <= Offer(w.session.value)
  {
  }

  lemma BootKeepsFile(w: World, a: nat, n: seq<Byte>)
    ensures Durable(Apply(w, Boot(a)), n) == Durable(w, n)
  {
  }

  lemma WritingIsAhead(names: set<seq<Byte>>, w: World, a: nat)
    requires Names(names) && Safe(names, w) && w.session.Some? && w.session.value.counter < 0x100
    requires Writes(Disk(w, a), w.session.value.name, Offer(w.session.value))
    ensures Ahead(Apply(w, Boot(a)), w.session.value)
  {
    var s := w.session.value;
    assert Holds(Disk(Apply(w, Boot(a)), a), s.name, Offer(s)) by {
      BootHolds(names, w, a, a, s.name, Offer(s));
    }
    OfferIsDurable(names, w);
    BootKeepsFile(w, a, s.name);
    assert IsAhead(Apply(w, Boot(a)), s, a, Offer(s));
  }

  lemma WasAhead(names: set<seq<Byte>>, w: World, a: nat)
    requires Names(names) && Safe(names, w) && w.session.Some? && Ahead(Apply(w, Boot(a)), w.session.value)
    ensures var s := w.session.value; Ahead(w, s) || Writes(Disk(w, a), s.name, Offer(s))
  {
    var s := w.session.value;
    var b: nat, id: nat :| IsAhead(Apply(w, Boot(a)), s, b, id);
    BootHolds(names, w, a, b, s.name, id);
    assert IsAhead(w, s, b, id) || Writes(Disk(w, a), s.name, Offer(s));
  }

  lemma BootAhead(names: set<seq<Byte>>, w: World, a: nat)
    requires Names(names) && Safe(names, w) && w.session.Some? && w.session.value.counter < 0x100
    ensures var s := w.session.value;
            Ahead(Apply(w, Boot(a)), s) <==> Ahead(w, s) || Writes(Disk(w, a), s.name, Offer(s))
  {
    var s := w.session.value;
    if Ahead(w, s) {
      StaysAhead(names, w, a);
    }
    if Writes(Disk(w, a), s.name, Offer(s)) {
      WritingIsAhead(names, w, a);
    }
    if Ahead(Apply(w, Boot(a)), s) {
      WasAhead(names, w, a);
    }
  }

  lemma AheadSame(w: World, s: Session, s': Session)
    requires s.name == s'.name
    ensures Ahead(w, s) <==> Ahead(w, s')
  {
    assert forall a: nat, id: nat :: IsAhead(w, s, a, id) <==> IsAhead(w, s', a, id);
  }

  lemma BootedFacts(s: Session, rows: seq<Row>)
    requires s.counter < 0x100
    ensures var s' := Booted(s, rows);
            && s'.name == s.name && s.counter <= s'.counter && (s'.wrote <==> s.wrote || Writes(rows, s.name, Offer(s)))
            && (!s'.dirty <==> !s.dirty && s'.counter == s.counter)
  {
  }

  lemma BootTracked(names: set<seq<Byte>>, w: World, a: nat)
    requires Names(names) && Safe(names, w) && w.session.Some? && w.session.value.counter < 0x100
    ensures Tracked(names, Apply(w, Boot(a)))
  {
    var s, w' := w.session.value, Apply(w, Boot(a));
    var s' := w'.session.value;
    BootedFacts(s, Disk(w, a));
    BootAhead(names, w, a);
    AheadSame(w', s, s');
    assert Durable(w', s.name) == Durable(w, s.name);
  }

  /** A boot keeps ids unique exactly when the id it writes is not in use under that name. */
  lemma BootUnique(names: set<seq<Byte>>, w: World, a: nat)
    requires Names(names) && Safe(names, w) && w.session.Some?
    ensures Unique(names, Apply(w, Boot(a))) <==> forall b: nat :: OfferFree(w, a, b)
  {
    var s, w' := w.session.value, Apply(w, Boot(a));
    if forall b: nat :: OfferFree(w, a, b) {
      forall n, x: nat, y: nat, id: nat | n in names && Holds(Disk(w', x), n, id) && Holds(Disk(w', y), n, id)
        ensures x == y
      {
        BootHolds(names, w, a, x, n, id);
        BootHolds(names, w, a, y, n, id);
        assert OfferFree(w, a, x) && OfferFree(w, a, y);
      }
    } else {
      var b: nat :| !OfferFree(w, a, b);
      BootHolds(names, w, a, b, s.name, Offer(s));
      BootHolds(names, w, a, a, s.name, Offer(s));
    }
  }

  lemma SmallOfferFree(names: set<seq<Byte>>, w: World, a: nat, b: nat)
    requires Names(names) && Safe(names, w) && w.session.Some? && w.session.value.counter < 0x100
    ensures OfferFree(w, a, b)
  {
    var s := w.session.value;
    assert Offer(s) == s.counter == Current(w, s.name);
  }

  /** Short of 256 ids a boot keeps the registry safe, full tables included. */
  lemma BootKeepsSafe(names: set<seq<Byte>>, w: World, a: nat)
    requires Names(names) && Safe(names, w) && (w.session.Some? ==> w.session.value.counter < 0x100)
    ensures Safe(names, Apply(w, Boot(a)))
  {
    if w.session.Some? {
      BootWellFormed(names, w, a);
      BootBelow(names, w, a);
      BootTracked(names, w, a);
      forall b: nat
        ensures OfferFree(w, a, b)
      {
        SmallOfferFree(names, w, a, b);
      }
      BootUnique(names, w, a);
    }
  }

  // ---- sessions that do not return ----

  lemma PanicAtIsBoth(w: World, a: nat)
    ensures Apply(w, PanicAt(a)) == Apply(Apply(w, Boot(a)), Panic)
  {
  }

  /** A panic, which skips the write-back, breaks safety exactly when the session had given out a row:
      then some recorded id is not below the counter the next session reads. */
  lemma PanicExact(names: set<seq<Byte>>, w: World)
    requires Names(names) && Safe(names, w) && w.session.Some?
    ensures Safe(names, Apply(w, Panic)) <==> !w.session.value.wrote
  {
    var s, w' := w.session.value, Apply(w, Panic);
    assert forall a: nat :: Disk(w', a) == Disk(w, a);
    if s.wrote {
      var a: nat, id: nat :| IsAhead(w, s, a, id);
      assert Holds(Disk(w', a), s.name, id) && Current(w', s.name) == Durable(w, s.name);
    } else {
      forall n, a: nat, id: nat | n in names && Holds(Disk(w', a), n, id)
        ensures id < Current(w', n)
      {
        if n == s.name {
          assert !IsAhead(w, s, a, id);
        }
      }
    }
  }

  // ---- runs ----

  /** What keeps an event from breaking safety: names are agreed on, ids fit a byte, and a session
      that gave out a row ends by returning. */
  ghost predicate Guarded(names: set<seq<Byte>>, w: World, e: Event) {
    if e.Open? then e.name in names
    else w.session.Some? ==>
           var s := w.session.value;
           match e
           case Boot(_) => s.counter < 0x100
           case Panic => !s.wrote
           case PanicAt(a) => s.counter < 0x100 && !Booted(s, Disk(w, a)).wrote
           case _ => true
  }

  ghost predicate AllGuarded(names: set<seq<Byte>>, w: World, es: seq<Event>)
    decreases |es|
  {
    es == [] || (Guarded(names, w, es[0]) && AllGuarded(names, Apply(w, es[0]), es[1..]))
  }

  lemma EventKeepsSafe(names: set<seq<Byte>>, w: World, e: Event)
    requires Names(names) && Safe(names, w) && Guarded(names, w, e)
    ensures Safe(names, Apply(w, e))
  {
    match e
    case Open(n) => OpenKeepsSafe(names, w, n);
    case Boot(a) => BootKeepsSafe(names, w, a);
    case Close => CloseKeepsSafe(names, w);
    case Panic =>
      if w.session.Some? {
        PanicExact(names, w);
      }
    case PanicAt(a) =>
      if w.session.Some? {
        PanicAtIsBoth(w, a);
        BootKeepsSafe(names, w, a);
        PanicExact(names, Apply(w, Boot(a)));
      }
  }

  /** While ids fit a byte, the guard is exact: an event breaks safety if and only if a panic loses a
      counter that had moved past a row. */
  lemma GuardIsExact(names: set<seq<Byte>>, w: World, e: Event)
    requires Names(names) && Safe(names, w) && (e.Open? ==> e.name in names)
    requires w.session.Some? ==> w.session.value.counter < 0x100
    ensures Safe(names, Apply(w, e)) <==> Guarded(names, w, e)
  {
    if Guarded(names, w, e) {
      EventKeepsSafe(names, w, e);
    } else if e.Panic? {
      PanicExact(names, w);
    } else {
      PanicAtIsBoth(w, e.a);
      BootKeepsSafe(names, w, e.a);
      PanicExact(names, Apply(w, Boot(e.a)));
    }
  }

  lemma {:induction false} RunKeepsSafe(names: set<seq<Byte>>, w: World, es: seq<Event>)
    requires Names(names) && Safe(names, w) && AllGuarded(names, w, es)
    ensures Safe(names, ApplyAll(w, es))
    decreases |es|
  {
    if es != [] {
      EventKeepsSafe(names, w, es[0]);
      RunKeepsSafe(names, Apply(w, es[0]), es[1..]);
    }
  }

  /** Registry safety. Over any run of sessions, from no files and blank disks, no two disks ever
      hold the same id under one name, and every recorded id is below that name's counter. */
  lemma RegistrySafety(names: set<seq<Byte>>, es: seq<Event>, n: seq<Byte>, a: nat, b: nat, id: nat, id': nat)
    requires Names(names) && AllGuarded(names, EMPTY, es) && n in names && a != b
    requires Holds(Disk(ApplyAll(EMPTY, es), a), n, id) && Holds(Disk(ApplyAll(EMPTY, es), b), n, id')
    ensures id != id' && id < Current(ApplyAll(EMPTY, es), n)
  {
    EmptyIsSafe(names);
    RunKeepsSafe(names, EMPTY, es);
  }

  // ---- the rows themselves ----

  /** Every row has an agreed name, and no two the same. */
  ghost predicate Rowed(names: set<seq<Byte>>, rows: seq<Row>) {
    && (forall i :: 0 <= i < |rows| ==> rows[i].name in names)
    && forall i, j :: 0 <= i < j < |rows| ==> rows[i].name != rows[j].name
  }

  lemma CallRowed(names: set<seq<Byte>>, rows: seq<Row>, name: seq<Byte>, offered: Byte)
    requires Names(names) && name in names && Rowed(names, rows)
    ensures Rowed(names, Updated(rows, name, offered))
  {
    WritesRow(rows, name, offered);
    if Writes(rows, name, offered) {
      forall i | 0 <= i < |rows|
        ensures rows[i].name != name
      {
        assert !Alike(rows[i].name, name);
      }
    }
  }

  /** To hold an id under a name is to have the row of exactly that name and id. */
  lemma HoldsRow(names: set<seq<Byte>>, rows: seq<Row>, name: seq<Byte>, id: nat)
    requires Names(names) && name in names && Rowed(names, rows)
    ensures Holds(rows, name, id) <==> Row(name, id) in rows
  {
    HoldsIs(rows, name, id);
    var k := Find(rows, name);
    if k < |rows| {
      assert Alike(rows[k].name, name) && rows[k].name in names;
      assert rows[k].name == name;
    }
    if Row(name, id) in rows {
      var i :| 0 <= i < |rows| && rows[i] == Row(name, id);
      assert Alike(rows[i].name, name);
    }
  }

  ghost predicate AllRowed(names: set<seq<Byte>>, w: World) {
    && (w.session.Some? ==> w.session.value.name in names)
    && forall a: nat :: Rowed(names, Disk(w, a))
  }

  lemma EventRowed(names: set<seq<Byte>>, w: World, e: Event)
    requires Names(names) && AllRowed(names, w) && (e.Open? ==> e.name in names)
    ensures AllRowed(names, Apply(w, e))
  {
    forall a: nat
      ensures Rowed(names, Disk(Apply(w, e), a))
    {
      assert Rowed(names, Disk(w, a));
      if w.session.Some? {
        CallRowed(names, Disk(w, a), w.session.value.name, Offer(w.session.value));
      }
    }
  }

  lemma {:induction false} RunRowed(names: set<seq<Byte>>, w: World, es: seq<Event>)
    requires Names(names) && AllRowed(names, w) && AllGuarded(names, w, es)
    ensures AllRowed(names, ApplyAll(w, es))
    decreases |es|
  {
    if es != [] {
      EventRowed(names, w, es[0]);
      RunRowed(names, Apply(w, es[0]), es[1..]);
    }
  }

  /** Registry safety in rows: whatever two disks have written down, rows of one name have different
      ids, and ids below the name's counter; and one disk has at most one row of a name. */
  lemma RowsAreDistinct(names: set<seq<Byte>>, es: seq<Event>, a: nat, b: nat, r: Row, r': Row)
    requires Names(names) && AllGuarded(names, EMPTY, es)
    requires r in Disk(ApplyAll(EMPTY, es), a) && r' in Disk(ApplyAll(EMPTY, es), b)
    requires r.name == r'.name && (a != b || r != r')
    ensures a != b && r.id != r'.id && r.id < Current(ApplyAll(EMPTY, es), r.name)
  {
    var w, n := ApplyAll(EMPTY, es), r.name;
    RunRowed(names, EMPTY, es);
    assert Rowed(names, Disk(w, a)) && Rowed(names, Disk(w, b));
    HoldsRow(names, Disk(w, a), n, r.id);
    HoldsRow(names, Disk(w, b), n, r'.id);
    RegistrySafety(names, es, n, a, b, r.id, r'.id);
  }

  // ---- ids do not change ----

  lemma EventKeepsId(w: World, e: Event, a: nat, name: seq<Byte>, id: nat)
    requires Holds(Disk(w, a), name, id)
    ensures Holds(Disk(Apply(w, e), a), name, id)
  {
    HoldsIs(Disk(w, a), name, id);
    HoldsIs(Disk(Apply(w, e), a), name, id);
    if w.session.Some? {
      var s := w.session.value;
      RecordedStays(Disk(w, a), name, 0, s.name, Offer(s));
    }
  }

  /** A disk keeps its id over any events whatever, panics included. */
  lemma {:induction false} IdIsStable(w: World, es: seq<Event>, a: nat, name: seq<Byte>, id: nat)
    requires Holds(Disk(w, a), name, id)
    ensures Holds(Disk(ApplyAll(w, es), a), name, id)
    decreases |es|
  {
    if es != [] {
      EventKeepsId(w, es[0], a, name, id);
      IdIsStable(Apply(w, es[0]), es[1..], a, name, id);
    }
  }

  /** A disk that has an id takes no new one: booting it leaves tables and counter alone. */
  lemma KnownTakesNone(w: World, a: nat, id: nat)
    requires w.session.Some? && Holds(Disk(w, a), w.session.value.name, id)
    ensures Disk(Apply(w, Boot(a)), a) == Disk(w, a) && Apply(w, Boot(a)).session == w.session
  {
    var s, rows := w.session.value, Disk(w, a);
    HoldsIs(rows, s.name, id);
    assert Respond(rows, s.name, Offer(s)) == Recorded(id);
    assert Updated(rows, s.name, Offer(s)) == rows && !Writes(rows, s.name, Offer(s));
    assert Booted(s, rows) == s;
  }

  // ---- without the guards ----

  lemma BlankTakesOffer(w: World, a: nat)
    requires w.session.Some? && Disk(w, a) == [] && 0 < |w.session.value.name| < NAME_LEN
    ensures var s, w' := w.session.value, Apply(w, Boot(a));
            Holds(Disk(w', a), s.name, Offer(s)) && w'.session.Some? && w'.session.value.name == s.name
            && w'.session.value.counter == (s.counter + 1) % WRAP && w'.durable == w.durable
  {
    var s := w.session.value;
    WritesRow([], s.name, Offer(s));
    HoldsIs(Disk(Apply(w, Boot(a)), a), s.name, Offer(s));
    assert Alike(s.name, s.name);
  }

  /** One lost write-back is enough: the next new disk gets the same id. */
  lemma PanicReusesId(name: seq<Byte>)
    requires 0 < |name| < NAME_LEN
    ensures var w := ApplyAll(EMPTY, [Open(name), Boot(0), Panic, Open(name), Boot(1)]);
            Holds(Disk(w, 0), name, 0) && Holds(Disk(w, 1), name, 0)
  {
    var w1 := Apply(EMPTY, Open(name));
    var w2 := Apply(w1, Boot(0));
    BlankTakesOffer(w1, 0);
    var w3 := Apply(w2, Panic);
    var w4 := Apply(w3, Open(name));
    var w5 := Apply(w4, Boot(1));
    BlankTakesOffer(w4, 1);
    EventKeepsId(w4, Boot(1), 0, name, 0);
    FirstEvent(w4, Boot(1), []);
    FirstEvent(w3, Open(name), [Boot(1)]);
    FirstEvent(w2, Panic, [Open(name), Boot(1)]);
    FirstEvent(w1, Boot(0), [Panic, Open(name), Boot(1)]);
    FirstEvent(EMPTY, Open(name), [Boot(0), Panic, Open(name), Boot(1)]);
    assert [Boot(1)] + [] == [Boot(1)] && [Open(name)] + [Boot(1)] == [Open(name), Boot(1)];
    assert [Panic] + [Open(name), Boot(1)] == [Panic, Open(name), Boot(1)];
    assert [Boot(0)] + [Panic, Open(name), Boot(1)] == [Boot(0), Panic, Open(name), Boot(1)];
    assert [Open(name)] + [Boot(0), Panic, Open(name), Boot(1)] == [Open(name), Boot(0), Panic, Open(name), Boot(1)];
    assert ApplyAll(EMPTY, [Open(name), Boot(0), Panic, Open(name), Boot(1)]) == w5;
  }

  lemma FirstEvent(w: World, e: Event, es: seq<Event>)
    ensures ApplyAll(w, [e] + es) == ApplyAll(Apply(w, e), es)
  {
    assert ([e] + es)[1..] == es;
  }

  /** A first session that boots the blank disks 0, 1, 2, ... */
  function Enrolled(name: seq<Byte>, k: nat): World {
    if k == 0 then Apply(EMPTY, Open(name)) else Apply(Enrolled(name, k - 1), Boot(k - 1))
  }

  ghost predicate Enrolling(w: World, name: seq<Byte>, k: nat) {
    && w.session.Some? && w.session.value.name == name && w.session.value.counter == k
    && forall a: nat :: k <= a ==> Disk(w, a) == []
  }

  lemma EnrollOne(w: World, name: seq<Byte>, k: nat)
    requires 0 < |name| < NAME_LEN && k < WRAP - 1 && Enrolling(w, name, k)
    ensures Enrolling(Apply(w, Boot(k)), name, k + 1)
  {
    BlankTakesOffer(w, k);
    forall a: nat | k + 1 <= a
      ensures Disk(Apply(w, Boot(k)), a) == []
    {
      OtherDisk(w, k, a);
    }
  }

  lemma {:induction false} EnrolledState(name: seq<Byte>, k: nat)
    requires 0 < |name| < NAME_LEN && k < WRAP
    ensures Enrolling(Enrolled(name, k), name, k)
  {
    if k > 0 {
      EnrolledState(name, k - 1);
      EnrollOne(Enrolled(name, k - 1), name, k - 1);
    }
  }

  lemma OtherDisk(w: World, a: nat, b: nat)
    requires a != b
    ensures Disk(Apply(w, Boot(a)), b) == Disk(w, b)
  {
  }

  lemma {:induction false} EnrolledHolds(name: seq<Byte>, k: nat, a: nat)
    requires 0 < |name| < NAME_LEN && a < k < WRAP
    ensures Holds(Disk(Enrolled(name, k), a), name, a % 0x100)
    decreases k
  {
    var w := Enrolled(name, k - 1);
    assert Enrolled(name, k) == Apply(w, Boot(k - 1));
    if a == k - 1 {
      EnrolledState(name, k - 1);
      BlankTakesOffer(w, a);
    } else {
      EnrolledHolds(name, k - 1, a);
      EventKeepsId(w, Boot(k - 1), a, name, a % 0x100);
    }
  }

  /** Ids are cut to a byte on the way to the pi: the 257th disk gets the id of the first. */
  lemma ByteReusesId(name: seq<Byte>)
    requires 0 < |name| < NAME_LEN
    ensures Holds(Disk(Enrolled(name, 257), 0), name, 0) && Holds(Disk(Enrolled(name, 257), 256), name, 0)
  {
    EnrolledHolds(name, 257, 0);
    EnrolledHolds(name, 257, 256);
  }
}
