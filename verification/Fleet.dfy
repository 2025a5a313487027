/** The whole system: real cards, worked on by file operations, power failures and boots, beside the
    registry that a coordinator keeps. The registry's disks are at every moment the id tables on the
    cards, so what Registry proves of ids holds of the cards. */
module Fleet {
  import opened Bytes
  import opened Card
  import opened Volume
  import opened Directory
  import opened Effects
  import opened FileCreation
  import opened FileSystem
  import opened FileContents
  import opened FileLookup
  import opened PowerFailure
  import opened FileRuns
  import opened IdTable
  import opened ConfigTable
  import opened DiskIdentity
  import opened Registry

  // ---- file operations do not touch the table ----

  lemma LookupLast(list: seq<Slot>, r: Slot, name: seq<Byte>)
    requires NoneMatch(list, name)
    ensures Lookup(list + [r], name) == if Matches(r, name) then FirstCluster(r) else NOT_FOUND
  {
    var l := list + [r];
    assert l[..|list|] == list;
    if Matches(r, name) {
      LookupAt(l, name, |list|);
    } else {
      LookupNone(l, name);
    }
  }

  /** On a card without a configuration file, a file that happens to match its name starts out as an
      empty table. */
  lemma FirstCreation(g: Geometry, d: Image, e: Creation)
    requires Ready(g, d, e.root) && ConfigCluster(g, d, e.root) == NOT_FOUND
    requires Creates(g, d, e) && |e.name| >= 11 && e.name[0] != 0
    ensures Ready(g, Final(e), NewRoot(e)) && TableOf(g, Final(e), NewRoot(e)) == []
  {
    HealthyIs(g, d, e.root);
    ConfigNameStarts();
    AbsentMeansAbsent(g, d, e.root, CONFIG_NAME);
    CreationHealthy(g, d, e);
    LookupLast(ListOf(g, d, e.root), Record(g, d, e), CONFIG_NAME);
    CreationForest(g, d, e);
    assert e.out in e.files;
    FreshFileIsBlank(g, d, e, e.out);
    BlankIsEmpty();
  }

  lemma CreationKeepsTable(g: Geometry, d: Image, e: Creation)
    requires Ready(g, d, e.root) && Creates(g, d, e) && |e.name| >= 11 && e.name[0] != 0
    ensures Ready(g, Final(e), NewRoot(e)) && TableOf(g, Final(e), NewRoot(e)) == TableOf(g, d, e.root)
  {
    if ConfigCluster(g, d, e.root) == NOT_FOUND {
      FirstCreation(g, d, e);
    } else {
      CreationHealthy(g, d, e);
      CreationKeepsConfig(g, d, e);
    }
  }

  lemma RewriteKeepsTable(g: Geometry, d: Image, root: seq<nat>, c: nat, x: Sector)
    requires Ready(g, d, root) && InUse(g, d, c) && c !in root && c != ConfigCluster(g, d, root)
    ensures var d' := d[SectorLba(g, c, 0) := x];
            Ready(g, d', root) && TableOf(g, d', root) == TableOf(g, d, root)
  {
    var d', y := d[SectorLba(g, c, 0) := x], ConfigCluster(g, d, root);
    RewriteHealthy(g, d, root, c, x);
    if y != NOT_FOUND {
      ConfigInUse(g, d, root);
      RewriteElsewhere(g, d, c, x, y);
      FirstSectorKept(g, d, d', y);
    }
  }

  /** File operations, with or without power failures, keep a card ready and its table as it is. */
  lemma OpKeepsTable(g: Geometry, d: Image, root: seq<nat>, op: Op)
    requires Ready(g, d, root) && Allowed(g, d, root, op) && NamesStart([op])
    requires op.Rewrite? ==> op.c != ConfigCluster(g, d, root)
    ensures Ready(g, After(g, d, op), RootAfter(root, op))
    ensures TableOf(g, After(g, d, op), RootAfter(root, op)) == TableOf(g, d, root)
  {
    assert [op][0] == op;
    match op
    case Create(e) => CreationKeepsTable(g, d, e);
    case Rewrite(c, x) => RewriteKeepsTable(g, d, root, c, x);
    case Cut(e, k, n) => CutKeepsConfig(g, d, e, k);
  }

  // ---- the system ----

  datatype CardState = CardState(g: Geometry, d: Image, root: seq<nat>)

  /** A move of the system: a file operation on card `a`, or an event of the registry. A boot comes
      with what it leaves on its card. */
  datatype Move = File(a: nat, op: Op) | Event(e: Registry.Event, d': Image, root': seq<nat>)

  type Cards = map<nat, CardState>

  /** The card that an event works on, if it is a boot, whether or not its session goes on. */
  function Booting(w: World, e: Event): Option<nat> {
    if w.session.None? then None
    else
      match e
      case Boot(a) => Some(a)
      case PanicAt(a) => Some(a)
      case _ => None
  }

  ghost predicate Enabled(cards: Cards, w: World, m: Move) {
    match m
    case File(a, op) =>
      && a in cards && NamesStart([op])
      && var c := cards[a];
         Allowed(c.g, c.d, c.root, op) && (op.Rewrite? ==> op.c != ConfigCluster(c.g, c.d, c.root))
    case Event(e, d', root') =>
      Booting(w, e).Some? ==>
        && Booting(w, e).value in cards
        && var c, s := cards[Booting(w, e).value], w.session.value;
           exists r :: Boots(c.g, c.d, c.root, d', root', s.name, Offer(s), r)
  }

  ghost function CardsAfter(cards: Cards, w: World, m: Move): Cards {
    match m
    case File(a, op) =>
      if a in cards
      then cards[a := CardState(cards[a].g, After(cards[a].g, cards[a].d, op), RootAfter(cards[a].root, op))]
      else cards
    case Event(e, d', root') =>
      if Booting(w, e).Some? && Booting(w, e).value in cards
      then cards[Booting(w, e).value := CardState(cards[Booting(w, e).value].g, d', root')]
      else cards
  }

  function WorldAfter(w: World, m: Move): World {
    match m
    case File(_, _) => w
    case Event(e, _, _) => Apply(w, e)
  }

  // ---- the simulation ----

  ghost predicate Agrees(c: CardState, rows: seq<Row>) {
    Ready(c.g, c.d, c.root) && TableOf(c.g, c.d, c.root) == rows
  }

  /** Every card is ready and its table is the registry's disk; disks that are no cards are blank. */
  ghost predicate Simulates(cards: Cards, w: World) {
    && (forall a: nat :: a in cards ==> Agrees(cards[a], Disk(w, a)))
    && (forall a: nat :: a !in cards ==> Disk(w, a) == [])
  }

  lemma FileSimulates(cards: Cards, w: World, a: nat, op: Op)
    requires Simulates(cards, w) && Enabled(cards, w, File(a, op))
    ensures Simulates(CardsAfter(cards, w, File(a, op)), w)
  {
    var c := cards[a];
    assert Agrees(c, Disk(w, a));
    OpKeepsTable(c.g, c.d, c.root, op);
  }

  /** Events that are no boots leave every disk alone; a boot changes only its own. */
  lemma OtherDisks(w: World, e: Event, b: nat)
    requires Booting(w, e) != Some(b)
    ensures Disk(Apply(w, e), b) == Disk(w, b)
  {
  }

  lemma BootedDisk(w: World, e: Event, a: nat)
    requires Booting(w, e) == Some(a)
    ensures var s := w.session.value; Disk(Apply(w, e), a) == Updated(Disk(w, a), s.name, Offer(s))
  {
  }

  lemma EventSimulates(cards: Cards, w: World, e: Event, d': Image, root': seq<nat>)
    requires Simulates(cards, w) && Enabled(cards, w, Move.Event(e, d', root'))
    ensures Simulates(CardsAfter(cards, w, Move.Event(e, d', root')), Apply(w, e))
  {
    var cards' := CardsAfter(cards, w, Move.Event(e, d', root'));
    forall b: nat
      ensures b in cards' ==> Agrees(cards'[b], Disk(Apply(w, e), b))
      ensures b !in cards' ==> Disk(Apply(w, e), b) == []
    {
      if Booting(w, e) == Some(b) {
        var c, s := cards[b], w.session.value;
        var r :| Boots(c.g, c.d, c.root, d', root', s.name, Offer(s), r);
        assert Agrees(c, Disk(w, b));
        BootedDisk(w, e, b);
      } else {
        OtherDisks(w, e, b);
        assert b in cards ==> Agrees(cards[b], Disk(w, b));
      }
    }
  }

  // ---- runs of the system ----

  ghost predicate Runs(cards: Cards, w: World, ms: seq<Move>)
    decreases |ms|
  {
    ms == [] || (Enabled(cards, w, ms[0]) && Runs(CardsAfter(cards, w, ms[0]), WorldAfter(w, ms[0]), ms[1..]))
  }

  ghost function CardsEnd(cards: Cards, w: World, ms: seq<Move>): Cards
    decreases |ms|
  {
    if ms == [] then cards else CardsEnd(CardsAfter(cards, w, ms[0]), WorldAfter(w, ms[0]), ms[1..])
  }

  /** The registry's events of a run. */
  function Events(ms: seq<Move>): seq<Event> {
    if ms == [] then [] else (if ms[0].Event? then [ms[0].e] else []) + Events(ms[1..])
  }

  lemma MoveSimulates(cards: Cards, w: World, m: Move)
    requires Simulates(cards, w) && Enabled(cards, w, m)
    ensures Simulates(CardsAfter(cards, w, m), WorldAfter(w, m))
  {
    match m
    case File(a, op) => FileSimulates(cards, w, a, op);
    case Event(e, d', root') => EventSimulates(cards, w, e, d', root');
  }

  lemma FirstMove(w: World, ms: seq<Move>)
    requires ms != []
    ensures ApplyAll(w, Events(ms)) == ApplyAll(WorldAfter(w, ms[0]), Events(ms[1..]))
  {
    if ms[0].Event? {
      FirstEvent(w, ms[0].e, Events(ms[1..]));
    } else {
      assert Events(ms) == Events(ms[1..]);
    }
  }

  lemma {:induction false} RunSimulates(cards: Cards, w: World, ms: seq<Move>)
    requires Simulates(cards, w) && Runs(cards, w, ms)
    ensures Simulates(CardsEnd(cards, w, ms), ApplyAll(w, Events(ms)))
    decreases |ms|
  {
    if ms != [] {
      var cards', w' := CardsAfter(cards, w, ms[0]), WorldAfter(w, ms[0]);
      MoveSimulates(cards, w, ms[0]);
      FirstMove(w, ms);
      RunSimulates(cards', w', ms[1..]);
      assert CardsEnd(cards, w, ms) == CardsEnd(cards', w', ms[1..]);
    }
  }

  /** Cards fresh to the system: ready, with no ids. */
  ghost predicate Blank(cards: Cards) {
    forall a: nat :: a in cards ==> Agrees(cards[a], [])
  }

  /** Registry safety on the cards themselves. Over any run of the whole system, with file creations,
      rewrites of files and power failures on any card between and around the sessions, no two cards
      ever hold the same id under one filesystem name, and every id is below the name's counter. */
  lemma CardsHaveOwnIds(names: set<seq<Byte>>, cards: Cards, ms: seq<Move>, n: seq<Byte>,
                        a: nat, b: nat, id: nat, id': nat)
    requires Blank(cards) && Runs(cards, EMPTY, ms)
    requires Names(names) && AllGuarded(names, EMPTY, Events(ms)) && n in names && a != b
    requires var c := CardsEnd(cards, EMPTY, ms);
             && a in c && Holds(TableOf(c[a].g, c[a].d, c[a].root), n, id)
             && b in c && Holds(TableOf(c[b].g, c[b].d, c[b].root), n, id')
    ensures id != id' && id < Current(ApplyAll(EMPTY, Events(ms)), n)
  {
    RunSimulates(cards, EMPTY, ms);
    var c, w := CardsEnd(cards, EMPTY, ms), ApplyAll(EMPTY, Events(ms));
    assert Agrees(c[a], Disk(w, a)) && Agrees(c[b], Disk(w, b));
    RegistrySafety(names, Events(ms), n, a, b, id, id');
  }

  lemma CardHasRow(cards: Cards, ms: seq<Move>, a: nat)
    requires Blank(cards) && Runs(cards, EMPTY, ms) && a in CardsEnd(cards, EMPTY, ms)
    ensures var c := CardsEnd(cards, EMPTY, ms)[a]; TableOf(c.g, c.d, c.root) == Disk(ApplyAll(EMPTY, Events(ms)), a)
  {
    RunSimulates(cards, EMPTY, ms);
    assert Agrees(CardsEnd(cards, EMPTY, ms)[a], Disk(ApplyAll(EMPTY, Events(ms)), a));
  }

  /** The same of the rows that stand on the cards: rows of one name, on two cards or on one, have
      different ids. */
  lemma CardRowsAreDistinct(names: set<seq<Byte>>, cards: Cards, ms: seq<Move>, a: nat, b: nat, r: Row, r': Row)
    requires Blank(cards) && Runs(cards, EMPTY, ms) && Names(names) && AllGuarded(names, EMPTY, Events(ms))
    requires var c := CardsEnd(cards, EMPTY, ms);
             && a in c && r in TableOf(c[a].g, c[a].d, c[a].root)
             && b in c && r' in TableOf(c[b].g, c[b].d, c[b].root)
    requires r.name == r'.name && (a != b || r != r')
    ensures a != b && r.id != r'.id && r.id < Current(ApplyAll(EMPTY, Events(ms)), r.name)
  {
    CardHasRow(cards, ms, a);
    CardHasRow(cards, ms, b);
    RowsAreDistinct(names, Events(ms), a, b, r, r');
  }
}
