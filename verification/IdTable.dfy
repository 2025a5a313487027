/** The id table of a disk as a list of rows, and what `id_for_dfs` (pi-src/main.c) does to it. */
module IdTable {
  import opened Bytes
  import opened CString

  const NAME_LEN := 30
  const ENTRIES := 16

  datatype Row = Row(name: seq<Byte>, id: nat)

  /** Same name as far as `strncmp` can tell. */
  predicate Alike(a: seq<Byte>, b: seq<Byte>) {
    a <= b || b <= a
  }

  /** Index of the first row for `name`, or the number of rows. */
  function Find(rows: seq<Row>, name: seq<Byte>): (k: nat)
    ensures k <= |rows|
    ensures forall i :: 0 <= i < k ==> !Alike(rows[i].name, name)
    ensures k < |rows| ==> Alike(rows[k].name, name)
  {
    if rows == [] || Alike(rows[0].name, name) then 0 else 1 + Find(rows[1..], name)
  }

  lemma FindIs(rows: seq<Row>, name: seq<Byte>, k: nat)
    requires k <= |rows| && forall i :: 0 <= i < k ==> !Alike(rows[i].name, name)
    requires k < |rows| ==> Alike(rows[k].name, name)
    ensures Find(rows, name) == k
  {
  }

  // ---- the lookup that assigns ----

  /** What the call comes to: it hangs, it returns the recorded id, or it returns -1. */
  datatype Answer = Halt | Recorded(id: nat) | Unassigned

  /** The answer of a call on a table. */
  function Respond(rows: seq<Row>, name: seq<Byte>, assign: int): Answer {
    var k := Find(rows, name);
    if k < |rows| then Recorded(rows[k].id)
    else if |rows| < ENTRIES && assign == -1 then Halt
    else Unassigned
  }

  /** The table after that call. */
  function Updated(rows: seq<Row>, name: seq<Byte>, assign: int): seq<Row> {
    if Respond(rows, name, assign) == Unassigned && |rows| < ENTRIES
    then rows + [Row(Clip(name, NAME_LEN - 1), assign % 0x1_0000)]
    else rows
  }

  // ---- ids do not change ----

  lemma FindExtends(rows: seq<Row>, more: seq<Row>, name: seq<Byte>)
    requires Find(rows, name) < |rows|
    ensures Find(rows + more, name) == Find(rows, name)
  {
    FindIs(rows + more, name, Find(rows, name));
  }

  /** A name with a row keeps its id, whatever call follows and whatever id is offered. */
  lemma RecordedStays(rows: seq<Row>, name: seq<Byte>, assign: int, other: seq<Byte>, assign': int)
    requires Respond(rows, name, assign).Recorded?
    ensures Respond(Updated(rows, other, assign'), name, assign) == Respond(rows, name, assign)
    ensures Updated(rows, name, assign) == rows
  {
    var more := Updated(rows, other, assign')[|rows|..];
    assert Updated(rows, other, assign') == rows + more;
    FindExtends(rows, more, name);
  }

  /** An answer of -1 is given once: the next call under that name returns the id, cut to 16 bits, if
      and only if there was room for a row. A full table hands out a new id at every call. */
  lemma AssignedOnce(rows: seq<Row>, name: seq<Byte>, assign: int, assign': int)
    requires |rows| <= ENTRIES && Respond(rows, name, assign) == Unassigned
    ensures Respond(Updated(rows, name, assign), name, assign') == Recorded(assign % 0x1_0000) <==> |rows| < ENTRIES
    ensures |rows| == ENTRIES ==> Respond(Updated(rows, name, assign), name, assign') == Unassigned
  {
    if |rows| < ENTRIES {
      var row := Row(Clip(name, NAME_LEN - 1), assign % 0x1_0000);
      assert Alike(row.name, name);
      FindIs(rows + [row], name, |rows|);
    }
  }
}
