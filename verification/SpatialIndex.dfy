/** The cabinets' uniform grid on the X/Z plane. */
module SpatialIndex {

  type Cell = (int, int)   // the grid's "x:z" bucket names

  datatype Entry = Entry(id: string, x: real, z: real, payload: string)

  /** The index's private maps: buckets by cell, and each id's cell and entry. */
  datatype Grid = Grid(cellSize: real, cells: map<Cell, seq<Entry>>, entries: map<string, (Cell, Entry)>)

  function CellOf(cellSize: real, x: real, z: real): Cell
    requires cellSize > 0.0
  {
    ((x / cellSize).Floor, (z / cellSize).Floor)
  }

  function IndexOf(bucket: seq<Entry>, e: Entry): (at: int)
    ensures -1 <= at < |bucket|
    ensures at >= 0 ==> bucket[at] == e
    ensures at == -1 ==> e !in bucket
  {
    if bucket == [] then -1
    else if bucket[0] == e then 0
    else
      var at := IndexOf(bucket[1..], e);
      assert forall y :: y in bucket ==> y == bucket[0] || y in bucket[1..];
      if at == -1 then -1 else at + 1
  }

  function Spliced(bucket: seq<Entry>, e: Entry): seq<Entry> {
    var at := IndexOf(bucket, e);
    if at == -1 then bucket else bucket[..at] + bucket[at + 1..]
  }

  /** `remove(id)`. */
  function Removed(g: Grid, id: string): Grid {
    if id !in g.entries then g
    else
      var (key, entry) := g.entries[id];
      var rest := g.(entries := g.entries - {id});
      if key !in g.cells then rest
      else
        var bucket := Spliced(g.cells[key], entry);
        rest.(cells := if bucket == [] then g.cells - {key} else g.cells[key := bucket])
  }

  /** `insert(id, x, z, payload)`. */
  function Inserted(g: Grid, e: Entry): Grid
    requires g.cellSize > 0.0
  {
    var cleared := Removed(g, e.id);
    var key := CellOf(g.cellSize, e.x, e.z);
    var bucket := if key in cleared.cells then cleared.cells[key] + [e] else [e];
    cleared.(entries := cleared.entries[e.id := (key, e)], cells := cleared.cells[key := bucket])
  }

  datatype Change = Insert(e: Entry) | Remove(id: string) | Clear

  function Changed(g: Grid, change: Change): (r: Grid)
    requires g.cellSize > 0.0
    ensures r.cellSize == g.cellSize
  {
    match change
    case Insert(e) => Inserted(g, e)
    case Remove(id) => Removed(g, id)
    case Clear => Grid(g.cellSize, map[], map[])
  }

  function After(cellSize: real, changes: seq<Change>): (g: Grid)
    requires cellSize > 0.0
    ensures g.cellSize == cellSize
  {
    if changes == [] then Grid(cellSize, map[], map[])
    else Changed(After(cellSize, changes[..|changes| - 1]), changes[|changes| - 1])
  }

  /** What the index stands for: the live entries, by id, kept without any grid. */
  function Live(changes: seq<Change>): map<string, Entry> {
    if changes == [] then map[]
    else
      var earlier := Live(changes[..|changes| - 1]);
      match changes[|changes| - 1]
      case Insert(e) => earlier[e.id := e]
      case Remove(id) => earlier - {id}
      case Clear => map[]
  }

  function LiveIn(g: Grid): map<string, Entry> {
    map id | id in g.entries :: g.entries[id].1
  }

  ghost predicate DistinctIds(bucket: seq<Entry>) {
    forall i, j :: 0 <= i < j < |bucket| ==> bucket[i].id != bucket[j].id
  }

  /** Every bucketed entry is the one its id is registered with, in that cell. */
  ghost predicate BucketsRegistered(g: Grid) {
    forall cell :: cell in g.cells ==>
      && g.cells[cell] != []
      && DistinctIds(g.cells[cell])
      && forall e :: e in g.cells[cell] ==> e.id in g.entries && g.entries[e.id] == (cell, e)
  }

  /** Every registered id sits in the bucket its coordinates name. */
  ghost predicate EntriesBucketed(g: Grid)
    requires g.cellSize > 0.0
  {
    forall id :: id in g.entries ==>
      var (cell, e) := g.entries[id];
      e.id == id && cell == CellOf(g.cellSize, e.x, e.z) && cell in g.cells && e in g.cells[cell]
  }

  ghost predicate Valid(g: Grid) {
    g.cellSize > 0.0 && BucketsRegistered(g) && EntriesBucketed(g)
  }

  lemma SplicedBucket(bucket: seq<Entry>, e: Entry)
    requires DistinctIds(bucket) && e in bucket
    ensures var rest := Spliced(bucket, e);
            && DistinctIds(rest) && |rest| == |bucket| - 1
            && forall y :: y in rest <==> y in bucket && y.id != e.id
  {
    var at := IndexOf(bucket, e);
    var rest := Spliced(bucket, e);
    assert forall k :: 0 <= k < |rest| ==> rest[k] == bucket[if k < at then k else k + 1];
    forall y ensures y in rest <==> y in bucket && y.id != e.id {
      if y in bucket && y.id != e.id {
        var k :| 0 <= k < |bucket| && bucket[k] == y;
        assert rest[if k < at then k else k - 1] == y;
      }
    }
  }

  lemma {:induction false} RemovedKeepsBuckets(g: Grid, id: string)
    requires Valid(g) && id in g.entries
    ensures BucketsRegistered(Removed(g, id))
  {
    SplicedBucket(g.cells[g.entries[id].0], g.entries[id].1);
  }

  lemma {:induction false} RemovedKeepsEntries(g: Grid, id: string)
    requires Valid(g) && id in g.entries
    ensures EntriesBucketed(Removed(g, id)) && Removed(g, id).entries == g.entries - {id}
  {
    SplicedBucket(g.cells[g.entries[id].0], g.entries[id].1);
  }

  lemma {:induction false} RemovedKeepsValid(g: Grid, id: string)
    requires Valid(g)
    ensures Valid(Removed(g, id)) && LiveIn(Removed(g, id)) == LiveIn(g) - {id}
  {
    if id in g.entries {
      RemovedKeepsBuckets(g, id);
      RemovedKeepsEntries(g, id);
    }
  }

  lemma InsertedKeepsValid(g: Grid, e: Entry)
    requires Valid(g)
    ensures Valid(Inserted(g, e)) && LiveIn(Inserted(g, e)) == LiveIn(g)[e.id := e]
  {
    RemovedKeepsValid(g, e.id);
    InsertRemovesFirst(g, e);
    InsertedNew(Removed(g, e.id), e);
    MoveEntry(LiveIn(g), e);
  }

  /** Re-inserting leaves no stale copy: it is an insert after a remove. */
  lemma InsertRemovesFirst(g: Grid, e: Entry)
    requires g.cellSize > 0.0
    ensures e.id !in Removed(g, e.id).entries
    ensures Inserted(g, e) == Inserted(Removed(g, e.id), e)
  {
    var cleared := Removed(g, e.id);
    assert e.id !in cleared.entries;
    assert Removed(cleared, e.id) == cleared;
  }

  lemma MoveEntry(live: map<string, Entry>, e: Entry)
    ensures (live - {e.id})[e.id := e] == live[e.id := e]
  {}

  lemma InsertedNew(cleared: Grid, e: Entry)
    requires Valid(cleared) && e.id !in cleared.entries
    ensures Valid(Inserted(cleared, e)) && LiveIn(Inserted(cleared, e)) == LiveIn(cleared)[e.id := e]
  {
    var after := Inserted(cleared, e);
    BucketGains(cleared, e);
    forall id | id in after.entries
      ensures var (cell, y) := after.entries[id];
              y.id == id && cell == CellOf(after.cellSize, y.x, y.z) && cell in after.cells && y in after.cells[cell]
    {
      if id != e.id { assert id in cleared.entries && cleared.entries[id] == after.entries[id]; }
    }
  }

  lemma BucketGains(cleared: Grid, e: Entry)
    requires cleared.cellSize > 0.0 && BucketsRegistered(cleared) && e.id !in cleared.entries
    ensures var after := Inserted(cleared, e);
            && BucketsRegistered(after)
            && e in after.cells[CellOf(cleared.cellSize, e.x, e.z)]
            && forall cell, y :: cell in cleared.cells && y in cleared.cells[cell] ==> y in after.cells[cell]
  {
    var after, key := Inserted(cleared, e), CellOf(cleared.cellSize, e.x, e.z);
    var bucket := after.cells[key];
    assert bucket[|bucket| - 1] == e;
    forall cell | cell in after.cells
      ensures after.cells[cell] != [] && DistinctIds(after.cells[cell])
      ensures forall y :: y in after.cells[cell] ==> y.id in after.entries && after.entries[y.id] == (cell, y)
    {
      if cell != key || key !in cleared.cells {
        assert cell == key || after.cells[cell] == cleared.cells[cell];
      } else {
        assert forall k :: 0 <= k < |cleared.cells[key]| ==> cleared.cells[key][k] in cleared.cells[key];
      }
    }
  }

  /** Buckets keep the order of insertion, which is what decides between entries equally near: a new
      entry comes last in its own bucket, a removal closes the gap, and no other bucket changes. */
  lemma {:induction false} BucketsKeepOrder(g: Grid, e: Entry, cell: Cell)
    requires Valid(g)
    ensures var inserted := Inserted(g, e);
            e.id !in g.entries ==>
              if cell == CellOf(g.cellSize, e.x, e.z)
              then cell in inserted.cells && inserted.cells[cell] == (if cell in g.cells then g.cells[cell] else []) + [e]
              else (cell in inserted.cells <==> cell in g.cells) && (cell in g.cells ==> inserted.cells[cell] == g.cells[cell])
    ensures var removed := Removed(g, e.id);
            e.id in g.entries && cell in g.cells ==>
              if g.entries[e.id].0 != cell then cell in removed.cells && removed.cells[cell] == g.cells[cell]
              else
                var rest := if cell in removed.cells then removed.cells[cell] else [];
                exists at :: 0 <= at < |g.cells[cell]| && g.cells[cell][at].id == e.id
                             && rest == g.cells[cell][..at] + g.cells[cell][at + 1..]
  {
    if e.id in g.entries && cell in g.cells && g.entries[e.id].0 == cell {
      var at := IndexOf(g.cells[cell], g.entries[e.id].1);
      assert g.cells[cell][at] == g.entries[e.id].1;
    }
  }

  /** After any sequence of inserts, removes and clears the grid holds exactly the live
      entries, each in the one bucket its coordinates name, and keeps no empty bucket. */
  lemma {:induction false} GridHoldsExactlyTheLive(cellSize: real, changes: seq<Change>)
    requires cellSize > 0.0
    ensures Valid(After(cellSize, changes)) && LiveIn(After(cellSize, changes)) == Live(changes)
  {
    if changes != [] {
      GridHoldsExactlyTheLive(cellSize, changes[..|changes| - 1]);
      var before := After(cellSize, changes[..|changes| - 1]);
      match changes[|changes| - 1]
      case Insert(e) => InsertedKeepsValid(before, e);
      case Remove(id) => RemovedKeepsValid(before, id);
      case Clear =>
    }
  }

  /** `cellCount` counts the cells some live entry names, no more. */
  lemma OccupiedCells(g: Grid, cell: Cell)
    requires Valid(g)
    ensures cell in g.cells <==>
            exists id :: id in LiveIn(g) && CellOf(g.cellSize, LiveIn(g)[id].x, LiveIn(g)[id].z) == cell
  {
    if cell in g.cells {
      var e := g.cells[cell][0];
      assert e in g.cells[cell];
      assert e.id in LiveIn(g) && LiveIn(g)[e.id] == e;
    }
  }
}
