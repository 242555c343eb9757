/** `nearest` and `queryRadius` scan a window of cells; here they are compared with a scan
    of every live entry. */
module SpatialQueries {
  import opened Wrappers
  import opened SquareRoot
  import opened SpatialIndex

  function Squared(e: Entry, x: real, z: real): (d: real)
    ensures d >= 0.0
  {
    (e.x - x) * (e.x - x) + (e.z - z) * (e.z - z)
  }

  predicate Within(e: Entry, x: real, z: real, radius: real) {
    Squared(e, x, z) <= radius * radius
  }

  /** The cells a query visits. */
  datatype Window = Window(minX: int, maxX: int, minZ: int, maxZ: int) {
    predicate Covers(cell: Cell) { minX <= cell.0 <= maxX && minZ <= cell.1 <= maxZ }
  }

  function WindowOf(cellSize: real, x: real, z: real, radius: real): Window
    requires cellSize > 0.0
  {
    var low, high := CellOf(cellSize, x - radius, z - radius), CellOf(cellSize, x + radius, z + radius);
    Window(low.0, high.0, low.1, high.1)
  }

  function BucketAt(g: Grid, cell: Cell): seq<Entry> {
    if cell in g.cells then g.cells[cell] else []
  }

  /** Buckets of column `cellX`, for `cellZ` from `low` up to but not including `high`. */
  function Column(g: Grid, cellX: int, low: int, high: int): seq<Entry>
    decreases high - low
  {
    if high <= low then [] else Column(g, cellX, low, high - 1) + BucketAt(g, (cellX, high - 1))
  }

  /** Columns `low` up to but not including `high`, in visiting order. */
  function Columns(g: Grid, low: int, high: int, w: Window): seq<Entry>
    decreases high - low
  {
    if high <= low then [] else Columns(g, low, high - 1, w) + Column(g, high - 1, w.minZ, w.maxZ + 1)
  }

  function Scan(g: Grid, w: Window): seq<Entry> { Columns(g, w.minX, w.maxX + 1, w) }

  /** The squared distance from a query point. */
  function From(x: real, z: real): Entry -> real { e => Squared(e, x, z) }

  /** Keeps the first strictly closest entry within the squared radius `limit`. */
  function Best(scan: seq<Entry>, far: Entry -> real, limit: real): (best: Option<Entry>) {
    if scan == [] then None else Better(Best(scan[..|scan| - 1], far, limit), scan[|scan| - 1], far, limit)
  }

  function Better(best: Option<Entry>, e: Entry, far: Entry -> real, limit: real): Option<Entry> {
    if far(e) <= limit && (best.None? || far(e) < far(best.value)) then Some(e) else best
  }

  datatype Near = Near(entry: Entry, distance: real)

  function Found(scan: seq<Entry>, far: Entry -> real, limit: real, sqrt: real -> real): seq<Near> {
    if scan == [] then []
    else
      var e := scan[|scan| - 1];
      Found(scan[..|scan| - 1], far, limit, sqrt) + if far(e) <= limit then [Near(e, sqrt(far(e)))] else []
  }

  lemma FloorMonotone(a: real, b: real, size: real)
    requires a <= b && size > 0.0
    ensures (a / size).Floor <= (b / size).Floor
  {
    assert (b - a) / size >= 0.0;
    assert b / size == a / size + (b - a) / size;
  }

  lemma AxisGap(d: real, other: real, radius: real)
    requires radius >= 0.0 && d * d + other * other <= radius * radius
    ensures -radius <= d <= radius
  {
    assert other * other >= 0.0;
    if d > radius { SquareIncreases(radius, d); }
    if -d > radius { SquareIncreases(radius, -d); }
  }

  lemma WithinBox(e: Entry, x: real, z: real, radius: real)
    requires radius >= 0.0 && Within(e, x, z, radius)
    ensures x - radius <= e.x <= x + radius && z - radius <= e.z <= z + radius
  {
    AxisGap(e.x - x, e.z - z, radius);
    AxisGap(e.z - z, e.x - x, radius);
  }

  /** The cell-window argument: whatever lies within the radius is bucketed inside the window. */
  lemma WindowCoversRadius(cellSize: real, e: Entry, x: real, z: real, radius: real)
    requires cellSize > 0.0 && radius >= 0.0 && Within(e, x, z, radius)
    ensures WindowOf(cellSize, x, z, radius).Covers(CellOf(cellSize, e.x, e.z))
  {
    WithinBox(e, x, z, radius);
    BoxCovered(cellSize, e.x, e.z, x, z, radius);
  }

  lemma BoxCovered(cellSize: real, ex: real, ez: real, x: real, z: real, radius: real)
    requires cellSize > 0.0
    requires x - radius <= ex <= x + radius && z - radius <= ez <= z + radius
    ensures WindowOf(cellSize, x, z, radius).Covers(CellOf(cellSize, ex, ez))
  {
    FloorMonotone(x - radius, ex, cellSize);
    FloorMonotone(ex, x + radius, cellSize);
    FloorMonotone(z - radius, ez, cellSize);
    FloorMonotone(ez, z + radius, cellSize);
  }

  lemma {:induction false} ColumnMembers(g: Grid, cellX: int, low: int, high: int, e: Entry)
    ensures e in Column(g, cellX, low, high) <==> exists cellZ :: low <= cellZ < high && e in BucketAt(g, (cellX, cellZ))
    decreases high - low
  {
    if low < high { ColumnMembers(g, cellX, low, high - 1, e); }
  }

  lemma {:induction false} ColumnsMembers(g: Grid, low: int, high: int, w: Window, e: Entry)
    ensures e in Columns(g, low, high, w) <==>
            exists cellX, cellZ :: low <= cellX < high && w.minZ <= cellZ <= w.maxZ && e in BucketAt(g, (cellX, cellZ))
    decreases high - low
  {
    if low < high {
      ColumnsMembers(g, low, high - 1, w, e);
      ColumnMembers(g, high - 1, w.minZ, w.maxZ + 1, e);
    }
  }

  /** The scan sees exactly the live entries whose cell is in the window. */
  lemma ScanMembers(g: Grid, w: Window, e: Entry)
    requires Valid(g)
    ensures e in Scan(g, w) <==>
            e.id in LiveIn(g) && LiveIn(g)[e.id] == e && w.Covers(CellOf(g.cellSize, e.x, e.z))
  {
    ColumnsMembers(g, w.minX, w.maxX + 1, w, e);
    var cell := CellOf(g.cellSize, e.x, e.z);
    if e.id in LiveIn(g) && LiveIn(g)[e.id] == e && w.Covers(cell) {
      assert e in BucketAt(g, (cell.0, cell.1));
    }
    if e in Scan(g, w) {
      var cellX, cellZ :| w.minX <= cellX < w.maxX + 1 && w.minZ <= cellZ <= w.maxZ && e in BucketAt(g, (cellX, cellZ));
      assert g.entries[e.id] == ((cellX, cellZ), e);
    }
  }

  lemma DistinctAppend(a: seq<Entry>, b: seq<Entry>)
    requires DistinctIds(a) && DistinctIds(b)
    requires forall p, q :: p in a && q in b ==> p.id != q.id
    ensures DistinctIds(a + b)
  {
    forall i, j | 0 <= i < j < |a + b| ensures (a + b)[i].id != (a + b)[j].id {
      if i < |a| <= j { assert a[i] in a && b[j - |a|] in b; }
    }
  }

  lemma {:induction false} ColumnDistinct(g: Grid, cellX: int, low: int, high: int)
    requires Valid(g)
    ensures DistinctIds(Column(g, cellX, low, high))
    ensures forall e :: e in Column(g, cellX, low, high) ==>
              e.id in g.entries && g.entries[e.id].1 == e && g.entries[e.id].0.0 == cellX && low <= g.entries[e.id].0.1 < high
    decreases high - low
  {
    if low < high {
      ColumnDistinct(g, cellX, low, high - 1);
      DistinctAppend(Column(g, cellX, low, high - 1), BucketAt(g, (cellX, high - 1)));
    }
  }

  /** No live entry is visited twice. */
  lemma {:induction false} ColumnsDistinct(g: Grid, low: int, high: int, w: Window)
    requires Valid(g)
    ensures DistinctIds(Columns(g, low, high, w))
    ensures forall e :: e in Columns(g, low, high, w) ==>
              e.id in g.entries && g.entries[e.id].1 == e && low <= g.entries[e.id].0.0 < high
    decreases high - low
  {
    if low < high {
      ColumnsDistinct(g, low, high - 1, w);
      ColumnDistinct(g, high - 1, w.minZ, w.maxZ + 1);
      DistinctAppend(Columns(g, low, high - 1, w), Column(g, high - 1, w.minZ, w.maxZ + 1));
    }
  }

  lemma {:induction false} BestIsClosest(scan: seq<Entry>, far: Entry -> real, limit: real)
    ensures var best := Best(scan, far, limit);
            && (best.Some? ==> best.value in scan && far(best.value) <= limit)
            && (forall k :: 0 <= k < |scan| && far(scan[k]) <= limit ==>
                  best.Some? && far(best.value) <= far(scan[k]))
  {
    if scan != [] { BestIsClosest(scan[..|scan| - 1], far, limit); }
  }

  predicate IsLive(live: map<string, Entry>, e: Entry) { e.id in live && live[e.id] == e }

  /** `nearest`, after any changes: null exactly when no live entry is within the radius,
      otherwise a live entry no other live entry is closer than. */
  lemma NearestAgreesWithBruteForce(cellSize: real, changes: seq<Change>, x: real, z: real, radius: real)
    requires cellSize > 0.0 && radius >= 0.0
    ensures var live := Live(changes);
            var best := Best(Scan(After(cellSize, changes), WindowOf(cellSize, x, z, radius)), From(x, z), radius * radius);
            && (best.None? <==> forall e :: IsLive(live, e) ==> !Within(e, x, z, radius))
            && (best.Some? ==>
                  && IsLive(live, best.value) && Within(best.value, x, z, radius)
                  && forall e :: IsLive(live, e) ==> Squared(best.value, x, z) <= Squared(e, x, z))
  {
    var g, w, live := After(cellSize, changes), WindowOf(cellSize, x, z, radius), Live(changes);
    GridHoldsExactlyTheLive(cellSize, changes);
    var scan := Scan(g, w);
    var best := Best(scan, From(x, z), radius * radius);
    BestIsClosest(scan, From(x, z), radius * radius);
    if best.Some? { ScanMembers(g, w, best.value); }
    forall e | IsLive(live, e) && Within(e, x, z, radius)
      ensures best.Some? && Squared(best.value, x, z) <= Squared(e, x, z)
    {
      WindowCoversRadius(cellSize, e, x, z, radius);
      ScanMembers(g, w, e);
    }
  }

  lemma {:induction false} FoundMembers(scan: seq<Entry>, far: Entry -> real, limit: real, sqrt: real -> real)
    requires DistinctIds(scan)
    ensures var found := Found(scan, far, limit, sqrt);
            && (forall n :: n in found <==>
                  n.entry in scan && far(n.entry) <= limit && n.distance == sqrt(far(n.entry)))
            && (forall i, j :: 0 <= i < j < |found| ==> found[i].entry.id != found[j].entry.id)
  {
    if scan != [] {
      var e, rest := scan[|scan| - 1], scan[..|scan| - 1];
      FoundMembers(rest, far, limit, sqrt);
      assert forall y :: y in scan <==> y in rest || y == e;
      assert forall y :: y in rest ==> y.id != e.id;
      var earlier := Found(rest, far, limit, sqrt);
      assert forall k :: 0 <= k < |earlier| ==> earlier[k] in earlier;
    }
  }

  /** `queryRadius`, before sorting: exactly the live entries within the radius, each once. */
  lemma QueryFindsExactlyTheLiveWithin(cellSize: real, changes: seq<Change>, x: real, z: real, radius: real, sqrt: real -> real)
    requires cellSize > 0.0 && radius >= 0.0
    ensures var live := Live(changes);
            var found := Found(Scan(After(cellSize, changes), WindowOf(cellSize, x, z, radius)), From(x, z), radius * radius, sqrt);
            && (forall n :: n in found <==>
                  IsLive(live, n.entry) && Within(n.entry, x, z, radius) && n.distance == sqrt(Squared(n.entry, x, z)))
            && (forall i, j :: 0 <= i < j < |found| ==> found[i].entry.id != found[j].entry.id)
  {
    var g, w, live := After(cellSize, changes), WindowOf(cellSize, x, z, radius), Live(changes);
    GridHoldsExactlyTheLive(cellSize, changes);
    ColumnsDistinct(g, w.minX, w.maxX + 1, w);
    var scan := Scan(g, w);
    FoundMembers(scan, From(x, z), radius * radius, sqrt);
    forall e | Within(e, x, z, radius) ensures e in scan <==> IsLive(live, e) {
      WindowCoversRadius(cellSize, e, x, z, radius);
      ScanMembers(g, w, e);
    }
  }
}
