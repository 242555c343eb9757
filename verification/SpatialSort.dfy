/** The distance order `queryRadius` returns, and the index object itself. */
module SpatialSort {
  import opened Wrappers
  import opened SquareRoot
  import opened SpatialIndex
  import opened SpatialQueries

  ghost predicate Sorted(s: seq<Near>) {
    forall i, j :: 0 <= i < j < |s| ==> s[i].distance <= s[j].distance
  }

  /** The elements at one distance, in order. */
  function AtDistance(s: seq<Near>, d: real): (r: seq<Near>)
    ensures |r| <= |s|
  {
    if s == [] then []
    else AtDistance(s[..|s| - 1], d) + if s[|s| - 1].distance == d then [s[|s| - 1]] else []
  }

  /** What `Array.prototype.sort` promises of `found.sort(by distance)`: ascending, and
      equal distances keep their order. The second half makes it a rearrangement too. */
  ghost predicate StablySorted(found: seq<Near>, sorted: seq<Near>) {
    Sorted(sorted) && forall d: real :: AtDistance(sorted, d) == AtDistance(found, d)
  }

  /** Inserts after every element that is not farther. */
  function Placed(sorted: seq<Near>, n: Near): seq<Near> {
    if sorted == [] || sorted[|sorted| - 1].distance <= n.distance then sorted + [n]
    else Placed(sorted[..|sorted| - 1], n) + [sorted[|sorted| - 1]]
  }

  function SortByDistance(found: seq<Near>): seq<Near> {
    if found == [] then [] else Placed(SortByDistance(found[..|found| - 1]), found[|found| - 1])
  }

  lemma AtDistanceSnoc(s: seq<Near>, n: Near, d: real)
    ensures AtDistance(s + [n], d) == AtDistance(s, d) + if n.distance == d then [n] else []
  {
    assert (s + [n])[..|s|] == s;
  }

  lemma {:induction false} NoneFarther(s: seq<Near>, d: real)
    requires forall k :: 0 <= k < |s| ==> s[k].distance != d
    ensures AtDistance(s, d) == []
  {
    if s != [] { NoneFarther(s[..|s| - 1], d); }
  }

  lemma {:induction false} PlacedBound(sorted: seq<Near>, n: Near, bound: real)
    requires n.distance <= bound && forall k :: 0 <= k < |sorted| ==> sorted[k].distance <= bound
    ensures forall k :: 0 <= k < |Placed(sorted, n)| ==> Placed(sorted, n)[k].distance <= bound
  {
    if sorted != [] { PlacedBound(sorted[..|sorted| - 1], n, bound); }
  }

  lemma {:induction false} PlacedSorted(sorted: seq<Near>, n: Near)
    requires Sorted(sorted)
    ensures Sorted(Placed(sorted, n))
  {
    if sorted != [] && n.distance < sorted[|sorted| - 1].distance {
      PlacedSorted(sorted[..|sorted| - 1], n);
      PlacedBound(sorted[..|sorted| - 1], n, sorted[|sorted| - 1].distance);
    }
  }

  lemma {:induction false} PlacedAt(sorted: seq<Near>, n: Near, d: real)
    requires Sorted(sorted)
    ensures AtDistance(Placed(sorted, n), d) == AtDistance(sorted, d) + if n.distance == d then [n] else []
  {
    if sorted == [] || sorted[|sorted| - 1].distance <= n.distance {
      AtDistanceSnoc(sorted, n, d);
    } else {
      var front, last := sorted[..|sorted| - 1], sorted[|sorted| - 1];
      PlacedAt(front, n, d);
      assert front + [last] == sorted;
      AtDistanceSnoc(front, last, d);
      AtDistanceSnoc(Placed(front, n), last, d);
      NeverBoth(AtDistance(front, d), n, last, d);
    }
  }

  lemma NeverBoth(before: seq<Near>, n: Near, last: Near, d: real)
    requires n.distance != last.distance
    ensures before + (if n.distance == d then [n] else []) + (if last.distance == d then [last] else [])
            == before + (if last.distance == d then [last] else []) + if n.distance == d then [n] else []
  {
    assert before + [] == before;
  }

  lemma {:induction false} SortIsStable(found: seq<Near>)
    ensures StablySorted(found, SortByDistance(found))
  {
    if found != [] {
      var front, last := found[..|found| - 1], found[|found| - 1];
      SortIsStable(front);
      assert front + [last] == found;
      forall d: real ensures AtDistance(SortByDistance(found), d) == AtDistance(found, d) {
        PlacedAt(SortByDistance(front), last, d);
        AtDistanceSnoc(front, last, d);
      }
      PlacedSorted(SortByDistance(front), last);
    }
  }

  lemma {:induction false} AtDistanceMembers(s: seq<Near>, n: Near)
    ensures n in AtDistance(s, n.distance) <==> n in s
  {
    if s != [] {
      AtDistanceMembers(s[..|s| - 1], n);
      assert s == s[..|s| - 1] + [s[|s| - 1]];
    }
  }

  lemma {:induction false} FirstAtDistance(s: seq<Near>)
    requires s != []
    ensures AtDistance(s, s[0].distance) != [] && AtDistance(s, s[0].distance)[0] == s[0]
  {
    if |s| > 1 { FirstAtDistance(s[..|s| - 1]); } else { assert AtDistance(s[..0], s[0].distance) == []; }
  }

  /** Sorting moves entries around and nothing else. */
  lemma SameMembers(found: seq<Near>, sorted: seq<Near>, n: Near)
    requires StablySorted(found, sorted)
    ensures n in found <==> n in sorted
  {
    AtDistanceMembers(found, n);
    AtDistanceMembers(sorted, n);
    assert AtDistance(sorted, n.distance) == AtDistance(found, n.distance);
  }

  ghost predicate SameByDistance(a: seq<Near>, b: seq<Near>) {
    forall d: real :: AtDistance(a, d) == AtDistance(b, d)
  }

  lemma LastNotAfter(a: seq<Near>, b: seq<Near>)
    requires a != [] && Sorted(b) && SameByDistance(a, b)
    ensures b != [] && a[|a| - 1].distance <= b[|b| - 1].distance
  {
    var p := a[|a| - 1];
    AtDistanceMembers(a, p);
    AtDistanceMembers(b, p);
    assert AtDistance(a, p.distance) == AtDistance(b, p.distance);
  }

  lemma SharedLast(a: seq<Near>, b: seq<Near>)
    requires a != [] && Sorted(a) && Sorted(b) && SameByDistance(a, b)
    ensures b != [] && a[|a| - 1] == b[|b| - 1]
  {
    LastNotAfter(a, b);
    LastNotAfter(b, a);
    LastAtDistance(a);
    LastAtDistance(b);
    assert AtDistance(a, a[|a| - 1].distance) == AtDistance(b, a[|a| - 1].distance);
  }

  lemma SameFront(a: seq<Near>, b: seq<Near>, tail: seq<Near>)
    requires a + tail == b + tail
    ensures a == b
  {
    assert |a| == |b|;
    assert a == (a + tail)[..|a|] && b == (b + tail)[..|b|];
  }

  /** Two stable sorts of one list are the same list: the specification leaves no freedom. */
  lemma {:induction false} StableSortIsUnique(a: seq<Near>, b: seq<Near>)
    requires Sorted(a) && Sorted(b) && SameByDistance(a, b)
    ensures a == b
    decreases |a|
  {
    if a != [] {
      SharedLast(a, b);
      var fa, fb, last := a[..|a| - 1], b[..|b| - 1], a[|a| - 1];
      assert fa + [last] == a && fb + [last] == b;
      forall d: real ensures AtDistance(fa, d) == AtDistance(fb, d) {
        AtDistanceSnoc(fa, last, d);
        AtDistanceSnoc(fb, last, d);
        assert AtDistance(a, d) == AtDistance(b, d);
        SameFront(AtDistance(fa, d), AtDistance(fb, d), if last.distance == d then [last] else []);
      }
      StableSortIsUnique(fa, fb);
    } else if b != [] {
      LastNotAfter(b, a);
    }
  }

  lemma LastAtDistance(s: seq<Near>)
    requires s != []
    ensures var at := AtDistance(s, s[|s| - 1].distance);
            at != [] && at[|at| - 1] == s[|s| - 1]
  {}

  function NearOf(e: Entry, far: Entry -> real, sqrt: real -> real): Near { Near(e, sqrt(far(e))) }

  /** `n` is the first of the closest in `found`. */
  ghost predicate Heads(n: Near, found: seq<Near>) {
    && AtDistance(found, n.distance) != [] && AtDistance(found, n.distance)[0] == n
    && forall k :: 0 <= k < |found| ==> n.distance <= found[k].distance
  }

  lemma HeadsNext(n: Near, found: seq<Near>, m: Near)
    requires Heads(n, found) || found == []
    ensures found != [] && n.distance <= m.distance ==> Heads(n, found + [m])
    ensures found == [] || m.distance < n.distance ==> Heads(m, found + [m])
  {
    AtDistanceSnoc(found, m, n.distance);
    AtDistanceSnoc(found, m, m.distance);
    if found == [] || m.distance < n.distance { NoneFarther(found, m.distance); }
  }

  /** While nothing closer turns up, the best entry heads the list at its own distance. */
  lemma {:induction false} BestHeads(scan: seq<Entry>, far: Entry -> real, limit: real, sqrt: real -> real)
    requires IsSqrt(sqrt) && forall e :: far(e) >= 0.0
    ensures var best, found := Best(scan, far, limit), Found(scan, far, limit, sqrt);
            (best.None? <==> found == []) && (best.Some? ==> Heads(NearOf(best.value, far, sqrt), found))
  {
    if scan != [] {
      var rest, e := scan[..|scan| - 1], scan[|scan| - 1];
      BestHeads(rest, far, limit, sqrt);
      var was, found, m := Best(rest, far, limit), Found(rest, far, limit, sqrt), NearOf(e, far, sqrt);
      assert Found(scan, far, limit, sqrt) == if far(e) <= limit then found + [m] else found;
      if was.Some? {
        var n := NearOf(was.value, far, sqrt);
        RootOrder(n.distance, m.distance, far(was.value), far(e));
        HeadsNext(n, found, m);
      } else {
        HeadsNext(m, found, m);
      }
    }
  }

  /** The head of a stably sorted query is the very entry `nearest` returns. */
  lemma {:induction false} QueryHeadIsNearest(scan: seq<Entry>, x: real, z: real, limit: real, sqrt: real -> real, sorted: seq<Near>)
    requires IsSqrt(sqrt) && StablySorted(Found(scan, From(x, z), limit, sqrt), sorted)
    ensures var best := Best(scan, From(x, z), limit);
            && (best.None? <==> sorted == [])
            && (best.Some? ==> sorted[0].entry == best.value)
  {
    var far := From(x, z);
    var found, best := Found(scan, far, limit, sqrt), Best(scan, far, limit);
    BestHeads(scan, far, limit, sqrt);
    if sorted != [] {
      SameMembers(found, sorted, sorted[0]);
      assert sorted[0] in found;
    }
    if best.Some? {
      var n := NearOf(best.value, far, sqrt);
      AtDistanceMembers(found, AtDistance(found, n.distance)[0]);
      SameMembers(found, sorted, n);
      FirstAtDistance(sorted);
      assert sorted[0].distance == n.distance;
      assert AtDistance(sorted, n.distance) == AtDistance(found, n.distance);
    }
  }

  ghost predicate NoRepeats(s: seq<Near>) {
    forall i, j :: 0 <= i < j < |s| ==> s[i] != s[j]
  }

  lemma {:induction false} AtDistanceNoRepeats(s: seq<Near>, d: real)
    requires NoRepeats(s)
    ensures NoRepeats(AtDistance(s, d))
  {
    if s != [] {
      var front, last := s[..|s| - 1], s[|s| - 1];
      AtDistanceNoRepeats(front, d);
      AtDistanceMembers(front, last);
    }
  }

  lemma {:induction false} NoRepeatsByDistance(s: seq<Near>)
    requires forall d: real :: NoRepeats(AtDistance(s, d))
    ensures NoRepeats(s)
  {
    if s != [] {
      var front, last := s[..|s| - 1], s[|s| - 1];
      assert front + [last] == s;
      forall d: real ensures NoRepeats(AtDistance(front, d)) {
        AtDistanceSnoc(front, last, d);
        assert NoRepeats(AtDistance(s, d));
        assert AtDistance(front, d) == AtDistance(s, d)[..|AtDistance(front, d)|];
      }
      NoRepeatsByDistance(front);
      LastIsNew(front, last);
    }
  }

  lemma {:induction false} LastIsNew(front: seq<Near>, last: Near)
    requires NoRepeats(AtDistance(front + [last], last.distance))
    ensures forall k :: 0 <= k < |front| ==> front[k] != last
  {
    var before := AtDistance(front, last.distance);
    AtDistanceSnoc(front, last, last.distance);
    AtDistanceMembers(front, last);
    if last in before {
      var k :| 0 <= k < |before| && before[k] == last;
      assert (before + [last])[k] == (before + [last])[|before|];
    }
  }

  /** A stable sort repeats nothing the list did not repeat. */
  lemma {:induction false} SortedOnce(found: seq<Near>, sorted: seq<Near>)
    requires StablySorted(found, sorted) && NoRepeats(found)
    ensures NoRepeats(sorted)
  {
    forall d: real ensures NoRepeats(AtDistance(sorted, d)) {
      AtDistanceNoRepeats(found, d);
      assert AtDistance(sorted, d) == AtDistance(found, d);
    }
    NoRepeatsByDistance(sorted);
  }

  /** `queryRadius`, after any changes: exactly the live entries within the radius, each once,
      with its distance, nearest first, and headed by the entry `nearest` returns. */
  lemma {:induction false} QueryAgreesWithBruteForce(cellSize: real, changes: seq<Change>, x: real, z: real, radius: real,
                                                     sqrt: real -> real, sorted: seq<Near>)
    requires cellSize > 0.0 && radius >= 0.0 && IsSqrt(sqrt)
    requires var scan := Scan(After(cellSize, changes), WindowOf(cellSize, x, z, radius));
             StablySorted(Found(scan, From(x, z), radius * radius, sqrt), sorted)
    ensures var live := Live(changes);
            var best := Best(Scan(After(cellSize, changes), WindowOf(cellSize, x, z, radius)), From(x, z), radius * radius);
            && Sorted(sorted) && NoRepeats(sorted)
            && (forall n :: n in sorted <==>
                  IsLive(live, n.entry) && Within(n.entry, x, z, radius) && n.distance == sqrt(Squared(n.entry, x, z)))
            && (best.None? <==> sorted == []) && (best.Some? ==> sorted[0].entry == best.value)
  {
    var scan := Scan(After(cellSize, changes), WindowOf(cellSize, x, z, radius));
    var found := Found(scan, From(x, z), radius * radius, sqrt);
    QueryFindsExactlyTheLiveWithin(cellSize, changes, x, z, radius, sqrt);
    SortedOnce(found, sorted);
    QueryHeadIsNearest(scan, x, z, radius * radius, sqrt, sorted);
    forall n ensures n in sorted <==> n in found { SameMembers(found, sorted, n); }
  }

  /** By Euclid, in coordinates. */
  lemma Euclid(n: Near, x: real, z: real, radius: real, sqrt: real -> real)
    requires IsSqrt(sqrt)
    ensures var e := n.entry; var squared := (e.x - x) * (e.x - x) + (e.z - z) * (e.z - z);
            && (Within(e, x, z, radius) <==> squared <= radius * radius)
            && (n.distance == sqrt(Squared(e, x, z)) <==> n.distance >= 0.0 && n.distance * n.distance == squared)
  {
    var squared := Squared(n.entry, x, z);
    assert IsRoot(sqrt(squared), squared);
    if IsRoot(n.distance, squared) { RootOrder(n.distance, sqrt(squared), squared, squared); }
  }

  lemma {:induction false} QueryMember(cellSize: real, changes: seq<Change>, x: real, z: real, radius: real,
                                       sqrt: real -> real, sorted: seq<Near>, n: Near)
    requires cellSize > 0.0 && radius >= 0.0 && IsSqrt(sqrt)
    requires var scan := Scan(After(cellSize, changes), WindowOf(cellSize, x, z, radius));
             StablySorted(Found(scan, From(x, z), radius * radius, sqrt), sorted)
    ensures n in sorted <==>
            IsLive(Live(changes), n.entry) && Within(n.entry, x, z, radius) && n.distance == sqrt(Squared(n.entry, x, z))
  {
    QueryAgreesWithBruteForce(cellSize, changes, x, z, radius, sqrt, sorted);
  }

  /** In coordinates: an entry is among those returned exactly when it is live and within the
      radius by Euclid, and its distance is the root of that. */
  lemma {:induction false} QueryIsEuclidean(cellSize: real, changes: seq<Change>, x: real, z: real, radius: real,
                                            sqrt: real -> real, sorted: seq<Near>, n: Near)
    requires cellSize > 0.0 && radius >= 0.0 && IsSqrt(sqrt)
    requires var scan := Scan(After(cellSize, changes), WindowOf(cellSize, x, z, radius));
             StablySorted(Found(scan, From(x, z), radius * radius, sqrt), sorted)
    ensures var e := n.entry;
            var squared := (e.x - x) * (e.x - x) + (e.z - z) * (e.z - z);
            n in sorted <==>
            && e.id in Live(changes) && Live(changes)[e.id] == e
            && squared <= radius * radius && n.distance >= 0.0 && n.distance * n.distance == squared
  {
    QueryMember(cellSize, changes, x, z, radius, sqrt, sorted, n);
    Euclid(n, x, z, radius, sqrt);
  }

  lemma {:induction false} ColumnNext(g: Grid, cellX: int, low: int, cellZ: int, columns: seq<Entry>)
    requires low <= cellZ
    ensures var bucket := BucketAt(g, (cellX, cellZ));
            columns + Column(g, cellX, low, cellZ + 1) == (columns + Column(g, cellX, low, cellZ)) + bucket
  {}

  lemma {:induction false} ColumnsNext(g: Grid, low: int, cellX: int, w: Window)
    requires low <= cellX
    ensures Columns(g, low, cellX + 1, w) == Columns(g, low, cellX, w) + Column(g, cellX, w.minZ, w.maxZ + 1)
  {}

  lemma WindowOrdered(cellSize: real, x: real, z: real, radius: real)
    requires cellSize > 0.0 && radius >= 0.0
    ensures var w := WindowOf(cellSize, x, z, radius); w.minX <= w.maxX && w.minZ <= w.maxZ
  {
    FloorMonotone(x - radius, x + radius, cellSize);
    FloorMonotone(z - radius, z + radius, cellSize);
  }

  lemma BestSnoc(scan: seq<Entry>, e: Entry, far: Entry -> real, limit: real)
    ensures Best(scan + [e], far, limit) == Better(Best(scan, far, limit), e, far, limit)
  {
    assert (scan + [e])[..|scan|] == scan;
  }

  lemma FoundSnoc(scan: seq<Entry>, e: Entry, far: Entry -> real, limit: real, sqrt: real -> real)
    ensures Found(scan + [e], far, limit, sqrt) ==
            Found(scan, far, limit, sqrt) + if far(e) <= limit then [NearOf(e, far, sqrt)] else []
  {
    assert (scan + [e])[..|scan|] == scan;
  }

  /** The innermost loop of `nearest`: one bucket, after `seen`. */
  method CloserIn(bucket: seq<Entry>, far: Entry -> real, limit: real, was: Option<Entry>, ghost seen: seq<Entry>)
    returns (best: Option<Entry>)
    requires was == Best(seen, far, limit)
    ensures best == Best(seen + bucket, far, limit)
  {
    best := was;
    assert seen + bucket[..0] == seen;
    for k := 0 to |bucket|
      invariant best == Best(seen + bucket[..k], far, limit)
    {
      var entry := bucket[k];
      var squared := far(entry);
      assert seen + bucket[..k + 1] == (seen + bucket[..k]) + [entry];
      BestSnoc(seen + bucket[..k], entry, far, limit);
      if squared <= limit && (best.None? || squared < far(best.value)) { best := Some(entry); }
    }
    assert bucket[..|bucket|] == bucket;
  }

  /** The innermost loop of `queryRadius`: one bucket, after `seen`. */
  method MoreIn(bucket: seq<Entry>, far: Entry -> real, limit: real, sqrt: real -> real, was: seq<Near>, ghost seen: seq<Entry>)
    returns (found: seq<Near>)
    requires was == Found(seen, far, limit, sqrt)
    ensures found == Found(seen + bucket, far, limit, sqrt)
  {
    found := was;
    assert seen + bucket[..0] == seen;
    for k := 0 to |bucket|
      invariant found == Found(seen + bucket[..k], far, limit, sqrt)
    {
      var entry := bucket[k];
      var squared := far(entry);
      assert seen + bucket[..k + 1] == (seen + bucket[..k]) + [entry];
      FoundSnoc(seen + bucket[..k], entry, far, limit, sqrt);
      if squared <= limit { found := found + [Near(entry, sqrt(squared))]; }
    }
    assert bucket[..|bucket|] == bucket;
  }

  method CloserInColumn(g: Grid, cellX: int, w: Window, far: Entry -> real, limit: real, was: Option<Entry>, ghost seen: seq<Entry>)
    returns (best: Option<Entry>)
    requires w.minZ <= w.maxZ && was == Best(seen, far, limit)
    ensures best == Best(seen + Column(g, cellX, w.minZ, w.maxZ + 1), far, limit)
  {
    best := was;
    assert seen + Column(g, cellX, w.minZ, w.minZ) == seen;
    for cellZ := w.minZ to w.maxZ + 1
      invariant best == Best(seen + Column(g, cellX, w.minZ, cellZ), far, limit)
    {
      ghost var before := seen + Column(g, cellX, w.minZ, cellZ);
      var bucket := BucketAt(g, (cellX, cellZ));
      best := CloserIn(bucket, far, limit, best, before);
      ColumnNext(g, cellX, w.minZ, cellZ, seen);
      assert seen + Column(g, cellX, w.minZ, cellZ + 1) == before + bucket;
    }
  }

  method MoreInColumn(g: Grid, cellX: int, w: Window, far: Entry -> real, limit: real, sqrt: real -> real, was: seq<Near>, ghost seen: seq<Entry>)
    returns (found: seq<Near>)
    requires w.minZ <= w.maxZ && was == Found(seen, far, limit, sqrt)
    ensures found == Found(seen + Column(g, cellX, w.minZ, w.maxZ + 1), far, limit, sqrt)
  {
    found := was;
    assert seen + Column(g, cellX, w.minZ, w.minZ) == seen;
    for cellZ := w.minZ to w.maxZ + 1
      invariant found == Found(seen + Column(g, cellX, w.minZ, cellZ), far, limit, sqrt)
    {
      ghost var before := seen + Column(g, cellX, w.minZ, cellZ);
      var bucket := BucketAt(g, (cellX, cellZ));
      found := MoreIn(bucket, far, limit, sqrt, found, before);
      ColumnNext(g, cellX, w.minZ, cellZ, seen);
      assert seen + Column(g, cellX, w.minZ, cellZ + 1) == before + bucket;
    }
  }

  /** The outer loop of `nearest`. */
  method Closest(g: Grid, w: Window, far: Entry -> real, limit: real) returns (best: Option<Entry>)
    requires w.minX <= w.maxX && w.minZ <= w.maxZ
    ensures best == Best(Scan(g, w), far, limit)
  {
    best := None;
    for cellX := w.minX to w.maxX + 1
      invariant best == Best(Columns(g, w.minX, cellX, w), far, limit)
    {
      ghost var before := Columns(g, w.minX, cellX, w);
      best := CloserInColumn(g, cellX, w, far, limit, best, before);
      ColumnsNext(g, w.minX, cellX, w);
    }
  }

  /** The outer loop of `queryRadius`. */
  method Collect(g: Grid, w: Window, far: Entry -> real, limit: real, sqrt: real -> real) returns (found: seq<Near>)
    requires w.minX <= w.maxX && w.minZ <= w.maxZ
    ensures found == Found(Scan(g, w), far, limit, sqrt)
  {
    found := [];
    for cellX := w.minX to w.maxX + 1
      invariant found == Found(Columns(g, w.minX, cellX, w), far, limit, sqrt)
    {
      ghost var before := Columns(g, w.minX, cellX, w);
      found := MoreInColumn(g, cellX, w, far, limit, sqrt, found, before);
      ColumnsNext(g, w.minX, cellX, w);
    }
  }

  /** A registry row: one without a point is not indexed. */
  datatype Definition = Nowhere | Located(id: string, x: real, z: real, payload: string)

  function Placements(definitions: seq<Definition>): seq<Change> {
    if definitions == [] then []
    else
      var d := definitions[|definitions| - 1];
      Placements(definitions[..|definitions| - 1]) + if d.Located? then [Change.Insert(Entry(d.id, d.x, d.z, d.payload))] else []
  }

  lemma {:induction false} PlacementsGrow(cellSize: real, definitions: seq<Definition>)
    requires cellSize > 0.0 && definitions != []
    ensures var front, d := After(cellSize, Placements(definitions[..|definitions| - 1])), definitions[|definitions| - 1];
            After(cellSize, Placements(definitions))
            == if d.Located? then Inserted(front, Entry(d.id, d.x, d.z, d.payload)) else front
  {
    var front, d := Placements(definitions[..|definitions| - 1]), definitions[|definitions| - 1];
    if d.Located? {
      var insert := Change.Insert(Entry(d.id, d.x, d.z, d.payload));
      assert (front + [insert])[..|front|] == front;
    } else {
      assert front + [] == front;
    }
  }

  class CabinetSpatialIndex {
    var cells: map<Cell, seq<Entry>>
    var entries: map<string, (Cell, Entry)>
    const cellSize: real

    ghost function View(): Grid
      reads this
    {
      Grid(cellSize, cells, entries)
    }

    /** Indexes the definitions that have a point. */
    constructor (definitions: seq<Definition>, cellSize: real)
      requires cellSize > 0.0
      ensures this.cellSize == cellSize && View() == After(cellSize, Placements(definitions))
    {
      this.cellSize := cellSize;
      cells, entries := map[], map[];
      new;
      for k := 0 to |definitions|
        invariant View() == After(cellSize, Placements(definitions[..k]))
      {
        var definition := definitions[k];
        assert definitions[..k + 1][..k] == definitions[..k];
        PlacementsGrow(cellSize, definitions[..k + 1]);
        if definition.Located? { Insert(definition.id, definition.x, definition.z, definition.payload); }
      }
      assert definitions[..|definitions|] == definitions;
    }

    /** `new CabinetSpatialIndex`: a cell size that is not positive is an error. */
    static method Build(definitions: seq<Definition>, cellSize: real) returns (index: Option<CabinetSpatialIndex>)
      ensures index.None? <==> cellSize <= 0.0
      ensures index.Some? ==> fresh(index.value) && index.value.cellSize == cellSize
      ensures index.Some? ==> index.value.View() == After(cellSize, Placements(definitions))
    {
      if cellSize <= 0.0 { return None; }
      var made := new CabinetSpatialIndex(definitions, cellSize);
      index := Some(made);
    }

    method Remove(id: string)
      modifies this`cells, this`entries
      ensures View() == Removed(old(View()), id)
    {
      if id !in entries { return; }
      var existing := entries[id];
      entries := entries - {id};
      if existing.0 !in cells { return; }
      var bucket := cells[existing.0];
      var at := IndexOf(bucket, existing.1);
      if at != -1 {
        bucket := bucket[..at] + bucket[at + 1..];
        cells := cells[existing.0 := bucket];
      }
      if |bucket| == 0 { cells := cells - {existing.0}; }
    }

    method Insert(id: string, x: real, z: real, payload: string)
      requires cellSize > 0.0
      modifies this`cells, this`entries
      ensures View() == Inserted(old(View()), Entry(id, x, z, payload))
    {
      Remove(id);
      var key := CellOf(cellSize, x, z);
      var entry := Entry(id, x, z, payload);
      entries := entries[id := (key, entry)];
      if key in cells {
        cells := cells[key := cells[key] + [entry]];
      } else {
        cells := cells[key := [entry]];
      }
    }

    method Clear()
      modifies this`cells, this`entries
      ensures View() == Grid(cellSize, map[], map[])
    {
      cells, entries := map[], map[];
    }

    method Nearest(x: real, z: real, radius: real) returns (best: Option<Entry>)
      requires cellSize > 0.0
      ensures best == if radius < 0.0 then None
                      else Best(Scan(View(), WindowOf(cellSize, x, z, radius)), From(x, z), radius * radius)
    {
      if radius < 0.0 { return None; }
      WindowOrdered(cellSize, x, z, radius);
      var g := Grid(cellSize, cells, entries);
      best := Closest(g, WindowOf(cellSize, x, z, radius), From(x, z), radius * radius);
    }

    method QueryRadius(x: real, z: real, radius: real, sqrt: real -> real) returns (sorted: seq<Near>)
      requires cellSize > 0.0
      ensures radius < 0.0 ==> sorted == []
      ensures radius >= 0.0 ==>
                StablySorted(Found(Scan(View(), WindowOf(cellSize, x, z, radius)), From(x, z), radius * radius, sqrt), sorted)
    {
      if radius < 0.0 { return []; }
      WindowOrdered(cellSize, x, z, radius);
      var g := Grid(cellSize, cells, entries);
      var found := Collect(g, WindowOf(cellSize, x, z, radius), From(x, z), radius * radius, sqrt);
      SortIsStable(found);
      sorted := SortByDistance(found);
    }
  }
}
