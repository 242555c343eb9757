/** The temple's ring of twelve machines, from the bearings they are placed at. */
module ZeldaRing {
  import opened Plane
  import opened SquareRoot
  import opened CircularColliders

  /** The cosine of a difference of angles. */
  predicate Difference(cos: real -> real, sin: real -> real, a: real, b: real) {
    cos(a - b) == cos(a) * cos(b) + sin(a) * sin(b)
  }

  /** The other way round, and once round. */
  predicate Mirrored(cos: real -> real, sin: real -> real, a: real) {
    cos(-a) == cos(a) && sin(-a) == -sin(a) && cos(360.0 - a) == cos(a)
  }

  predicate Falls(cos: real -> real, a: real, b: real) { 0.0 <= a <= b <= 180.0 ==> cos(b) <= cos(a) }

  /** `Math.cos` and `Math.sin`, of an angle in degrees: what of them the ring depends on. */
  ghost predicate IsTrig(cos: real -> real, sin: real -> real) {
    && cos(0.0) == 1.0 && cos(90.0) == 0.0
    && (forall a: real, b: real :: Difference(cos, sin, a, b))
    && (forall a: real :: Mirrored(cos, sin, a))
    && (forall a: real, b: real :: Falls(cos, a, b))
  }

  /** The ring leaves sixty degrees open towards the door. */
  function Bearing(index: nat): real { 30.0 + index as real * (300.0 / 11.0) }

  function Ring(cos: real -> real, sin: real -> real): (spots: seq<Point>)
    ensures |spots| == 12 && forall k :: 0 <= k < 12 ==> spots[k] == Spot(cos, sin, k)
  {
    seq(12, k requires 0 <= k => Spot(cos, sin, k))
  }

  function Spot(cos: real -> real, sin: real -> real, k: nat): Point {
    OnRing(cos(Bearing(k)), sin(Bearing(k)))
  }

  lemma UnitCircle(cos: real -> real, sin: real -> real, a: real)
    requires IsTrig(cos, sin)
    ensures Sq(cos(a)) + Sq(sin(a)) == 1.0
  {
    assert Difference(cos, sin, a, a);
    assert a - a == 0.0;
  }

  lemma DoubleAngle(cos: real -> real, sin: real -> real, a: real)
    requires IsTrig(cos, sin)
    ensures cos(2.0 * a) == 2.0 * Sq(cos(a)) - 1.0
  {
    assert Difference(cos, sin, a, -a);
    assert a - -a == 2.0 * a;
    assert Mirrored(cos, sin, a);
    UnitCircle(cos, sin, a);
  }

  lemma AtMost(v: real, bound: real, square: real)
    requires bound >= 0.0 && Sq(v) <= square < Sq(bound)
    ensures v < bound
  {
    if v > bound { SqIncreases(bound, v); }
  }

  lemma EighthTurn(cos: real -> real, sin: real -> real)
    requires IsTrig(cos, sin)
    ensures cos(22.5) < 0.925
  {
    DoubleAngle(cos, sin, 45.0);
    DoubleAngle(cos, sin, 22.5);
    assert 2.0 * 45.0 == 90.0 && 2.0 * 22.5 == 45.0;
    AtMost(cos(45.0), 0.708, 0.5);
    AtMost(cos(22.5), 0.925, 0.854);
  }

  /** Any two of the bearings are an eighth of a turn apart, either way round. */
  lemma BearingsApart(cos: real -> real, sin: real -> real, i: nat, j: nat)
    requires IsTrig(cos, sin) && i < j < 12
    ensures cos(Bearing(j) - Bearing(i)) < 0.925
  {
    var gap := Bearing(j) - Bearing(i);
    assert gap == (j - i) as real * (300.0 / 11.0);
    EighthTurn(cos, sin);
    var short := if gap <= 180.0 then gap else 360.0 - gap;
    assert Mirrored(cos, sin, gap) && Falls(cos, 22.5, short);
  }

  /** The squared chord between two points of a circle. */
  lemma Chord(r: real, c: real, s: real, c': real, s': real)
    requires Sq(c) + Sq(s) == 1.0 && Sq(c') + Sq(s') == 1.0
    ensures Sq(r * c - r * c') + Sq(r * s - r * s') == Times(Sq(r), 2.0 - 2.0 * (c' * c + s' * s))
  {
    SqProduct(r, c - c');
    SqProduct(r, s - s');
    SqDifference(c, c');
    SqDifference(s, s');
    assert r * c - r * c' == r * (c - c') && r * s - r * s' == r * (s - s');
    SumOfProducts(Sq(r), Sq(c - c'), Sq(s - s'));
  }

  lemma SumOfProducts(a: real, b: real, c: real)
    ensures a * b + a * c == Times(a, b + c)
  {}

  function OnRing(c: real, s: real): Point {
    Point(ZELDA_CENTRE.x + ZELDA_RING_RADIUS * c, ZELDA_CENTRE.z + ZELDA_RING_RADIUS * s)
  }

  lemma PlacesApart(c: real, s: real, c': real, s': real)
    requires Sq(c) + Sq(s) == 1.0 && Sq(c') + Sq(s') == 1.0 && c' * c + s' * s < 0.925
    ensures Squared(OnRing(c, s), OnRing(c', s')) >= 4.0 * (REACH * REACH)
  {
    var p, q, r := OnRing(c, s), OnRing(c', s'), ZELDA_RING_RADIUS;
    Chord(r, c, s, c', s');
    assert p.x - q.x == r * c - r * c' && p.z - q.z == r * s - r * s';
    WideEnough(2.0 - 2.0 * (c' * c + s' * s));
  }

  lemma {:induction false} BearingFacts(cos: real -> real, sin: real -> real, i: nat, j: nat)
    requires IsTrig(cos, sin) && i < j < 12
    ensures var a, b := Bearing(i), Bearing(j);
            && Sq(cos(a)) + Sq(sin(a)) == 1.0 && Sq(cos(b)) + Sq(sin(b)) == 1.0
            && cos(b) * cos(a) + sin(b) * sin(a) < 0.925
  {
    UnitCircle(cos, sin, Bearing(i));
    UnitCircle(cos, sin, Bearing(j));
    BearingsApart(cos, sin, i, j);
    assert Difference(cos, sin, Bearing(j), Bearing(i));
  }

  lemma {:induction false} SpotsApart(cos: real -> real, sin: real -> real, i: nat, j: nat)
    requires IsTrig(cos, sin) && i < j < 12
    ensures Squared(Spot(cos, sin, i), Spot(cos, sin, j)) >= 4.0 * (REACH * REACH)
  {
    BearingFacts(cos, sin, i, j);
    PlacesApart(cos(Bearing(i)), sin(Bearing(i)), cos(Bearing(j)), sin(Bearing(j)));
  }

  lemma WideEnough(v: real)
    requires v >= 0.15
    ensures Times(Sq(ZELDA_RING_RADIUS), v) >= 4.0 * (REACH * REACH)
  {}

  lemma PlacedOnTheRing(c: real, s: real)
    requires Sq(c) + Sq(s) == 1.0
    ensures Squared(OnRing(c, s), ZELDA_CENTRE) == ZELDA_RING_RADIUS * ZELDA_RING_RADIUS
  {
    var r, p := ZELDA_RING_RADIUS, OnRing(c, s);
    SqProduct(r, c);
    SqProduct(r, s);
    SumOfProducts(Sq(r), Sq(c), Sq(s));
    assert p.x - ZELDA_CENTRE.x == r * c && p.z - ZELDA_CENTRE.z == r * s;
  }

  /** Placed at their bearings, the twelve machines are spaced out. */
  lemma {:induction false} ZeldaRingIsSpacedOut(cos: real -> real, sin: real -> real)
    requires IsTrig(cos, sin)
    ensures SpacedOut(Ring(cos, sin))
  {
    var ring := Ring(cos, sin);
    forall i, j | 0 <= i < j < |ring| ensures Squared(ring[i], ring[j]) >= 4.0 * (REACH * REACH) {
      SpotsApart(cos, sin, i, j);
    }
  }

  /** And each lies on the ring. */
  lemma {:induction false} SpotIsOnTheRing(cos: real -> real, sin: real -> real, k: nat)
    requires IsTrig(cos, sin) && k < 12
    ensures Squared(Ring(cos, sin)[k], ZELDA_CENTRE) == ZELDA_RING_RADIUS * ZELDA_RING_RADIUS
  {
    UnitCircle(cos, sin, Bearing(k));
    PlacedOnTheRing(cos(Bearing(k)), sin(Bearing(k)));
  }

  /** So nobody who was clear of them is ever left inside one, early exit included. */
  lemma ZeldaRingIsSolid(previous: Point, p: Point, cos: real -> real, sin: real -> real, sqrt: real -> real)
    requires IsTrig(cos, sin) && IsSqrt(sqrt) && ClearOfAll(previous, Ring(cos, sin))
    ensures ClearOfAll(ZeldaResolved(previous, p, Ring(cos, sin), sqrt), Ring(cos, sin))
  {
    ZeldaRingIsSpacedOut(cos, sin);
    forall k | 0 <= k < 12 ensures Squared(Ring(cos, sin)[k], ZELDA_CENTRE) == ZELDA_RING_RADIUS * ZELDA_RING_RADIUS {
      SpotIsOnTheRing(cos, sin, k);
    }
    SpacedRingIsSolid(previous, p, Ring(cos, sin), sqrt);
  }
}
