/** Machines in rings and rows are circles a player is pushed out of. The resolver returns
    after the first push. */
module CircularColliders {
  import opened Plane
  import opened SquareRoot

  const REACH := 0.82 + 0.34

  function Squared(p: Point, q: Point): (d: real)
    ensures d >= 0.0
  {
    Sq(p.x - q.x) + Sq(p.z - q.z)
  }

  /** Outside a machine's circle, or just touching it. */
  predicate Clear(p: Point, spot: Point) { Squared(p, spot) >= REACH * REACH }

  ghost predicate ClearOfAll(p: Point, spots: seq<Point>) {
    forall k :: 0 <= k < |spots| ==> Clear(p, spots[k])
  }

  function Pushed(previous: Point, p: Point, spot: Point, distance: real): Point
    requires distance >= 0.0
  {
    if distance < 0.0001 then previous
    else Point(spot.x + (p.x - spot.x) / distance * REACH, spot.z + (p.z - spot.z) / distance * REACH)
  }

  function Resolved(previous: Point, p: Point, spots: seq<Point>, sqrt: real -> real): Point
    requires IsSqrt(sqrt)
  {
    if spots == [] then p
    else
      var distance := sqrt(Squared(p, spots[0]));
      assert IsRoot(distance, Squared(p, spots[0]));
      if distance >= REACH then Resolved(previous, p, spots[1..], sqrt)
      else Pushed(previous, p, spots[0], distance)
  }

  /** Different centres are at least twice the reach apart. */
  ghost predicate SpacedOut(spots: seq<Point>) {
    forall i, j :: 0 <= i < j < |spots| ==> spots[i] == spots[j] || Squared(spots[i], spots[j]) >= 4.0 * (REACH * REACH)
  }

  lemma ReachOrder(distance: real, v: real)
    requires IsRoot(distance, v)
    ensures distance >= REACH <==> v >= REACH * REACH
  {
    RootOrder(REACH, distance, REACH * REACH, v);
  }

  /** A push lands exactly on the circle. */
  lemma PushedOntoCircle(previous: Point, p: Point, spot: Point, distance: real)
    requires IsRoot(distance, Squared(p, spot)) && distance >= 0.0001
    ensures Squared(Pushed(previous, p, spot, distance), spot) == REACH * REACH
  {
    var u, v := (p.x - spot.x) / distance, (p.z - spot.z) / distance;
    assert u * distance == p.x - spot.x && v * distance == p.z - spot.z;
    assert distance * distance == Sq(distance);
    UnitVector(u, v, distance);
    CommonFactor(u, v, REACH);
    var q := Pushed(previous, p, spot, distance);
    assert q.x - spot.x == u * REACH && q.z - spot.z == v * REACH;
  }

  lemma UnitVector(u: real, v: real, d: real)
    requires d > 0.0 && Sq(u * d) + Sq(v * d) == Sq(d)
    ensures Sq(u) + Sq(v) == 1.0
  {
    SqIncreases(0.0, d);
    CommonFactor(u, v, d);
    OnlyFactorOne(Sq(u) + Sq(v), Sq(d));
  }

  function Times(a: real, b: real): real { a * b }

  lemma CommonFactor(u: real, v: real, d: real)
    ensures Sq(u * d) + Sq(v * d) == Times(Sq(u) + Sq(v), Sq(d))
  {
    assert Sq(u * d) == (u * u) * (d * d);
    assert Sq(v * d) == (v * v) * (d * d);
  }

  lemma OnlyFactorOne(a: real, b: real)
    requires b > 0.0 && Times(a, b) == b
    ensures a == 1.0
  {}

  /** Whatever lies on one circle is clear of every centre twice the reach away. */
  lemma OnCircleClearOfOthers(q: Point, spot: Point, other: Point)
    requires Squared(q, spot) == REACH * REACH && Squared(other, spot) >= 4.0 * (REACH * REACH)
    ensures Clear(q, other)
  {
    var wx, wz, vx, vz := q.x - spot.x, q.z - spot.z, other.x - spot.x, other.z - spot.z;
    HalfwayBound(wx, wz, vx, vz, REACH * REACH);
    SqDifference(wx, vx);
    SqDifference(wz, vz);
    assert q.x - other.x == wx - vx && q.z - other.z == wz - vz;
  }

  /** Cauchy's inequality, where it is needed: |w| at most half |v| gives 2 w.v <= v.v. */
  lemma HalfwayBound(wx: real, wz: real, vx: real, vz: real, r2: real)
    requires Sq(wx) + Sq(wz) == r2 && Sq(vx) + Sq(vz) >= 4.0 * r2
    ensures 2.0 * (wx * vx) + 2.0 * (wz * vz) <= Sq(vx) + Sq(vz)
  {
    var dot, v2 := wx * vx + wz * vz, Sq(vx) + Sq(vz);
    if 2.0 * dot > v2 {
      Lagrange(wx, wz, vx, vz);
      ProductOfNonNegatives(v2 - 4.0 * r2, v2);
      SquareIncreases(v2, 2.0 * dot);
    }
  }

  lemma Lagrange(wx: real, wz: real, vx: real, vz: real)
    ensures (Sq(wx) + Sq(wz)) * (Sq(vx) + Sq(vz)) == Sq(wx * vx + wz * vz) + Sq(wx * vz - wz * vx)
  {}

  /** One push is enough: a player who was clear of every machine is clear of every machine after. */
  lemma {:induction false} CollidersDoNotCascade(previous: Point, p: Point, all: seq<Point>, from: nat, sqrt: real -> real)
    requires IsSqrt(sqrt) && SpacedOut(all) && ClearOfAll(previous, all) && from <= |all|
    requires forall k :: 0 <= k < from ==> Clear(p, all[k])
    ensures ClearOfAll(Resolved(previous, p, all[from..], sqrt), all)
    decreases |all| - from
  {
    if from < |all| {
      var spot := all[from];
      var distance := sqrt(Squared(p, spot));
      assert IsRoot(distance, Squared(p, spot));
      ReachOrder(distance, Squared(p, spot));
      assert all[from..][0] == spot && all[from..][1..] == all[from + 1..];
      if distance >= REACH {
        CollidersDoNotCascade(previous, p, all, from + 1, sqrt);
      } else if distance >= 0.0001 {
        var q := Pushed(previous, p, spot, distance);
        PushedOntoCircle(previous, p, spot, distance);
        forall k | 0 <= k < |all| ensures Clear(q, all[k]) {
          SquaredSymmetric(all[k], spot);
          if all[k] != spot { OnCircleClearOfOthers(q, spot, all[k]); }
        }
      }
    }
  }

  /** Only a player inside some machine is moved. */
  lemma {:induction false} ClearPlayersStay(previous: Point, p: Point, spots: seq<Point>, sqrt: real -> real)
    requires IsSqrt(sqrt) && ClearOfAll(p, spots)
    ensures Resolved(previous, p, spots, sqrt) == p
  {
    if spots != [] {
      var distance := sqrt(Squared(p, spots[0]));
      assert IsRoot(distance, Squared(p, spots[0])) && Clear(p, spots[0]);
      ReachOrder(distance, Squared(p, spots[0]));
      forall k | 0 <= k < |spots[1..]| ensures Clear(p, spots[1..][k]) { assert spots[1..][k] == spots[k + 1]; }
      ClearPlayersStay(previous, p, spots[1..], sqrt);
    }
  }

  /** Among spaced-out machines, a player who was clear is moved exactly when the step ends inside one. */
  lemma MovesExactlyWhoeverIsInside(previous: Point, p: Point, spots: seq<Point>, sqrt: real -> real)
    requires IsSqrt(sqrt) && SpacedOut(spots) && ClearOfAll(previous, spots)
    ensures Resolved(previous, p, spots, sqrt) == p <==> ClearOfAll(p, spots)
  {
    assert spots[0..] == spots;
    CollidersDoNotCascade(previous, p, spots, 0, sqrt);
    if ClearOfAll(p, spots) { ClearPlayersStay(previous, p, spots, sqrt); }
  }

  /** For any list, a step ending inside a machine is pushed out of the first it is inside of. */
  lemma {:induction false} ResolvedIsPushed(previous: Point, p: Point, spots: seq<Point>, k: nat, sqrt: real -> real)
    requires IsSqrt(sqrt) && k < |spots| && !Clear(p, spots[k])
    requires forall j :: 0 <= j < k ==> Clear(p, spots[j])
    ensures Resolved(previous, p, spots, sqrt) == Pushed(previous, p, spots[k], sqrt(Squared(p, spots[k])))
  {
    var distance := sqrt(Squared(p, spots[0]));
    assert IsRoot(distance, Squared(p, spots[0]));
    ReachOrder(distance, Squared(p, spots[0]));
    if k > 0 {
      assert Clear(p, spots[0]);
      assert forall j :: 0 <= j < k - 1 ==> spots[1..][j] == spots[j + 1];
      ResolvedIsPushed(previous, p, spots[1..], k - 1, sqrt);
    }
  }

  /** From dead centre, where there is no way to push, the player is put back where they were. */
  lemma DeadCentreGoesBack(previous: Point, p: Point, spot: Point, distance: real)
    requires 0.0 <= distance < 0.0001
    ensures Pushed(previous, p, spot, distance) == previous && REACH == 1.16
  {}

  /** A push goes straight out, by the depth the step went in. */
  lemma PushIsStraight(previous: Point, p: Point, spot: Point, distance: real)
    requires IsRoot(distance, Squared(p, spot)) && distance >= 0.0001
    ensures Squared(p, Pushed(previous, p, spot, distance)) == Sq(REACH - distance)
  {
    var u, v := (p.x - spot.x) / distance, (p.z - spot.z) / distance;
    assert u * distance == p.x - spot.x && v * distance == p.z - spot.z;
    assert distance * distance == Sq(distance);
    UnitVector(u, v, distance);
    assert Pushed(previous, p, spot, distance) == AlongLine(spot, u, v, REACH) && p == AlongLine(spot, u, v, distance);
    AlongLineDistance(spot, u, v, distance, REACH);
    SqEven(REACH - distance);
    assert distance - REACH == -(REACH - distance);
  }

  lemma ApartByReach(p: Point, spot: Point, distance: real, q: Point, far: real)
    requires IsRoot(distance, Squared(p, spot)) && IsRoot(far, Squared(q, spot))
    ensures Squared(p, q) >= Sq(far - distance)
  {
    ApartAtLeast(p.x - spot.x, p.z - spot.z, q.x - spot.x, q.z - spot.z, distance, far);
    assert (p.x - spot.x) - (q.x - spot.x) == p.x - q.x && (p.z - spot.z) - (q.z - spot.z) == p.z - q.z;
  }

  /** A push is the shortest way out: no place clear of the machine is nearer to where the step ends. */
  lemma PushIsShortest(previous: Point, p: Point, spot: Point, distance: real, q: Point, far: real)
    requires IsRoot(distance, Squared(p, spot)) && 0.0001 <= distance < REACH
    requires IsRoot(far, Squared(q, spot)) && Clear(q, spot)
    ensures Squared(p, Pushed(previous, p, spot, distance)) == Sq(REACH - distance) <= Squared(p, q)
  {
    PushIsStraight(previous, p, spot, distance);
    ApartByReach(p, spot, distance, q, far);
    ReachOrder(far, Squared(q, spot));
    if far > REACH { SqIncreases(REACH - distance, far - distance); }
  }

  /** The triangle inequality, squared. */
  lemma {:induction false} ApartAtLeast(px: real, pz: real, qx: real, qz: real, p: real, q: real)
    requires p >= 0.0 && q >= 0.0 && Sq(px) + Sq(pz) == Sq(p) && Sq(qx) + Sq(qz) == Sq(q)
    ensures Sq(px - qx) + Sq(pz - qz) >= Sq(q - p)
  {
    Cauchy(px, pz, qx, qz, p, q);
    SqDifference(px, qx);
    SqDifference(pz, qz);
    SqDifference(q, p);
  }

  lemma Cauchy(px: real, pz: real, qx: real, qz: real, p: real, q: real)
    requires p >= 0.0 && q >= 0.0 && Sq(px) + Sq(pz) == Sq(p) && Sq(qx) + Sq(qz) == Sq(q)
    ensures px * qx + pz * qz <= p * q
  {
    var dot := px * qx + pz * qz;
    Lagrange(px, pz, qx, qz);
    SqProduct(p, q);
    ProductOfNonNegatives(p, q);
    assert (Sq(px) + Sq(pz)) * (Sq(qx) + Sq(qz)) == Sq(p) * Sq(q);
    assert Sq(dot) <= Sq(p * q);
    if dot > p * q { SqIncreases(p * q, dot); }
  }

  lemma SquaredSymmetric(p: Point, q: Point)
    ensures Squared(p, q) == Squared(q, p)
  {
    SqEven(p.x - q.x);
    SqEven(p.z - q.z);
    assert q.x - p.x == -(p.x - q.x) && q.z - p.z == -(p.z - q.z);
  }

  /** The point at `t` along a unit direction from `a`. */
  function AlongLine(a: Point, ux: real, uz: real, t: real): Point { Point(a.x + ux * t, a.z + uz * t) }

  lemma AlongLineDistance(a: Point, ux: real, uz: real, t: real, s: real)
    requires Sq(ux) + Sq(uz) == 1.0
    ensures Squared(AlongLine(a, ux, uz, t), AlongLine(a, ux, uz, s)) == Sq(t - s)
  {
    var p, q := AlongLine(a, ux, uz, t), AlongLine(a, ux, uz, s);
    CommonFactor(ux, uz, t - s);
    assert p.x - q.x == ux * (t - s) && p.z - q.z == uz * (t - s);
  }

  class Player {
    var x: real
    var z: real

    constructor (x: real, z: real)
      ensures this.x == x && this.z == z
    {
      this.x, this.z := x, z;
    }

    /** The loop the rooms share. */
    method ResolveCabinets(previousX: real, previousZ: real, spots: seq<Point>, sqrt: real -> real)
      requires IsSqrt(sqrt)
      modifies this
      ensures Point(x, z) == Resolved(Point(previousX, previousZ), old(Point(x, z)), spots, sqrt)
    {
      for k := 0 to |spots|
        invariant Point(x, z) == old(Point(x, z))
        invariant Resolved(Point(previousX, previousZ), Point(x, z), spots, sqrt)
                  == Resolved(Point(previousX, previousZ), Point(x, z), spots[k..], sqrt)
      {
        assert spots[k..][0] == spots[k] && spots[k..][1..] == spots[k + 1..];
        var offsetX, offsetZ := x - spots[k].x, z - spots[k].z;
        var distance := sqrt(Squared(Point(x, z), spots[k]));
        if distance >= REACH { continue; }
        if distance < 0.0001 {
          x, z := previousX, previousZ;
          return;
        }
        x := spots[k].x + offsetX / distance * REACH;
        z := spots[k].z + offsetZ / distance * REACH;
        return;
      }
    }

    method ResolveZeldaCabinets(previousX: real, previousZ: real, spots: seq<Point>, sqrt: real -> real)
      requires IsSqrt(sqrt)
      modifies this
      ensures Point(x, z) == ZeldaResolved(Point(previousX, previousZ), old(Point(x, z)), spots, sqrt)
    {
      if |spots| == 0 { return; }
      if Squared(Point(x, z), ZELDA_CENTRE) > 400.0 { return; }
      ResolveCabinets(previousX, previousZ, spots, sqrt);
    }

    /** Nobody who was clear of the garden's row is left inside one of its machines, early exits included. */
    method ResolveSonicCabinets(previousX: real, previousZ: real, spots: seq<Point>, sqrt: real -> real)
      requires IsSqrt(sqrt)
      modifies this
      ensures Point(x, z) == SonicResolved(Point(previousX, previousZ), old(Point(x, z)), spots, sqrt)
      ensures spots == SonicRow() && ClearOfAll(Point(previousX, previousZ), spots) ==> ClearOfAll(Point(x, z), spots)
    {
      ghost var previous, p := Point(previousX, previousZ), Point(x, z);
      if |spots| == 0 { return; }
      if x < 44.0 || z < 33.0 || z > 46.0 {
        if spots == SonicRow() {
          forall k | 0 <= k < 8 ensures Clear(p, SonicRow()[k]) { BeyondTheRow(p, k); }
        }
        return;
      }
      if spots == SonicRow() && ClearOfAll(previous, spots) {
        SonicRowIsSpacedOut();
        assert spots[0..] == spots;
        CollidersDoNotCascade(previous, p, spots, 0, sqrt);
      }
      ResolveCabinets(previousX, previousZ, spots, sqrt);
    }
  }

  const ZELDA_CENTRE := Point(-96.845, 42.0)
  const ZELDA_RING_RADIUS := 8.5

  function ZeldaResolved(previous: Point, p: Point, spots: seq<Point>, sqrt: real -> real): Point
    requires IsSqrt(sqrt)
  {
    if Squared(p, ZELDA_CENTRE) > 400.0 then p else Resolved(previous, p, spots, sqrt)
  }

  function SonicResolved(previous: Point, p: Point, spots: seq<Point>, sqrt: real -> real): Point
    requires IsSqrt(sqrt)
  {
    if p.x < 44.0 || p.z < 33.0 || p.z > 46.0 then p else Resolved(previous, p, spots, sqrt)
  }

  /** The machines of the garden row: three metres apart. */
  function SonicRow(): (spots: seq<Point>)
    ensures |spots| == 8 && forall k :: 0 <= k < 8 ==> spots[k] == Point(50.0 + 3.0 * k as real, 39.0)
  {
    seq(8, k => Point(50.0 + 3.0 * k as real, 39.0))
  }

  lemma SonicRowIsSpacedOut()
    ensures SpacedOut(SonicRow())
  {
    forall i, j | 0 <= i < j < 8 ensures Squared(SonicRow()[i], SonicRow()[j]) >= 4.0 * (REACH * REACH) {
      var gap := 3.0 * (j - i) as real;
      assert gap >= 3.0;
      assert SonicRow()[i].x - SonicRow()[j].x == -gap;
      SqEven(gap);
      SqIncreases(2.9, gap);
    }
  }

  /** Where the garden's resolver looks no further, every machine is out of reach. */
  lemma {:induction false} BeyondTheRow(p: Point, k: nat)
    requires (p.x < 44.0 || p.z < 33.0 || p.z > 46.0) && k < 8
    ensures Clear(p, SonicRow()[k])
  {
    FarOnOneAxis(p, SonicRow()[k]);
  }

  lemma FarOnOneAxis(p: Point, q: Point)
    requires p.x <= q.x - 6.0 || p.z <= q.z - 6.0 || p.z >= q.z + 6.0
    ensures Clear(p, q)
  {
    SqEven(p.x - q.x);
    SqEven(p.z - q.z);
    if p.x <= q.x - 6.0 { SqIncreases(5.0, -(p.x - q.x)); }
    else if p.z <= q.z - 6.0 { SqIncreases(5.0, -(p.z - q.z)); }
    else { SqIncreases(5.0, p.z - q.z); }
  }

  /** The temple's ring, wherever its machines stand on it, provided they are spaced out. */
  lemma SpacedRingIsSolid(previous: Point, p: Point, spots: seq<Point>, sqrt: real -> real)
    requires IsSqrt(sqrt) && SpacedOut(spots) && ClearOfAll(previous, spots)
    requires forall k :: 0 <= k < |spots| ==> Squared(spots[k], ZELDA_CENTRE) == ZELDA_RING_RADIUS * ZELDA_RING_RADIUS
    ensures ClearOfAll(ZeldaResolved(previous, p, spots, sqrt), spots)
  {
    if Squared(p, ZELDA_CENTRE) > 400.0 {
      forall k | 0 <= k < |spots| ensures Clear(p, spots[k]) { FarFromRing(p, spots[k], ZELDA_CENTRE); }
    } else {
      assert spots[0..] == spots;
      CollidersDoNotCascade(previous, p, spots, 0, sqrt);
    }
  }

  lemma FarFromRing(p: Point, spot: Point, centre: Point)
    requires Squared(p, centre) > 400.0 && Squared(spot, centre) == ZELDA_RING_RADIUS * ZELDA_RING_RADIUS
    ensures Clear(p, spot)
  {
    SumSquare(p.x - spot.x, spot.x - centre.x);
    SumSquare(p.z - spot.z, spot.z - centre.z);
    assert (p.x - spot.x) + (spot.x - centre.x) == p.x - centre.x;
    assert (p.z - spot.z) + (spot.z - centre.z) == p.z - centre.z;
  }

  lemma SumSquare(a: real, b: real)
    ensures Sq(a + b) <= 2.0 * Sq(a) + 2.0 * Sq(b)
  {
    SqDifference(a, -b);
    SqDifference(a, b);
    SqEven(b);
    assert Sq(a - b) >= 0.0;
    assert a - -b == a + b && a * -b == -(a * b);
  }
}
