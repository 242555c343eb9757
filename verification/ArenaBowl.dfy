/** The arena's elliptical stands: solid everywhere but in the entrance tunnel's lane. */
module ArenaBowl {
  import opened Plane
  import opened SquareRoot

  const CX := 27.0
  const CZ := -108.45
  const AX := 38.7
  const AZ := 29.7
  const LANE_HALF_WIDTH := 1.5
  const REGION_Z := -70.0

  /** The squared distance from the middle, in units of the ellipse. */
  function Level(p: Point): (v: real)
    ensures v >= 0.0
  {
    var dx, dz := (p.x - CX) / AX, (p.z - CZ) / AZ;
    dx * dx + dz * dz
  }

  predicate Inside(p: Point) { Level(p) <= 1.0 }

  /** The tunnel's lane, on the doorway side only. */
  predicate InLane(p: Point) {
    -LANE_HALF_WIDTH < p.x - CX < LANE_HALF_WIDTH && p.z > CZ + AZ * 0.5
  }

  function Scaled(p: Point, scale: real): Point {
    Point(CX + (p.x - CX) * scale, CZ + (p.z - CZ) * scale)
  }

  function Resolved(previous: Point, p: Point, sqrt: real -> real): Point
    requires IsSqrt(sqrt) && Pushable(previous, p)
  {
    if p.z > REGION_Z || InLane(p) || Inside(previous) == Inside(p) then p
    else
      RootIsPositive(p, sqrt);
      Scaled(p, (if Inside(previous) then 0.995 else 1.005) / sqrt(Level(p)))
  }

  /** The division is safe: no push is due at the very middle, which has no direction to push in. */
  predicate Pushable(previous: Point, p: Point) { Inside(previous) == Inside(p) || Level(p) > 0.0 }

  lemma RootIsPositive(p: Point, sqrt: real -> real)
    requires IsSqrt(sqrt) && Level(p) > 0.0
    ensures sqrt(Level(p)) > 0.0
  {
    assert IsRoot(sqrt(Level(p)), Level(p));
  }

  /** A step no longer than a frame's stride. */
  predicate Bounded(previous: Point, p: Point) {
    (p.x - previous.x) * (p.x - previous.x) + (p.z - previous.z) * (p.z - previous.z) <= STRIDE * STRIDE
  }

  lemma BoundedAxes(previous: Point, p: Point)
    requires Bounded(previous, p)
    ensures -STRIDE <= p.x - previous.x <= STRIDE && -STRIDE <= p.z - previous.z <= STRIDE
  {
    AxisBound(p.x - previous.x, p.z - previous.z);
    AxisBound(p.z - previous.z, p.x - previous.x);
  }

  lemma AxisBound(a: real, b: real)
    requires a * a + b * b <= STRIDE * STRIDE
    ensures -STRIDE <= a <= STRIDE
  {
    assert b * b >= 0.0;
    if a > STRIDE { SquareIncreases(STRIDE, a); }
    if a < -STRIDE { SquareIncreases(STRIDE, -a); }
  }

  /** The resolver after a frame's step. */
  function Settled(previous: Point, p: Point, sqrt: real -> real): Point
    requires IsSqrt(sqrt) && Bounded(previous, p)
  {
    LeavesTheMiddle(previous, p);
    Resolved(previous, p, sqrt)
  }

  lemma SmallLevel(dx: real, dz: real)
    requires -STRIDE <= dx <= STRIDE && -STRIDE <= dz <= STRIDE
    ensures Level(Point(CX + dx, CZ + dz)) <= 1.0
  {
    var u, v := dx / AX, dz / AZ;
    assert -0.5 <= u <= 0.5 && -0.5 <= v <= 0.5;
    QuarterSquare(u);
    QuarterSquare(v);
    assert Point(CX + dx, CZ + dz).x - CX == dx && Point(CX + dx, CZ + dz).z - CZ == dz;
  }

  lemma QuarterSquare(u: real)
    requires -0.5 <= u <= 0.5
    ensures u * u <= 0.25
  {
    ProductOfNonNegatives(0.5 + u, 0.5 - u);
    assert (0.5 + u) * (0.5 - u) == 0.25 - u * u;
  }

  /** A crossing step never ends in the very middle, where there is no direction to push in. */
  lemma LeavesTheMiddle(previous: Point, p: Point)
    requires Bounded(previous, p)
    ensures Pushable(previous, p)
  {
    if Level(p) == 0.0 {
      AtTheMiddle(p);
      BoundedAxes(previous, p);
      assert previous == Point(CX + (previous.x - CX), CZ + (previous.z - CZ));
      SmallLevel(previous.x - CX, previous.z - CZ);
    }
  }

  lemma AtTheMiddle(p: Point)
    requires Level(p) == 0.0
    ensures p == Point(CX, CZ)
  {
    var u, v := (p.x - CX) / AX, (p.z - CZ) / AZ;
    assert u * u >= 0.0 && v * v >= 0.0;
    NoSquareRootButZero(u);
    NoSquareRootButZero(v);
  }

  lemma NoSquareRootButZero(u: real)
    requires u * u <= 0.0
    ensures u == 0.0
  {
    if u > 0.0 { SquareIncreases(0.0, u); }
    if u < 0.0 { SquareIncreases(0.0, -u); }
  }

  /** Scaling about the middle scales the level by the square. */
  lemma ScaledLevel(p: Point, scale: real)
    ensures Level(Scaled(p, scale)) == Level(p) * (scale * scale)
  {
    var u, v := (p.x - CX) / AX, (p.z - CZ) / AZ;
    var q := Scaled(p, scale);
    assert q.x - CX == (p.x - CX) * scale && q.z - CZ == (p.z - CZ) * scale;
    assert (q.x - CX) / AX == u * scale && (q.z - CZ) / AZ == v * scale;
    SquareOfProduct(u, scale);
    SquareOfProduct(v, scale);
    assert u * u * (scale * scale) + v * v * (scale * scale) == (u * u + v * v) * (scale * scale);
  }

  lemma SquareOfProduct(u: real, s: real)
    ensures (u * s) * (u * s) == u * u * (s * s)
  {}

  lemma ProjectedLevel(p: Point, root: real, factor: real)
    requires IsRoot(root, Level(p)) && root > 0.0
    ensures Level(Scaled(p, factor / root)) == factor * factor
  {
    var scale := factor / root;
    ScaledLevel(p, scale);
    assert scale * root == factor;
    SquareOfProduct(scale, root);
    assert (scale * root) * (scale * root) == factor * factor;
  }

  /** The early exit never skips a crossing: beyond it both ends of a step are outside. */
  lemma OutsideTheRegion(p: Point)
    requires p.z > REGION_Z - STRIDE
    ensures !Inside(p)
  {
    var u, v := (p.x - CX) / AX, (p.z - CZ) / AZ;
    assert v > 1.0;
    assert u * u >= 0.0;
    SquareIncreases(1.0, v);
  }

  /** A bounded step is across the stands after resolving exactly when it went across them
      itself and ended in the tunnel's lane. */
  lemma BowlIsSolid(previous: Point, p: Point, sqrt: real -> real)
    requires IsSqrt(sqrt) && Bounded(previous, p)
    ensures Inside(Settled(previous, p, sqrt)) != Inside(previous) <==> Inside(p) != Inside(previous) && InLane(p)
  {
    BoundedAxes(previous, p);
    if p.z > REGION_Z {
      OutsideTheRegion(p);
      OutsideTheRegion(previous);
    } else if !InLane(p) && Inside(previous) != Inside(p) {
      LeavesTheMiddle(previous, p);
      RootIsPositive(p, sqrt);
      ProjectedLevel(p, sqrt(Level(p)), if Inside(previous) then 0.995 else 1.005);
    }
  }

  /** A player is moved exactly when the step goes across the stands outside the lane, and
      then along the line from the middle, on the same side of it, onto the rim of the side
      they came from. */
  lemma PushedToTheRim(previous: Point, p: Point, sqrt: real -> real)
    requires IsSqrt(sqrt) && Bounded(previous, p)
    ensures var r := Settled(previous, p, sqrt);
            if Inside(p) == Inside(previous) || InLane(p) then r == p
            else
              && Level(r) == (if Inside(previous) then 0.995 * 0.995 else 1.005 * 1.005)
              && exists scale: real :: scale > 0.0 && r == Scaled(p, scale)
  {
    BoundedAxes(previous, p);
    if p.z > REGION_Z {
      OutsideTheRegion(p);
      OutsideTheRegion(previous);
    } else if !InLane(p) && Inside(previous) != Inside(p) {
      LeavesTheMiddle(previous, p);
      RootIsPositive(p, sqrt);
      var factor, root := if Inside(previous) then 0.995 else 1.005, sqrt(Level(p));
      ProjectedLevel(p, root, factor);
      assert factor / root > 0.0;
    }
  }

  /** The stands in metres: an ellipse of half-axes 38.7 and 29.7 about (27, -108.45). */
  predicate InStands(p: Point) {
    (p.x - 27.0) / 38.7 * ((p.x - 27.0) / 38.7) + (p.z + 108.45) / 29.7 * ((p.z + 108.45) / 29.7) <= 1.0
  }

  /** The tunnel: three metres wide about x = 27, on the doorway's side of z = -93.6 only. */
  predicate InTunnel(p: Point) { 25.5 < p.x < 28.5 && p.z > -93.6 }

  /** The stands, the tunnel and the line a player is pushed along, in metres. */
  lemma InMetres(p: Point, scale: real)
    ensures Inside(p) <==> InStands(p)
    ensures InLane(p) <==> InTunnel(p)
    ensures Scaled(p, scale) == Point(27.0 + (p.x - 27.0) * scale, -108.45 + (p.z + 108.45) * scale)
  {
    assert p.z - CZ == p.z + 108.45;
  }

  /** Steps a frame can take: each says how far the player tries to go. */
  ghost predicate BoundedSteps(steps: seq<Point>) {
    forall k :: 0 <= k < |steps| ==> Bounded(Point(0.0, 0.0), steps[k])
  }

  /** Where the player is after each step. */
  ghost function Walk(start: Point, steps: seq<Point>, sqrt: real -> real): Point
    requires IsSqrt(sqrt) && BoundedSteps(steps)
  {
    if steps == [] then start
    else Moved(Walk(start, steps[..|steps| - 1], sqrt), steps[|steps| - 1], sqrt)
  }

  function Stepped(p: Point, step: Point): (q: Point)
    requires Bounded(Point(0.0, 0.0), step)
    ensures Bounded(p, q)
  {
    Point(p.x + step.x, p.z + step.z)
  }

  function Moved(p: Point, step: Point, sqrt: real -> real): Point
    requires IsSqrt(sqrt) && Bounded(Point(0.0, 0.0), step)
  {
    Settled(p, Stepped(p, step), sqrt)
  }

  /** A step that goes across the stands and is let through. */
  predicate Passes(previous: Point, p: Point) {
    Inside(p) != Inside(previous) && InLane(p)
  }

  /** How many steps of a walk pass the stands. */
  ghost function Passages(start: Point, steps: seq<Point>, sqrt: real -> real): nat
    requires IsSqrt(sqrt) && BoundedSteps(steps)
  {
    if steps == [] then 0
    else
      var n := |steps| - 1;
      var before := Walk(start, steps[..n], sqrt);
      Passages(start, steps[..n], sqrt) + if Passes(before, Stepped(before, steps[n])) then 1 else 0
  }

  /** Over any run, wherever its steps end, the player is on the other side of the stands
      exactly when an odd number of steps went across them through the tunnel's lane. */
  lemma {:induction false} BowlIsSolidOverRuns(start: Point, steps: seq<Point>, sqrt: real -> real)
    requires IsSqrt(sqrt) && BoundedSteps(steps)
    ensures Inside(Walk(start, steps, sqrt)) != Inside(start) <==> Passages(start, steps, sqrt) % 2 == 1
    decreases |steps|
  {
    if steps != [] {
      var n := |steps| - 1;
      BowlIsSolidOverRuns(start, steps[..n], sqrt);
      var before := Walk(start, steps[..n], sqrt);
      BowlIsSolid(before, Stepped(before, steps[n]), sqrt);
      NextParity(Passages(start, steps[..n], sqrt), Passes(before, Stepped(before, steps[n])));
    }
  }

  class Player {
    var x: real
    var z: real

    constructor (x: real, z: real)
      ensures this.x == x && this.z == z
    {
      this.x, this.z := x, z;
    }

    method ResolvePokemonBowl(previousX: real, previousZ: real, sqrt: real -> real)
      requires IsSqrt(sqrt) && Pushable(Point(previousX, previousZ), Point(x, z))
      modifies this
      ensures Point(x, z) == Resolved(Point(previousX, previousZ), old(Point(x, z)), sqrt)
    {
      if z > REGION_Z { return; }
      if -LANE_HALF_WIDTH < x - CX < LANE_HALF_WIDTH && z > CZ + AZ * 0.5 { return; }
      var now, before := Level(Point(x, z)), Level(Point(previousX, previousZ));
      if (before <= 1.0) == (now <= 1.0) { return; }
      RootIsPositive(Point(x, z), sqrt);
      var scale := (if before <= 1.0 then 0.995 else 1.005) / sqrt(now);
      x := CX + (x - CX) * scale;
      z := CZ + (z - CZ) * scale;
    }
  }
}
