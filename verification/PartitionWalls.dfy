/** The two partition walls: solid, except at their doors, the warp pipe's bore and the storefront. */
module PartitionWalls {
  import opened Plane

  const WEST_WALL := -21.6
  const EAST_WALL := 21.6
  const HALF_THICKNESS := 0.18
  const RADIUS := 0.34
  const DOOR_HALF_WIDTH := 1.6
  const COLUMN_MIN := -33.6
  const COLUMN_MAX := 33.6
  const PIPE_Z := -25.2
  const PIPE_HALF := 2.2
  const WEST_DOORS := [-25.2, -8.0, 8.0]
  const EAST_DOORS := [-25.2]

  predicate Crossed(wall: real, previous: Point, p: Point) {
    (previous.x - wall) * (p.x - wall) <= 0.0 && previous.x != p.x
  }

  /** Where the step meets the wall's line, or where it ends when it does not. */
  function CrossingZ(wall: real, previous: Point, p: Point): real {
    if Crossed(wall, previous, p) then previous.z + (p.z - previous.z) * ((wall - previous.x) / (p.x - previous.x))
    else p.z
  }

  predicate ThroughDoor(doors: seq<real>, z: real) {
    exists k :: 0 <= k < |doors| && Abs(z - doors[k]) < DOOR_HALF_WIDTH - RADIUS
  }

  /** The openings of a wall, by the z a step crosses at. */
  predicate Open(wall: real, z: real) {
    || ThroughDoor(if wall < 0.0 then WEST_DOORS else EAST_DOORS, z)
    || (wall == WEST_WALL && Abs(z - PIPE_Z) < PIPE_HALF - RADIUS)
    || (wall == EAST_WALL && -33.7 < z < -12.1)
  }

  /** The wall runs the length of its column and no further. */
  predicate PastEnd(z: real) { z < COLUMN_MIN - RADIUS || z > COLUMN_MAX + RADIUS }

  predicate Admits(wall: real, previous: Point, p: Point) {
    PastEnd(p.z) || Open(wall, CrossingZ(wall, previous, p))
  }

  function HeldBy(wall: real, previous: Point, p: Point): Point {
    var leftFace, rightFace := wall - HALF_THICKNESS - RADIUS, wall + HALF_THICKNESS + RADIUS;
    if Admits(wall, previous, p) then p
    else if previous.x < wall && p.x > leftFace then p.(x := leftFace)
    else if previous.x >= wall && p.x < rightFace then p.(x := rightFace)
    else p
  }

  function Resolved(previous: Point, p: Point): Point {
    HeldBy(EAST_WALL, previous, HeldBy(WEST_WALL, previous, p))
  }

  class Player {
    var x: real
    var z: real

    constructor (x: real, z: real)
      ensures this.x == x && this.z == z
    {
      this.x, this.z := x, z;
    }

    method ResolvePartitionWalls(previousX: real, previousZ: real)
      modifies this`x
      ensures Point(x, z) == Resolved(Point(previousX, previousZ), old(Point(x, z)))
    {
      var walls := [WEST_WALL, EAST_WALL];
      ghost var previous := Point(previousX, previousZ);
      for k := 0 to 2
        invariant k == 0 ==> Point(x, z) == old(Point(x, z))
        invariant k == 1 ==> Point(x, z) == HeldBy(WEST_WALL, previous, old(Point(x, z)))
        invariant k == 2 ==> Point(x, z) == Resolved(previous, old(Point(x, z)))
      {
        HoldAgainst(walls[k], previousX, previousZ);
      }
    }

    /** One pass of the loop over the walls. */
    method HoldAgainst(wallX: real, previousX: real, previousZ: real)
      modifies this`x
      ensures Point(x, z) == HeldBy(wallX, Point(previousX, previousZ), old(Point(x, z)))
    {
      if z < COLUMN_MIN - RADIUS || z > COLUMN_MAX + RADIUS { return; }
      var crossedWall := (previousX - wallX) * (x - wallX) <= 0.0 && previousX != x;
      var crossingZ := z;
      if crossedWall {
        var crossing := (wallX - previousX) / (x - previousX);
        crossingZ := previousZ + (z - previousZ) * crossing;
      }
      assert crossingZ == CrossingZ(wallX, Point(previousX, previousZ), Point(x, z));
      var doors := if wallX < 0.0 then WEST_DOORS else EAST_DOORS;
      if ThroughDoor(doors, crossingZ) { return; }
      if wallX == WEST_WALL && Abs(crossingZ - PIPE_Z) < PIPE_HALF - RADIUS { return; }
      if wallX == EAST_WALL && crossingZ > -33.7 && crossingZ < -12.1 { return; }
      var leftFace := wallX - HALF_THICKNESS - RADIUS;
      var rightFace := wallX + HALF_THICKNESS + RADIUS;
      if previousX < wallX && x > leftFace { x := leftFace; }
      else if previousX >= wallX && x < rightFace { x := rightFace; }
    }
  }

  predicate IsWall(wall: real) { wall == WEST_WALL || wall == EAST_WALL }

  predicate West(wall: real, p: Point) { p.x < wall }

  /** A step no longer than a frame's stride, along x. */
  predicate Bounded(previous: Point, p: Point) { -STRIDE <= p.x - previous.x <= STRIDE }

  lemma NotCrossedSameSide(wall: real, previous: Point, p: Point)
    requires !Crossed(wall, previous, p)
    ensures West(wall, previous) == West(wall, p)
  {
    if West(wall, previous) != West(wall, p) { OppositeSigns(previous.x - wall, p.x - wall); }
  }

  lemma OppositeSigns(a: real, b: real)
    requires (a < 0.0) != (b < 0.0)
    ensures a * b <= 0.0
  {
    if a < 0.0 { assert (-a) * b >= 0.0; } else { assert a * (-b) >= 0.0; }
  }

  /** The wall a bounded step is not near leaves it alone. */
  lemma OtherWallIdle(previous: Point, p: Point)
    requires Bounded(previous, p)
    ensures previous.x <= 0.0 ==> Resolved(previous, p) == HeldBy(WEST_WALL, previous, p)
    ensures previous.x > 0.0 ==> Resolved(previous, p) == HeldBy(EAST_WALL, previous, p)
  {}

  lemma HeldExactly(wall: real, previous: Point, p: Point)
    ensures var r := HeldBy(wall, previous, p);
            && r.z == p.z
            && (West(wall, r) != West(wall, previous) <==>
                  West(wall, p) != West(wall, previous) && Admits(wall, previous, p))
            && (!Admits(wall, previous, p) ==> Abs(r.x - wall) >= HALF_THICKNESS + RADIUS)
  {}

  /** A bounded step changes the player's side of a wall line exactly when it goes across the
      line itself, and does so inside an opening or ends past the wall; nothing else moves z,
      and a player who was held never stands in the wall's thickness. */
  lemma WallsAreSolid(wall: real, previous: Point, p: Point)
    requires IsWall(wall) && Bounded(previous, p)
    ensures var r := Resolved(previous, p);
            && r.z == p.z
            && (West(wall, r) != West(wall, previous) <==>
                  Crossed(wall, previous, p) && West(wall, p) != West(wall, previous) && Admits(wall, previous, p))
            && (!Admits(wall, previous, p) ==> Abs(r.x - wall) >= HALF_THICKNESS + RADIUS)
  {
    OtherWallIdle(previous, p);
    HeldExactly(wall, previous, p);
    if !Crossed(wall, previous, p) { NotCrossedSameSide(wall, previous, p); }
    var other := if wall == WEST_WALL then EAST_WALL else WEST_WALL;
    HeldExactly(other, previous, p);
  }

  /** A player who is not let through is moved no further than needed: among the places on
      the side they came from and clear of the wall's thickness, theirs is nearest to where
      the step ends. One who is let through is not moved at all. */
  lemma HeldIsNearest(wall: real, previous: Point, p: Point, x: real)
    ensures Admits(wall, previous, p) ==> HeldBy(wall, previous, p) == p
    ensures !Admits(wall, previous, p) && (x < wall <==> previous.x < wall) && Abs(x - wall) >= HALF_THICKNESS + RADIUS
            ==> Abs(HeldBy(wall, previous, p).x - p.x) <= Abs(x - p.x)
  {}

  /** Where the player is after each step, given where each step tries to go. */
  function Walk(start: Point, targets: seq<Point>): Point {
    if targets == [] then start
    else Resolved(Walk(start, targets[..|targets| - 1]), targets[|targets| - 1])
  }

  ghost predicate BoundedWalk(start: Point, targets: seq<Point>) {
    forall k :: 0 <= k < |targets| ==> Bounded(Walk(start, targets[..k]), targets[k])
  }

  /** A step that goes across a wall's line and is let through. */
  predicate Passes(wall: real, previous: Point, p: Point) {
    Crossed(wall, previous, p) && West(wall, p) != West(wall, previous) && Admits(wall, previous, p)
  }

  /** How many steps of a walk pass a wall. */
  function Passages(wall: real, start: Point, targets: seq<Point>): nat {
    if targets == [] then 0
    else
      var n := |targets| - 1;
      Passages(wall, start, targets[..n]) + if Passes(wall, Walk(start, targets[..n]), targets[n]) then 1 else 0
  }

  /** Over any run of bounded steps, wherever they end, the player is on the other side of a
      wall line exactly when an odd number of steps went across it inside one of its openings
      or past its end. */
  lemma {:induction false} WallsAreSolidOverRuns(wall: real, start: Point, targets: seq<Point>)
    requires IsWall(wall) && BoundedWalk(start, targets)
    ensures West(wall, Walk(start, targets)) != West(wall, start) <==> Passages(wall, start, targets) % 2 == 1
    decreases |targets|
  {
    if targets != [] {
      var n := |targets| - 1;
      BoundedSoFar(start, targets);
      WallsAreSolidOverRuns(wall, start, targets[..n]);
      OneMoreStep(wall, start, Walk(start, targets[..n]), targets[n], Passages(wall, start, targets[..n]));
    }
  }

  lemma PassageChangesSide(wall: real, previous: Point, p: Point)
    requires IsWall(wall) && Bounded(previous, p)
    ensures West(wall, Resolved(previous, p)) != West(wall, previous) <==> Passes(wall, previous, p)
  {
    WallsAreSolid(wall, previous, p);
  }

  lemma OneMoreStep(wall: real, start: Point, before: Point, target: Point, passages: nat)
    requires IsWall(wall) && Bounded(before, target)
    requires West(wall, before) != West(wall, start) <==> passages % 2 == 1
    ensures West(wall, Resolved(before, target)) != West(wall, start) <==>
            (passages + if Passes(wall, before, target) then 1 else 0) % 2 == 1
  {
    PassageChangesSide(wall, before, target);
    NextParity(passages, Passes(wall, before, target));
  }

  lemma {:induction false} BoundedSoFar(start: Point, targets: seq<Point>)
    requires BoundedWalk(start, targets) && targets != []
    ensures BoundedWalk(start, targets[..|targets| - 1])
  {
    var earlier := targets[..|targets| - 1];
    forall k | 0 <= k < |earlier| ensures Bounded(Walk(start, earlier[..k]), earlier[k]) {
      assert earlier[..k] == targets[..k];
    }
  }
}
