/** The openings of the partition walls, in metres: where a step is let through and where held. */
module PartitionOpenings {
  import opened Plane
  import opened PartitionWalls
  import opened SquareRoot

  /** The west wall's three doors and the pipe's bore, by where a step meets the wall. */
  predicate WestOpening(z: real) { -26.46 < z < -23.94 || -9.26 < z < -6.74 || 6.74 < z < 9.26 || -27.06 < z < -23.34 }

  /** The east wall's door, and the storefront around it. */
  predicate EastOpening(z: real) { -26.46 < z < -23.94 || -33.7 < z < -12.1 }

  /** A frame's step ending level with the walls' columns. */
  predicate LevelStep(previous: Point, p: Point) {
    -0.5625 <= p.x - previous.x <= 0.5625 && -33.94 <= p.z <= 33.94
  }

  /** A step that meets the line x = wall a fraction t of the way along, at height z. */
  predicate Meets(wall: real, previous: Point, p: Point, t: real, z: real) {
    && previous.x != p.x && 0.0 <= t <= 1.0
    && previous.x + t * (p.x - previous.x) == wall && z == previous.z + t * (p.z - previous.z)
  }

  /** A step that keeps to one side of the line, or along it. */
  predicate KeepsSide(wall: real, previous: Point, p: Point) {
    previous.x == p.x || (previous.x < wall && p.x < wall) || (previous.x > wall && p.x > wall)
  }

  lemma OpeningsAreOpen(z: real)
    ensures Open(-21.6, z) <==> WestOpening(z)
    ensures Open(21.6, z) <==> EastOpening(z)
  {
    assert WEST_DOORS[0] == -25.2 && WEST_DOORS[1] == -8.0 && WEST_DOORS[2] == 8.0 && EAST_DOORS[0] == -25.2;
    if Abs(z - WEST_DOORS[0]) < 1.26 || Abs(z - WEST_DOORS[1]) < 1.26 || Abs(z - WEST_DOORS[2]) < 1.26 {
      assert ThroughDoor(WEST_DOORS, z);
    }
    if Abs(z - EAST_DOORS[0]) < 1.26 { assert ThroughDoor(EAST_DOORS, z); }
  }

  lemma MeetsWhereItCrosses(wall: real, previous: Point, p: Point, t: real, z: real)
    requires Meets(wall, previous, p, t, z)
    ensures Crossed(wall, previous, p) && CrossingZ(wall, previous, p) == z
    ensures previous.x < wall ==> p.x >= wall
    ensures previous.x > wall ==> p.x <= wall
  {
    var dx := p.x - previous.x;
    assert (wall - previous.x) / dx == t;
    assert previous.x - wall == -(t * dx) && p.x - wall == (1.0 - t) * dx;
    Opposed(t, dx);
  }

  lemma Opposed(t: real, dx: real)
    requires 0.0 <= t <= 1.0
    ensures -(t * dx) * ((1.0 - t) * dx) <= 0.0
    ensures dx > 0.0 ==> t * dx >= 0.0 && (1.0 - t) * dx >= 0.0
    ensures dx < 0.0 ==> t * dx <= 0.0 && (1.0 - t) * dx <= 0.0
  {
    ProductOfNonNegatives(t, 1.0 - t);
    ProductOfNonNegatives(t * (1.0 - t), dx * dx);
    assert (t * dx) * ((1.0 - t) * dx) == t * (1.0 - t) * (dx * dx);
    if dx > 0.0 {
      ProductOfNonNegatives(t, dx);
      ProductOfNonNegatives(1.0 - t, dx);
    } else {
      ProductOfNonNegatives(t, -dx);
      ProductOfNonNegatives(1.0 - t, -dx);
    }
  }

  lemma PositiveProduct(a: real, b: real)
    requires (a > 0.0 && b > 0.0) || (a < 0.0 && b < 0.0)
    ensures a * b > 0.0
  {
    if a < 0.0 { assert a * b == (-a) * (-b); }
  }

  lemma KeepingSideDoesNotCross(wall: real, previous: Point, p: Point)
    requires KeepsSide(wall, previous, p)
    ensures CrossingZ(wall, previous, p) == p.z
  {
    if previous.x != p.x { PositiveProduct(previous.x - wall, p.x - wall); }
  }

  /** Where the player is kept to, coming from `previous` at a wall line. */
  function Kept(wall: real, previous: real, x: real): real {
    if previous < wall then (if x > wall - 0.52 then wall - 0.52 else x)
    else (if x < wall + 0.52 then wall + 0.52 else x)
  }

  /** The west wall: a step that meets it ends where it tries to inside an opening, and otherwise
      at the near face, on the side it came from. */
  lemma WestWallHolds(previous: Point, p: Point, t: real, z: real)
    requires LevelStep(previous, p) && Meets(-21.6, previous, p, t, z)
    ensures Resolved(previous, p) == if WestOpening(z) then p else Point(Kept(-21.6, previous.x, p.x), p.z)
    ensures previous.x < -21.6 ==> Kept(-21.6, previous.x, p.x) == -22.12
    ensures previous.x > -21.6 ==> Kept(-21.6, previous.x, p.x) == -21.08
  {
    MeetsWhereItCrosses(-21.6, previous, p, t, z);
    OpeningsAreOpen(z);
    OtherWallIdle(previous, p);
  }

  lemma EastWallHolds(previous: Point, p: Point, t: real, z: real)
    requires LevelStep(previous, p) && Meets(21.6, previous, p, t, z)
    ensures Resolved(previous, p) == if EastOpening(z) then p else Point(Kept(21.6, previous.x, p.x), p.z)
    ensures previous.x < 21.6 ==> Kept(21.6, previous.x, p.x) == 21.08
    ensures previous.x > 21.6 ==> Kept(21.6, previous.x, p.x) == 22.12
  {
    MeetsWhereItCrosses(21.6, previous, p, t, z);
    OpeningsAreOpen(z);
    OtherWallIdle(previous, p);
  }

  /** A step that meets neither wall is moved only off a face it ends too close to, and only
      outside that wall's openings. */
  lemma NearWallsKeepsOff(previous: Point, p: Point)
    requires LevelStep(previous, p) && KeepsSide(-21.6, previous, p) && KeepsSide(21.6, previous, p)
    ensures previous.x <= 0.0 ==>
              Resolved(previous, p) == if WestOpening(p.z) then p else Point(Kept(-21.6, previous.x, p.x), p.z)
    ensures previous.x > 0.0 ==>
              Resolved(previous, p) == if EastOpening(p.z) then p else Point(Kept(21.6, previous.x, p.x), p.z)
  {
    KeepingSideDoesNotCross(-21.6, previous, p);
    KeepingSideDoesNotCross(21.6, previous, p);
    OpeningsAreOpen(p.z);
    OtherWallIdle(previous, p);
  }

  /** North and south of the columns there is no wall. */
  lemma PastTheColumnsIsFree(previous: Point, p: Point)
    requires p.z < -33.94 || p.z > 33.94
    ensures Resolved(previous, p) == p
  {}
}
