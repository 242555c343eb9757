/** Why one push is enough, exactly: the spacing of the machines decides it, for every list of
    machines and already for steps a frame can take. */
module ColliderCascades {
  import opened Plane
  import opened SquareRoot
  import opened CircularColliders

  /** A frame's step never leaves a player who was clear of every machine inside one. */
  ghost predicate Solid(spots: seq<Point>, sqrt: real -> real)
    requires IsSqrt(sqrt)
  {
    forall previous, p :: ClearOfAll(previous, spots) && Squared(p, previous) <= Sq(STRIDE) ==>
      ClearOfAll(Resolved(previous, p, spots, sqrt), spots)
  }

  function Dot(ax: real, az: real, bx: real, bz: real): real { ax * bx + az * bz }

  /** The point on the way from `m` to halfway between `a` and `b`. */
  function Inwards(m: Point, a: Point, b: Point, t: real): Point {
    Point(m.x + t * ((a.x - m.x + (b.x - m.x)) / 2.0), m.z + t * ((a.z - m.z + (b.z - m.z)) / 2.0))
  }

  predicate OnCircle(m: Point, spot: Point) { Squared(m, spot) == REACH * REACH }

  /** Different machines whose circles meet. */
  predicate Close(a: Point, b: Point) { a != b && Squared(a, b) < 4.0 * (REACH * REACH) }

  lemma SqIsProduct(a: real)
    ensures Sq(a) == a * a
  {}

  lemma SqZero(a: real)
    requires Sq(a) <= 0.0
    ensures a == 0.0
  {
    if a > 0.0 { SqIncreases(0.0, a); }
    if a < 0.0 { SqEven(a); SqIncreases(0.0, -a); }
  }

  lemma Apart(a: Point, b: Point)
    requires a != b
    ensures Squared(a, b) > 0.0
  {
    if Squared(a, b) <= 0.0 {
      SqZero(a.x - b.x);
      SqZero(a.z - b.z);
    }
  }

  // Below, A and B are two centres seen from a point where their circles meet, U is halfway
  // between them, and m = U.U.

  lemma MeetingProducts(ax: real, az: real, bx: real, bz: real, r2: real)
    requires Sq(ax) + Sq(az) == r2 && Sq(bx) + Sq(bz) == r2
    ensures var u, w := (ax + bx) / 2.0, (az + bz) / 2.0;
            && Dot(u, w, ax, az) == Sq(u) + Sq(w)
            && Dot(ax - bx, az - bz, u, w) == 0.0
            && Dot(ax - bx, az - bz, ax, az) == (Sq(ax - bx) + Sq(az - bz)) / 2.0
            && 4.0 * (Sq(u) + Sq(w)) == 4.0 * r2 - (Sq(ax - bx) + Sq(az - bz))
  {
    SqIsProduct(ax);
    SqIsProduct(az);
    SqIsProduct(bx);
    SqIsProduct(bz);
    SqIsProduct(ax - bx);
    SqIsProduct(az - bz);
    SqIsProduct((ax + bx) / 2.0);
    SqIsProduct((az + bz) / 2.0);
  }

  /** The squared distance of A from the point t U. */
  lemma InwardsFrom(ax: real, az: real, u: real, w: real, t: real)
    requires Dot(u, w, ax, az) == Sq(u) + Sq(w)
    ensures Sq(t * u - ax) + Sq(t * w - az) == Sq(ax) + Sq(az) - Times(Sq(u) + Sq(w), 2.0 * t - Sq(t))
    ensures Sq(t * u) + Sq(t * w) == Times(Sq(u) + Sq(w), Sq(t))
  {
    SqDifference(t * u, ax);
    SqDifference(t * w, az);
    SqProduct(t, u);
    SqProduct(t, w);
    DotScaled(t, u, w, ax, az);
    TimesOut(Sq(u) + Sq(w), t);
    TimesSum(Sq(u), Sq(w), Sq(t));
  }

  lemma TimesOut(m: real, t: real)
    ensures Times(m, 2.0 * t - Sq(t)) == 2.0 * Times(t, m) - Times(m, Sq(t))
  {}

  lemma DotScaled(t: real, u: real, w: real, ax: real, az: real)
    ensures t * u * ax + t * w * az == Times(t, Dot(u, w, ax, az))
  {}

  lemma TimesSum(a: real, b: real, c: real)
    ensures Times(a + b, c) == c * a + c * b
  {}

  /** The squared distance from B of the point pushed, by the factor k, away from A through P. */
  lemma PushedFromOther(gx: real, gz: real, px: real, pz: real, k: real)
    ensures Sq(gx + k * px) + Sq(gz + k * pz)
            == Sq(gx) + Sq(gz) + 2.0 * Times(k, Dot(gx, gz, px, pz)) + Times(Sq(k), Sq(px) + Sq(pz))
  {
    SqSum(gx, k * px);
    SqSum(gz, k * pz);
    SqProduct(k, px);
    SqProduct(k, pz);
    TimesSum(Sq(px), Sq(pz), Sq(k));
    TimesDot(gx, gz, px, pz, k);
    TimesSwap(Sq(k), Sq(px) + Sq(pz));
  }

  lemma SqSum(a: real, b: real)
    ensures Sq(a + b) == Sq(a) + 2.0 * (a * b) + Sq(b)
  {}

  lemma TimesSwap(a: real, b: real)
    ensures Times(a, b) == Times(b, a)
  {}

  lemma TimesDot(gx: real, gz: real, px: real, pz: real, k: real)
    ensures Times(k, Dot(gx, gz, px, pz)) == gx * (k * px) + gz * (k * pz)
  {}

  lemma DotThrough(gx: real, gz: real, u: real, w: real, ax: real, az: real, t: real)
    requires Dot(gx, gz, u, w) == 0.0
    ensures Dot(gx, gz, t * u - ax, t * w - az) == -Dot(gx, gz, ax, az)
  {
    assert Dot(gx, gz, t * u - ax, t * w - az) == t * Dot(gx, gz, u, w) - Dot(gx, gz, ax, az);
  }

  lemma Shrinks(m: real, t: real, r2: real)
    requires 0.0 < m <= r2 && 0.0 < t <= 0.4
    ensures 0.0 < Times(m, 2.0 * t - Sq(t)) <= 0.64 * r2
    ensures Times(m, Sq(t)) <= 0.16 * r2
  {
    ShortSteps(t);
    Product(m, r2, 2.0 * t - Sq(t), 0.64);
    Product(m, r2, Sq(t), 0.16);
  }

  lemma ShortSteps(t: real)
    requires 0.0 < t <= 0.4
    ensures 0.0 < 2.0 * t - Sq(t) <= 0.64 && 0.0 < Sq(t) <= 0.16
  {
    SqIsProduct(t);
    SqIncreases(0.0, t);
    ProductOfNonNegatives(t, 0.4 - t);
    ProductOfNonNegatives(0.4 - t, 1.6 - t);
    assert t * (0.4 - t) == 0.4 * t - Sq(t);
    assert (0.4 - t) * (1.6 - t) == 0.64 - 2.0 * t + Sq(t);
  }

  lemma Product(m: real, r: real, s: real, most: real)
    requires 0.0 < m <= r && 0.0 < s <= most
    ensures 0.0 < Times(m, s) <= most * r
  {
    PositiveTimes(m, s);
    ProductOfNonNegatives(r - m, s);
    ProductOfNonNegatives(r, most - s);
  }

  /** A step inwards from where two circles meet is a frame's step, and ends inside both. */
  lemma StepsInside(m: Point, a: Point, b: Point, t: real, d: real)
    requires OnCircle(m, a) && OnCircle(m, b) && Close(a, b) && 0.0 < t <= 0.4
    requires IsRoot(d, Squared(Inwards(m, a, b, t), a))
    ensures 0.0001 <= d < REACH && Squared(Inwards(m, a, b, t), m) <= Sq(STRIDE)
  {
    MeetingFacts(m, a, b);
    StepInwards(m, a, b, t, (a.x - m.x + (b.x - m.x)) / 2.0, (a.z - m.z + (b.z - m.z)) / 2.0);
    InsideByRoot(d, Squared(Inwards(m, a, b, t), a));
  }

  lemma MeetingFacts(m: Point, a: Point, b: Point)
    requires OnCircle(m, a) && OnCircle(m, b) && Close(a, b)
    ensures var ax, az, bx, bz := a.x - m.x, a.z - m.z, b.x - m.x, b.z - m.z;
            var u, w, g2 := (ax + bx) / 2.0, (az + bz) / 2.0, Squared(a, b);
            && g2 > 0.0 && Squared(a, m) == REACH * REACH && 0.0 < Sq(u) + Sq(w) <= REACH * REACH
            && Dot(u, w, ax, az) == Sq(u) + Sq(w)
  {
    SquaredSymmetric(m, a);
    SquaredSymmetric(m, b);
    MeetingProducts(a.x - m.x, a.z - m.z, b.x - m.x, b.z - m.z, REACH * REACH);
    Apart(a, b);
    assert a.x - b.x == a.x - m.x - (b.x - m.x) && a.z - b.z == a.z - m.z - (b.z - m.z);
  }

  lemma MeetingAcross(m: Point, a: Point, b: Point)
    requires OnCircle(m, a) && OnCircle(m, b)
    ensures Dot(a.x - b.x, a.z - b.z, (a.x - m.x + (b.x - m.x)) / 2.0, (a.z - m.z + (b.z - m.z)) / 2.0) == 0.0
    ensures Dot(a.x - b.x, a.z - b.z, a.x - m.x, a.z - m.z) == Squared(a, b) / 2.0
  {
    SquaredSymmetric(m, a);
    SquaredSymmetric(m, b);
    MeetingProducts(a.x - m.x, a.z - m.z, b.x - m.x, b.z - m.z, REACH * REACH);
    assert a.x - b.x == a.x - m.x - (b.x - m.x) && a.z - b.z == a.z - m.z - (b.z - m.z);
  }

  lemma InwardsAcross(m: Point, a: Point, b: Point, t: real)
    requires OnCircle(m, a) && OnCircle(m, b)
    ensures var p := Inwards(m, a, b, t);
            Dot(a.x - b.x, a.z - b.z, p.x - a.x, p.z - a.z) == -(Squared(a, b) / 2.0)
  {
    MeetingAcross(m, a, b);
    AcrossFrom(m, a, b, t, a.x - b.x, a.z - b.z);
  }

  lemma AcrossFrom(m: Point, a: Point, b: Point, t: real, gx: real, gz: real)
    requires Dot(gx, gz, (a.x - m.x + (b.x - m.x)) / 2.0, (a.z - m.z + (b.z - m.z)) / 2.0) == 0.0
    ensures var p := Inwards(m, a, b, t); Dot(gx, gz, p.x - a.x, p.z - a.z) == -Dot(gx, gz, a.x - m.x, a.z - m.z)
  {
    var p, u, w := Inwards(m, a, b, t), (a.x - m.x + (b.x - m.x)) / 2.0, (a.z - m.z + (b.z - m.z)) / 2.0;
    assert p.x - a.x == t * u - (a.x - m.x) && p.z - a.z == t * w - (a.z - m.z);
    DotThrough(gx, gz, u, w, a.x - m.x, a.z - m.z, t);
  }

  /** And a push out of the one ends inside the other. */
  lemma PushedIntoTheOther(m: Point, a: Point, b: Point, t: real, d: real)
    requires OnCircle(m, a) && OnCircle(m, b) && Close(a, b)
    requires IsRoot(d, Squared(Inwards(m, a, b, t), a)) && 0.0001 <= d < REACH
    ensures !Clear(Pushed(m, Inwards(m, a, b, t), a, d), b)
  {
    Apart(a, b);
    InwardsAcross(m, a, b, t);
    PushEndsInside(m, a, b, Inwards(m, a, b, t), d);
  }

  lemma StepInwards(m: Point, a: Point, b: Point, t: real, u: real, w: real)
    requires u == (a.x - m.x + (b.x - m.x)) / 2.0 && w == (a.z - m.z + (b.z - m.z)) / 2.0 && 0.0 < t <= 0.4
    requires 0.0 < Sq(u) + Sq(w) <= REACH * REACH && Squared(a, m) == REACH * REACH
    requires Dot(u, w, a.x - m.x, a.z - m.z) == Sq(u) + Sq(w)
    ensures 0.36 * (REACH * REACH) <= Squared(Inwards(m, a, b, t), a) < REACH * REACH
    ensures Squared(Inwards(m, a, b, t), m) <= Sq(STRIDE)
  {
    var p := Inwards(m, a, b, t);
    InwardsFrom(a.x - m.x, a.z - m.z, u, w, t);
    Shrinks(Sq(u) + Sq(w), t, REACH * REACH);
    InwardsCoordinates(m, a, b, t, u, w);
    ShortStride();
  }

  lemma InwardsCoordinates(m: Point, a: Point, b: Point, t: real, u: real, w: real)
    requires u == (a.x - m.x + (b.x - m.x)) / 2.0 && w == (a.z - m.z + (b.z - m.z)) / 2.0
    ensures var p := Inwards(m, a, b, t);
            && Squared(p, a) == Sq(t * u - (a.x - m.x)) + Sq(t * w - (a.z - m.z))
            && Squared(p, m) == Sq(t * u) + Sq(t * w)
  {
    var p := Inwards(m, a, b, t);
    assert p.x - a.x == t * u - (a.x - m.x) && p.z - a.z == t * w - (a.z - m.z);
    assert p.x - m.x == t * u && p.z - m.z == t * w;
  }

  lemma ShortStride()
    ensures 0.16 * (REACH * REACH) <= Sq(STRIDE)
  {
    SqIsProduct(STRIDE);
  }

  lemma InsideByRoot(d: real, v: real)
    requires IsRoot(d, v) && 0.36 * (REACH * REACH) <= v < REACH * REACH
    ensures 0.0001 <= d < REACH
  {
    RootOrder(d, REACH, v, REACH * REACH);
    RootOrder(0.6 * REACH, d, 0.36 * (REACH * REACH), v);
  }

  lemma PushEndsInside(previous: Point, a: Point, b: Point, p: Point, d: real)
    requires Squared(a, b) > 0.0 && Dot(a.x - b.x, a.z - b.z, p.x - a.x, p.z - a.z) == -(Squared(a, b) / 2.0)
    requires IsRoot(d, Squared(p, a)) && 0.0001 <= d < REACH
    ensures !Clear(Pushed(previous, p, a, d), b)
  {
    var k, q := REACH / d, Pushed(previous, p, a, d);
    PushedCoordinates(previous, a, b, p, d, k);
    PushedFromOther(a.x - b.x, a.z - b.z, p.x - a.x, p.z - a.z, k);
    BackOnCircle(k, d, Squared(p, a));
    Falls(k, Squared(a, b));
  }

  lemma PushedCoordinates(previous: Point, a: Point, b: Point, p: Point, d: real, k: real)
    requires 0.0001 <= d < REACH && k == REACH / d
    ensures k * d == REACH && k > 1.0
    ensures var q := Pushed(previous, p, a, d);
            Squared(q, b) == Sq(a.x - b.x + k * (p.x - a.x)) + Sq(a.z - b.z + k * (p.z - a.z))
  {
    var q := Pushed(previous, p, a, d);
    assert (p.x - a.x) / d * REACH == k * (p.x - a.x) && (p.z - a.z) / d * REACH == k * (p.z - a.z);
    assert q.x - b.x == a.x - b.x + k * (p.x - a.x) && q.z - b.z == a.z - b.z + k * (p.z - a.z);
  }

  lemma BackOnCircle(k: real, d: real, v: real)
    requires k * d == REACH && d * d == v
    ensures Times(Sq(k), v) == REACH * REACH
  {
    assert (k * d) * (k * d) == k * k * (d * d);
  }

  lemma Falls(k: real, g2: real)
    requires k > 1.0 && g2 > 0.0
    ensures g2 + 2.0 * Times(k, -(g2 / 2.0)) < 0.0
  {
    assert (k - 1.0) * g2 > 0.0;
  }

  // How small the step must be to stay clear of every other machine.

  /** How much the step leans towards or away from `s`. */
  function Lean(m: Point, a: Point, b: Point, s: Point): real {
    Dot((a.x - m.x + (b.x - m.x)) / 2.0, (a.z - m.z + (b.z - m.z)) / 2.0, m.x - s.x, m.z - s.z)
  }

  /** A step of `t` leaves a machine that `m` is beyond still clear. */
  predicate SmallFor(m: Point, a: Point, b: Point, s: Point, t: real) {
    Squared(m, s) > REACH * REACH ==> 2.0 * Times(t, Abs(Lean(m, a, b, s))) <= Squared(m, s) - REACH * REACH
  }

  lemma SmallStaysClear(m: Point, a: Point, b: Point, s: Point, t: real)
    requires SmallFor(m, a, b, s, t) && t > 0.0 && Squared(m, s) > REACH * REACH
    ensures Clear(Inwards(m, a, b, t), s)
  {
    var u, w := (a.x - m.x + (b.x - m.x)) / 2.0, (a.z - m.z + (b.z - m.z)) / 2.0;
    InwardsFromOther(m, a, b, s, t, u, w);
    PushedFromOther(m.x - s.x, m.z - s.z, u, w, t);
    DotSwap(u, w, m.x - s.x, m.z - s.z);
    TimesAbs(t, Lean(m, a, b, s));
    NotNegative(Sq(t), Sq(u) + Sq(w));
  }

  lemma InwardsFromOther(m: Point, a: Point, b: Point, s: Point, t: real, u: real, w: real)
    requires u == (a.x - m.x + (b.x - m.x)) / 2.0 && w == (a.z - m.z + (b.z - m.z)) / 2.0
    ensures Squared(Inwards(m, a, b, t), s) == Sq(m.x - s.x + t * u) + Sq(m.z - s.z + t * w)
    ensures Lean(m, a, b, s) == Dot(u, w, m.x - s.x, m.z - s.z)
  {
    var p := Inwards(m, a, b, t);
    assert p.x - s.x == m.x - s.x + t * u && p.z - s.z == m.z - s.z + t * w;
  }

  lemma DotSwap(ax: real, az: real, bx: real, bz: real)
    ensures Dot(ax, az, bx, bz) == Dot(bx, bz, ax, az)
  {}

  lemma TimesAbs(t: real, v: real)
    requires t > 0.0
    ensures Times(t, v) >= -Times(t, Abs(v))
  {}

  lemma NotNegative(a: real, b: real)
    requires a >= 0.0 && b >= 0.0
    ensures Times(a, b) >= 0.0
  {}

  lemma SmallerIsSmall(t: real, less: real, v: real, gap: real)
    requires 0.0 < less <= t && 2.0 * Times(t, Abs(v)) <= gap
    ensures 2.0 * Times(less, Abs(v)) <= gap
  {
    assert (t - less) * Abs(v) >= 0.0;
  }

  lemma SmallForOne(v: real, gap: real) returns (t: real)
    requires gap > 0.0
    ensures t > 0.0 && 2.0 * Times(t, Abs(v)) <= gap
  {
    var n := 2.0 * Abs(v) + 1.0;
    t := gap / n;
    assert t * n == gap;
    assert t * n == 2.0 * Times(t, Abs(v)) + t;
  }

  lemma {:induction false} SmallForAll(m: Point, a: Point, b: Point, spots: seq<Point>) returns (t: real)
    ensures 0.0 < t <= 0.4
    ensures forall k :: 0 <= k < |spots| ==> SmallFor(m, a, b, spots[k], t)
  {
    t := 0.4;
    if spots != [] {
      var s, rest := spots[0], spots[1..];
      t := SmallForAll(m, a, b, rest);
      if Squared(m, s) > REACH * REACH {
        var wide := t;
        var own := SmallForOne(Lean(m, a, b, s), Squared(m, s) - REACH * REACH);
        t := if own < wide then own else wide;
        SmallerIsSmall(own, t, Lean(m, a, b, s), Squared(m, s) - REACH * REACH);
        forall k | 0 <= k < |rest| && Squared(m, rest[k]) > REACH * REACH ensures SmallFor(m, a, b, rest[k], t) {
          assert SmallFor(m, a, b, rest[k], wide);
          SmallerIsSmall(wide, t, Lean(m, a, b, rest[k]), Squared(m, rest[k]) - REACH * REACH);
        }
      }
      forall k | 0 <= k < |spots| ensures SmallFor(m, a, b, spots[k], t) {
        if k > 0 { assert spots[k] == rest[k - 1]; }
      }
    }
  }

  // Where two circles meet clear of every machine.

  /** Of the two points where the circles of close machines meet, the one further left. */
  function MeetLeft(a: Point, c: Point, sqrt: real -> real): Point
    requires IsSqrt(sqrt) && Close(a, c)
  {
    Apart(a, c);
    var vx, vz, k := c.x - a.x, c.z - a.z, sqrt(REACH * REACH / Squared(a, c) - 0.25);
    var s := if vz >= 0.0 then k else -k;
    Point(a.x + (vx / 2.0 - s * vz), a.z + (vz / 2.0 + s * vx))
  }

  lemma HalfChord(g2: real, k: real)
    requires 0.0 < g2 < 4.0 * (REACH * REACH) && Sq(k) == REACH * REACH / g2 - 0.25
    ensures Times(g2, Sq(k) + 0.25) == REACH * REACH
  {}

  lemma ChordArgument(g2: real)
    requires 0.0 < g2 < 4.0 * (REACH * REACH)
    ensures REACH * REACH / g2 - 0.25 > 0.0
  {
    assert REACH * REACH / g2 - 0.25 == (REACH * REACH - 0.25 * g2) / g2;
  }

  lemma HalfwayAcross(vx: real, vz: real, s: real)
    ensures Sq(vx / 2.0 - s * vz) + Sq(vz / 2.0 + s * vx) == Times(Sq(vx) + Sq(vz), Sq(s) + 0.25)
    ensures Sq(-vx / 2.0 - s * vz) + Sq(-vz / 2.0 + s * vx) == Times(Sq(vx) + Sq(vz), Sq(s) + 0.25)
  {
    SqDifference(vx / 2.0, s * vz);
    SqSum(vz / 2.0, s * vx);
    SqDifference(-vx / 2.0, s * vz);
    SqSum(-vz / 2.0, s * vx);
    SqProduct(s, vz);
    SqProduct(s, vx);
    Quarter(vx);
    Quarter(vz);
    Cross(vx, vz, s);
    TimesSum(Sq(s), 0.25, Sq(vx) + Sq(vz));
    TimesSwap(Sq(vx) + Sq(vz), Sq(s) + 0.25);
    TimesSum(Sq(vx), Sq(vz), Sq(s));
    TimesSwap(Sq(vx) + Sq(vz), Sq(s));
  }

  lemma Quarter(v: real)
    ensures Sq(v / 2.0) == 0.25 * Sq(v) && Sq(-v / 2.0) == 0.25 * Sq(v)
  {}

  lemma Cross(vx: real, vz: real, s: real)
    ensures vx / 2.0 * (s * vz) == vz / 2.0 * (s * vx)
    ensures -vx / 2.0 * (s * vz) == -vz / 2.0 * (s * vx)
  {}

  lemma MeetLeftIsOnBoth(a: Point, c: Point, sqrt: real -> real)
    requires IsSqrt(sqrt) && Close(a, c)
    ensures OnCircle(MeetLeft(a, c, sqrt), a) && OnCircle(MeetLeft(a, c, sqrt), c)
  {
    Apart(a, c);
    SquaredSymmetric(a, c);
    var g2 := Squared(a, c);
    ChordArgument(g2);
    var k := sqrt(REACH * REACH / g2 - 0.25);
    assert IsRoot(k, REACH * REACH / g2 - 0.25);
    SqEven(k);
    SqIsProduct(k);
    HalfChord(g2, k);
    AcrossIsOnBoth(a, c, MeetLeft(a, c, sqrt), if c.z - a.z >= 0.0 then k else -k);
  }

  lemma AcrossIsOnBoth(a: Point, c: Point, m: Point, s: real)
    requires m.x == a.x + ((c.x - a.x) / 2.0 - s * (c.z - a.z)) && m.z == a.z + ((c.z - a.z) / 2.0 + s * (c.x - a.x))
    requires Times(Sq(c.x - a.x) + Sq(c.z - a.z), Sq(s) + 0.25) == REACH * REACH
    ensures OnCircle(m, a) && OnCircle(m, c)
  {
    var vx, vz := c.x - a.x, c.z - a.z;
    HalfwayAcross(vx, vz, s);
    assert m.x - a.x == vx / 2.0 - s * vz && m.z - a.z == vz / 2.0 + s * vx;
    assert m.x - c.x == -vx / 2.0 - s * vz && m.z - c.z == -vz / 2.0 + s * vx;
  }

  lemma SeenFrom(m: Point, a: Point, c: Point)
    ensures Squared(m, c) == Sq(m.x - a.x - (c.x - a.x)) + Sq(m.z - a.z - (c.z - a.z))
    ensures Squared(a, c) == Sq(c.x - a.x) + Sq(c.z - a.z)
  {
    SquaredSymmetric(a, c);
    assert m.x - c.x == m.x - a.x - (c.x - a.x) && m.z - c.z == m.z - a.z - (c.z - a.z);
  }

  lemma DistanceOf(x: real, z: real, vx: real, vz: real)
    ensures Sq(x - vx) + Sq(z - vz) == Sq(x) + Sq(z) - 2.0 * Dot(x, z, vx, vz) + (Sq(vx) + Sq(vz))
  {
    SqDifference(x, vx);
    SqDifference(z, vz);
  }

  lemma AlongAndAcross(x: real, z: real, vx: real, vz: real)
    ensures Sq(Dot(x, z, vx, vz)) + Sq(x * vz - z * vx) == Times(Sq(x) + Sq(z), Sq(vx) + Sq(vz))
  {
    Lagrange(x, z, vx, vz);
  }

  lemma CoverByCoordinates(x: real, z: real, vx: real, vz: real)
    requires Sq(x) + Sq(z) == REACH * REACH > Sq(x - vx) + Sq(z - vz)
    ensures 2.0 * Dot(x, z, vx, vz) > Sq(vx) + Sq(vz)
    ensures Sq(Dot(x, z, vx, vz)) + Sq(x * vz - z * vx) == Times(REACH * REACH, Sq(vx) + Sq(vz))
  {
    DistanceOf(x, z, vx, vz);
    AlongAndAcross(x, z, vx, vz);
  }

  lemma CoverIsNear(x: real, z: real, vx: real, vz: real)
    requires Sq(x) + Sq(z) == REACH * REACH > Sq(x - vx) + Sq(z - vz) && Sq(vx) + Sq(vz) > 0.0
    ensures Sq(vx) + Sq(vz) < 4.0 * (REACH * REACH)
  {
    CoverByCoordinates(x, z, vx, vz);
    ShortChord(Dot(x, z, vx, vz), x * vz - z * vx, Sq(vx) + Sq(vz));
  }

  lemma CoverIsOther(m: Point, a: Point, c: Point)
    requires OnCircle(m, a) && !Clear(m, c)
    ensures a != c && Squared(a, c) > 0.0
  {
    assert a != c;
    Apart(a, c);
  }

  lemma CoverIsClose(m: Point, a: Point, c: Point)
    requires OnCircle(m, a) && !Clear(m, c)
    ensures Close(a, c) && Close(c, a)
  {
    CoverIsOther(m, a, c);
    SeenFrom(m, a, c);
    CoverIsNear(m.x - a.x, m.z - a.z, c.x - a.x, c.z - a.z);
    SquaredSymmetric(a, c);
  }

  /** A point of a's circle inside c, with c not left of a: the circles of a and c meet further left. */
  lemma CoverMeetsFurtherLeft(m: Point, a: Point, c: Point, sqrt: real -> real)
    requires IsSqrt(sqrt) && OnCircle(m, a) && !Clear(m, c) && a.x <= c.x && Close(a, c)
    ensures MeetLeft(a, c, sqrt).x < m.x
  {
    CoverIsOther(m, a, c);
    SeenFrom(m, a, c);
    var k := MeetLeftAt(a, c, sqrt);
    CoveredIsRight(m.x - a.x, m.z - a.z, c.x - a.x, c.z - a.z, k);
  }

  lemma MeetLeftAt(a: Point, c: Point, sqrt: real -> real) returns (k: real)
    requires IsSqrt(sqrt) && Close(a, c)
    ensures k >= 0.0 && Times(Squared(a, c), Sq(k) + 0.25) == REACH * REACH
    ensures MeetLeft(a, c, sqrt).x == a.x + ((c.x - a.x) / 2.0 - Times(k, Abs(c.z - a.z)))
  {
    Apart(a, c);
    ChordArgument(Squared(a, c));
    k := sqrt(REACH * REACH / Squared(a, c) - 0.25);
    assert IsRoot(k, REACH * REACH / Squared(a, c) - 0.25);
    RootOfChord(k, Squared(a, c));
    SignedTimes(k, c.z - a.z);
  }

  lemma RootOfChord(k: real, g2: real)
    requires 0.0 < g2 < 4.0 * (REACH * REACH) && IsRoot(k, REACH * REACH / g2 - 0.25)
    ensures k >= 0.0 && Times(g2, Sq(k) + 0.25) == REACH * REACH
  {
    SqIsProduct(k);
    HalfChord(g2, k);
  }

  lemma CoveredIsRight(x: real, z: real, vx: real, vz: real, k: real)
    requires Sq(x) + Sq(z) == REACH * REACH > Sq(x - vx) + Sq(z - vz) && Sq(vx) + Sq(vz) > 0.0
    requires Times(Sq(vx) + Sq(vz), Sq(k) + 0.25) == REACH * REACH && vx >= 0.0 && k >= 0.0
    ensures vx / 2.0 - Times(k, Abs(vz)) < x
  {
    CoverByCoordinates(x, z, vx, vz);
    NarrowBeta(Dot(x, z, vx, vz), x * vz - z * vx, Sq(vx) + Sq(vz), k);
    FurtherLeft(x, z, vx, vz, Dot(x, z, vx, vz), x * vz - z * vx, Sq(vx) + Sq(vz), k);
  }

  lemma SignedTimes(k: real, v: real)
    ensures (if v >= 0.0 then k else -k) * v == Times(k, Abs(v))
  {}

  lemma ShortChord(alpha: real, beta: real, g2: real)
    requires 2.0 * alpha > g2 > 0.0 && Sq(alpha) + Sq(beta) == Times(REACH * REACH, g2)
    ensures g2 < 4.0 * (REACH * REACH)
  {
    SqIncreases(g2 / 2.0, alpha);
    Quarter(g2);
    SqIsProduct(g2);
    assert g2 * g2 < 4.0 * (REACH * REACH) * g2;
  }

  lemma NarrowBeta(alpha: real, beta: real, g2: real, k: real)
    requires 2.0 * alpha > g2 > 0.0 && k >= 0.0 && Sq(alpha) + Sq(beta) == Times(REACH * REACH, g2)
    requires Times(g2, Sq(k) + 0.25) == REACH * REACH
    ensures Abs(beta) < Times(k, g2)
  {
    SqIncreases(g2 / 2.0, alpha);
    Quarter(g2);
    KSquared(k, g2);
    if Abs(beta) >= Times(k, g2) {
      SqEven(beta);
      NotNegative(k, g2);
      if Abs(beta) > Times(k, g2) { SqIncreases(Times(k, g2), Abs(beta)); }
    }
  }

  lemma KSquared(k: real, g2: real)
    requires Times(g2, Sq(k) + 0.25) == REACH * REACH
    ensures Sq(Times(k, g2)) == Times(REACH * REACH, g2) - 0.25 * Sq(g2)
  {
    var r2 := REACH * REACH;
    SqProduct(k, g2);
    SqIsProduct(g2);
    assert g2 * (Sq(k) + 0.25) == r2;
    assert g2 * (Sq(k) + 0.25) * g2 == Sq(k) * (g2 * g2) + 0.25 * (g2 * g2);
  }

  lemma FurtherLeft(x: real, z: real, vx: real, vz: real, alpha: real, beta: real, g2: real, k: real)
    requires alpha == Dot(x, z, vx, vz) && beta == x * vz - z * vx && g2 == Sq(vx) + Sq(vz) && g2 > 0.0
    requires 2.0 * alpha > g2 && Abs(beta) < Times(k, g2) && vx >= 0.0
    ensures vx / 2.0 - Times(k, Abs(vz)) < x
  {
    Decompose(x, z, vx, vz);
    AlphaPart(alpha, g2, vx);
    BetaPart(beta, Times(k, g2), vz);
    TimesSwap3(k, g2, Abs(vz));
    Expand(vx, Times(k, Abs(vz)), g2);
    if vx == 0.0 && vz == 0.0 { NoLength(vx, vz); }
    CancelTimes(vx / 2.0 - Times(k, Abs(vz)), x, g2);
  }

  lemma NoLength(vx: real, vz: real)
    requires vx == 0.0 && vz == 0.0
    ensures Sq(vx) + Sq(vz) == 0.0
  {}

  lemma Decompose(x: real, z: real, vx: real, vz: real)
    ensures Times(x, Sq(vx) + Sq(vz)) == Times(Dot(x, z, vx, vz), vx) + Times(x * vz - z * vx, vz)
  {}

  lemma AlphaPart(alpha: real, g2: real, vx: real)
    requires 2.0 * alpha > g2 && vx >= 0.0
    ensures Times(alpha, vx) >= Times(g2 / 2.0, vx) && (vx > 0.0 ==> Times(alpha, vx) > Times(g2 / 2.0, vx))
  {
    var gap := alpha - g2 / 2.0;
    assert gap > 0.0 && Times(alpha, vx) == Times(g2 / 2.0, vx) + Times(gap, vx);
    PositiveTimes(gap, vx);
  }

  lemma PositiveTimes(a: real, b: real)
    requires a > 0.0 && b >= 0.0
    ensures Times(a, b) >= 0.0 && (b > 0.0 ==> Times(a, b) > 0.0)
  {}

  lemma BetaPart(beta: real, most: real, vz: real)
    requires Abs(beta) < most
    ensures Times(beta, vz) >= -Times(most, Abs(vz)) && (vz != 0.0 ==> Times(beta, vz) > -Times(most, Abs(vz)))
  {
    var v := Abs(vz);
    assert Times(beta, vz) == Times(beta, v) || Times(beta, vz) == -Times(beta, v);
    if vz != 0.0 {
      assert (most - beta) * v > 0.0;
      assert (most + beta) * v > 0.0;
    }
  }

  lemma TimesSwap3(k: real, g2: real, v: real)
    ensures Times(Times(k, g2), v) == Times(Times(k, v), g2)
  {}

  lemma Expand(vx: real, d: real, g2: real)
    ensures Times(vx / 2.0 - d, g2) == Times(g2 / 2.0, vx) - Times(d, g2)
  {}

  lemma CancelTimes(x: real, y: real, g: real)
    requires g > 0.0 && Times(x, g) < Times(y, g)
    ensures x < y
  {
    if x >= y { ProductOfNonNegatives(x - y, g); }
  }

  ghost predicate HasClose(spots: seq<Point>, a: Point) {
    exists j :: 0 <= j < |spots| && Close(a, spots[j])
  }

  /** The first of those that qualify with the least measure. */
  lemma {:induction false} Least(spots: seq<Point>, fits: Point -> bool, measure: Point -> real, i: nat) returns (k: nat)
    requires i < |spots| && fits(spots[i])
    ensures k < |spots| && fits(spots[k])
    ensures forall j :: 0 <= j < |spots| && fits(spots[j]) ==> measure(spots[k]) <= measure(spots[j])
  {
    var n := |spots| - 1;
    var rest := spots[..n];
    if j :| 0 <= j < n && fits(spots[j]) {
      assert rest[j] == spots[j];
      k := Least(rest, fits, measure, j);
      if fits(spots[n]) && measure(spots[n]) < measure(spots[k]) { k := n; }
      forall j | 0 <= j < |spots| && fits(spots[j]) ensures measure(spots[k]) <= measure(spots[j]) {
        if j < n { assert spots[j] == rest[j]; }
      }
    } else {
      k := n;
    }
  }

  /** Among machines that are not spaced out, two close ones' circles meet clear of every machine:
      where the leftmost machine that has a close one meets the circles of those, furthest left. */
  lemma {:induction false} ClearMeeting(spots: seq<Point>, i: nat, j: nat, sqrt: real -> real) returns (m: Point, a: nat, c: nat)
    requires IsSqrt(sqrt) && i < |spots| && j < |spots| && Close(spots[i], spots[j])
    ensures a < |spots| && c < |spots| && Close(spots[a], spots[c])
    ensures OnCircle(m, spots[a]) && OnCircle(m, spots[c]) && ClearOfAll(m, spots)
  {
    assert HasClose(spots, spots[i]);
    a := Least(spots, p => HasClose(spots, p), (p: Point) => p.x, i);
    var left := spots[a];
    var other :| 0 <= other < |spots| && Close(left, spots[other]);
    c := Least(spots, p => Close(left, p), p => if Close(left, p) then MeetLeft(left, p, sqrt).x else 0.0, other);
    m := MeetLeft(left, spots[c], sqrt);
    MeetLeftIsOnBoth(left, spots[c], sqrt);
    forall k | 0 <= k < |spots| ensures Clear(m, spots[k]) {
      if !Clear(m, spots[k]) {
        CoverIsClose(m, left, spots[k]);
        assert HasClose(spots, spots[k]);
        CoverMeetsFurtherLeft(m, left, spots[k], sqrt);
      }
    }
  }

  lemma {:induction false} FirstOn(m: Point, spots: seq<Point>, k: nat) returns (i: nat)
    requires k < |spots| && OnCircle(m, spots[k])
    ensures i <= k && OnCircle(m, spots[i]) && forall j :: 0 <= j < i ==> !OnCircle(m, spots[j])
  {
    i := k;
    if j :| 0 <= j < k && OnCircle(m, spots[j]) { i := FirstOn(m, spots, j); }
  }

  /** Of two close machines whose circles meet at m, any third whose circle passes there is close to one. */
  lemma CloseToOne(m: Point, o: Point, a: Point, c: Point)
    requires OnCircle(m, o) && OnCircle(m, a) && OnCircle(m, c) && Close(a, c)
    ensures Close(o, a) || Close(o, c)
  {
    SquaredSymmetric(m, o);
    SquaredSymmetric(m, a);
    SquaredSymmetric(m, c);
    SquaredSymmetric(a, c);
    if o != a && o != c && !Close(o, a) {
      var r2 := REACH * REACH;
      MeetingProducts(o.x - m.x, o.z - m.z, a.x - m.x, a.z - m.z, r2);
      assert o.x - a.x == o.x - m.x - (a.x - m.x) && o.z - a.z == o.z - m.z - (a.z - m.z);
      SqZero((o.x - m.x + (a.x - m.x)) / 2.0);
      SqZero((o.z - m.z + (a.z - m.z)) / 2.0);
      Opposite(a.x - m.x, a.z - m.z, c.x - m.x, c.z - m.z, r2);
      Apart(a, c);
      assert a.x - c.x == a.x - m.x - (c.x - m.x) && a.z - c.z == a.z - m.z - (c.z - m.z);
      assert o.x - c.x == -(a.x - m.x + (c.x - m.x)) && o.z - c.z == -(a.z - m.z + (c.z - m.z));
      SqEven(a.x - m.x + (c.x - m.x));
      SqEven(a.z - m.z + (c.z - m.z));
    }
  }

  lemma Opposite(ax: real, az: real, cx: real, cz: real, r2: real)
    requires Sq(ax) + Sq(az) == r2 && Sq(cx) + Sq(cz) == r2
    ensures Sq(ax + cx) + Sq(az + cz) == 4.0 * r2 - (Sq(ax - cx) + Sq(az - cz))
  {
    SqSum(ax, cx);
    SqSum(az, cz);
    SqDifference(ax, cx);
    SqDifference(az, cz);
  }

  lemma {:induction false} ResolvedSkips(previous: Point, p: Point, spots: seq<Point>, n: nat, sqrt: real -> real)
    requires IsSqrt(sqrt) && n <= |spots| && forall k :: 0 <= k < n ==> Clear(p, spots[k])
    ensures Resolved(previous, p, spots, sqrt) == Resolved(previous, p, spots[n..], sqrt)
  {
    if n == 0 {
      assert spots[0..] == spots;
    } else {
      var distance := sqrt(Squared(p, spots[0]));
      assert IsRoot(distance, Squared(p, spots[0])) && Clear(p, spots[0]);
      ReachOrder(distance, Squared(p, spots[0]));
      assert spots[1..][n - 1..] == spots[n..];
      ResolvedSkips(previous, p, spots[1..], n - 1, sqrt);
    }
  }

  /** Whatever machines are not spaced out, some frame's step leaves a player who was clear of
      all of them inside one. */
  lemma {:induction false} CloseMachinesCascade(spots: seq<Point>, i: nat, j: nat, sqrt: real -> real)
    returns (previous: Point, p: Point)
    requires IsSqrt(sqrt) && i < |spots| && j < |spots| && Close(spots[i], spots[j])
    ensures ClearOfAll(previous, spots) && Squared(p, previous) <= Sq(STRIDE)
    ensures !ClearOfAll(Resolved(previous, p, spots, sqrt), spots)
  {
    var m, a, c := ClearMeeting(spots, i, j, sqrt);
    var first := FirstOn(m, spots, a);
    CloseToOne(m, spots[first], spots[a], spots[c]);
    var other := if Close(spots[first], spots[a]) then a else c;
    var t := SmallForAll(m, spots[first], spots[other], spots);
    previous, p := m, Inwards(m, spots[first], spots[other], t);
    forall k | 0 <= k < first ensures Clear(p, spots[k]) {
      assert Clear(m, spots[k]);
      SmallStaysClear(m, spots[first], spots[other], spots[k], t);
    }
    ResolvedSkips(m, p, spots, first, sqrt);
    var d := sqrt(Squared(p, spots[first]));
    assert IsRoot(d, Squared(p, spots[first]));
    StepsInside(m, spots[first], spots[other], t, d);
    PushedIntoTheOther(m, spots[first], spots[other], t, d);
    assert spots[first..][0] == spots[first];
  }

  /** One push is always enough exactly when different machines are at least twice the reach apart. */
  lemma {:induction false} SolidExactlyWhenSpacedOut(spots: seq<Point>, sqrt: real -> real)
    requires IsSqrt(sqrt)
    ensures Solid(spots, sqrt) <==> SpacedOut(spots)
  {
    if SpacedOut(spots) {
      forall previous, p | ClearOfAll(previous, spots) ensures ClearOfAll(Resolved(previous, p, spots, sqrt), spots) {
        assert spots[0..] == spots;
        CollidersDoNotCascade(previous, p, spots, 0, sqrt);
      }
    } else {
      var i, j :| 0 <= i < j < |spots| && Close(spots[i], spots[j]);
      var previous, p := CloseMachinesCascade(spots, i, j, sqrt);
    }
  }
}
