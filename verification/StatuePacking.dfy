/** The line of Mega Man statues: figures of different widths packed along a list of walls. */
module StatuePacking {
  import opened Plane

  datatype Wall = Wall(alongX: bool, start: real, stop: real, fixed: real, rotation: real)

  datatype Figure = Figure(slug: string, width: real)

  /** A figure on a wall, centred at `centre` along it. */
  datatype Spot = Spot(wall: nat, centre: real, figure: Figure)

  datatype Placed = Placed(slug: string, x: real, z: real, rotation: real)

  const GAP := 0.4
  const HEIGHT := 2.43

  function Sign(v: real): real { if v > 0.0 then 1.0 else if v < 0.0 then -1.0 else 0.0 }

  function Direction(w: Wall): real { Sign(w.stop - w.start) }

  /** `direction * distance` further along the wall. */
  function Move(w: Wall, from: real, distance: real): real {
    if w.start < w.stop then from + distance else if w.start > w.stop then from - distance else from
  }

  /** How far `there` lies beyond `here`, going along the wall. */
  function Ahead(w: Wall, here: real, there: real): real {
    if w.start < w.stop then there - here else if w.start > w.stop then here - there else 0.0
  }

  lemma {:induction false} MoveIsDirected(w: Wall, from: real, distance: real)
    ensures Move(w, from, distance) == from + Direction(w) * distance
  {}

  function Length(w: Wall): real { Abs(w.stop - w.start) }

  function PlaceOf(s: Spot, w: Wall): Placed {
    Placed(s.figure.slug, if w.alongX then s.centre else w.fixed, if w.alongX then w.fixed else s.centre, w.rotation)
  }

  /** The first `n` figures side by side, a gap between neighbours. */
  function Span(figures: seq<Figure>, n: nat): real
    requires n <= |figures|
  {
    if n == 0 then 0.0
    else if n == 1 then figures[0].width
    else Span(figures, n - 1) + GAP + figures[n - 1].width
  }

  /** Packs `figures` from `cursor` on wall `run` onwards. */
  function PackFrom(figures: seq<Figure>, walls: seq<Wall>, run: nat, cursor: real): seq<Spot>
    decreases |figures|, |walls| - run
  {
    if figures == [] || run >= |walls| then []
    else
      var f, wall := figures[0], walls[run];
      if Abs(cursor - wall.stop) < f.width then
        PackFrom(figures, walls, run + 1, if run + 1 < |walls| then walls[run + 1].start else cursor)
      else
        [Spot(run, Move(wall, cursor, f.width / 2.0), f)]
        + PackFrom(figures[1..], walls, run, Move(wall, cursor, f.width + GAP))
  }

  /** How many figures the first wall is to hold: the longest prefix that fits. */
  ghost predicate LongestFit(figures: seq<Figure>, capacity: real, n: nat) {
    && n <= |figures|
    && Span(figures, n) <= capacity
    && (n < |figures| ==> Span(figures, n + 1) > capacity)
  }

  ghost predicate WiderThanGap(figures: seq<Figure>) {
    forall k :: 0 <= k < |figures| ==> figures[k].width > GAP
  }

  /** Where packing starts when `used` of the first wall is to be filled, centred. */
  function CentredStart(wall: Wall, used: real): real {
    Move(wall, wall.start, (Length(wall) - used) / 2.0)
  }

  /** The places of packed figures in the room. */
  function Places(spots: seq<Spot>, walls: seq<Wall>): seq<Placed> {
    if spots == [] then []
    else
      var last := spots[|spots| - 1];
      Places(spots[..|spots| - 1], walls) + if last.wall < |walls| then [PlaceOf(last, walls[last.wall])] else []
  }

  method PackMegaManStatues(figures: seq<Figure>, walls: seq<Wall>) returns (placed: seq<Placed>, fit: nat)
    requires walls != [] && WiderThanGap(figures)
    ensures LongestFit(figures, Length(walls[0]), fit)
    ensures placed == Places(PackFrom(figures, walls, 0, CentredStart(walls[0], Span(figures, fit))), walls)
  {
    var first := walls[0];
    var capacity := Abs(first.stop - first.start);
    var used;
    fit, used := FillFirst(figures, capacity);
    MoveIsDirected(first, first.start, (capacity - used) / 2.0);
    placed := PlaceAlong(figures, walls, first.start + Sign(first.stop - first.start) * ((capacity - used) / 2.0));
  }

  /** The first loop: what fits on the first wall. */
  method FillFirst(figures: seq<Figure>, capacity: real) returns (fit: nat, used: real)
    requires WiderThanGap(figures) && capacity >= 0.0
    ensures LongestFit(figures, capacity, fit) && used == Span(figures, fit)
  {
    used, fit := 0.0, 0;
    while fit < |figures|
      invariant fit <= |figures| && used == Span(figures, fit) <= capacity
      invariant used >= 0.0 && (fit == 0 <==> used == 0.0)
    {
      var width := figures[fit].width;
      var extended := if used != 0.0 then used + GAP + width else width;
      if extended > capacity { break; }
      used := extended;
      fit := fit + 1;
    }
  }

  lemma {:induction false} PlacesSnoc(spots: seq<Spot>, s: Spot, walls: seq<Wall>)
    requires s.wall < |walls|
    ensures Places(spots + [s], walls) == Places(spots, walls) + [PlaceOf(s, walls[s.wall])]
  {
    assert (spots + [s])[..|spots|] == spots;
  }

  lemma {:induction false} PackSkips(rest: seq<Figure>, walls: seq<Wall>, run: nat, cursor: real)
    requires rest != [] && run < |walls| && Abs(cursor - walls[run].stop) < rest[0].width
    ensures PackFrom(rest, walls, run, cursor)
            == PackFrom(rest, walls, run + 1, if run + 1 < |walls| then walls[run + 1].start else cursor)
  {}

  lemma {:induction false} PackPlaces(rest: seq<Figure>, walls: seq<Wall>, run: nat, cursor: real)
    requires rest != [] && run < |walls| && Abs(cursor - walls[run].stop) >= rest[0].width
    ensures var d := Direction(walls[run]);
            PackFrom(rest, walls, run, cursor)
            == [Spot(run, cursor + d * (rest[0].width / 2.0), rest[0])]
               + PackFrom(rest[1..], walls, run, cursor + d * (rest[0].width + GAP))
  {
    MoveIsDirected(walls[run], cursor, rest[0].width / 2.0);
    MoveIsDirected(walls[run], cursor, rest[0].width + GAP);
  }

  lemma {:induction false} PackPlacesOn(whole: seq<Spot>, spots: seq<Spot>, rest: seq<Figure>, walls: seq<Wall>, run: nat, cursor: real)
    requires rest != [] && run < |walls| && Abs(cursor - walls[run].stop) >= rest[0].width
    requires whole == spots + PackFrom(rest, walls, run, cursor)
    ensures var d := Direction(walls[run]);
            whole == spots + [Spot(run, cursor + d * (rest[0].width / 2.0), rest[0])]
                     + PackFrom(rest[1..], walls, run, cursor + d * (rest[0].width + GAP))
  {
    PackPlaces(rest, walls, run, cursor);
  }

  /** The second loop: a figure that does not fit what is left of a wall starts the next one. */
  method PlaceAlong(figures: seq<Figure>, walls: seq<Wall>, origin: real) returns (placed: seq<Placed>)
    ensures placed == Places(PackFrom(figures, walls, 0, origin), walls)
  {
    placed := [];
    ghost var spots := [];
    var runIndex, cursor := 0, origin;
    for k := 0 to |figures|
      invariant PackFrom(figures, walls, 0, origin) == spots + PackFrom(figures[k..], walls, runIndex, cursor)
      invariant placed == Places(spots, walls)
    {
      var f := figures[k];
      ghost var rest := figures[k..];
      assert rest[0] == f && rest[1..] == figures[k + 1..];
      while runIndex < |walls| && Abs(cursor - walls[runIndex].stop) < f.width
        invariant PackFrom(figures, walls, 0, origin) == spots + PackFrom(rest, walls, runIndex, cursor)
        decreases |walls| - runIndex
      {
        PackSkips(rest, walls, runIndex, cursor);
        runIndex := runIndex + 1;
        if runIndex < |walls| { cursor := walls[runIndex].start; }
      }
      if runIndex >= |walls| { continue; }
      var run := walls[runIndex];
      var direction := Sign(run.stop - run.start);
      var centre := cursor + direction * (f.width / 2.0);
      PackPlacesOn(PackFrom(figures, walls, 0, origin), spots, rest, walls, runIndex, cursor);
      PlacesSnoc(spots, Spot(runIndex, centre, f), walls);
      placed := placed + [Placed(f.slug, if run.alongX then centre else run.fixed,
                                 if run.alongX then run.fixed else centre, run.rotation)];
      cursor := cursor + direction * (f.width + GAP);
      spots := spots + [Spot(runIndex, centre, f)];
    }
    assert spots + [] == spots;
  }

  /** A cursor no further along its wall than a gap past the end. */
  ghost predicate Along(w: Wall, cursor: real) {
    if w.start < w.stop then w.start <= cursor <= w.stop + GAP
    else if w.start > w.stop then w.stop - GAP <= cursor <= w.start
    else cursor == w.start
  }

  /** The whole figure stands between the wall's ends. */
  ghost predicate Inside(s: Spot, w: Wall) {
    var half := s.figure.width / 2.0;
    if w.start <= w.stop then w.start <= s.centre - half && s.centre + half <= w.stop
    else w.stop <= s.centre - half && s.centre + half <= w.start
  }

  /** The figure starts at or beyond `edge`, going along the wall. */
  ghost predicate Beyond(s: Spot, w: Wall, edge: real) {
    Ahead(w, edge, s.centre) >= s.figure.width / 2.0
  }

  /** The edge the next figure has to keep beyond. */
  function NextEdge(s: Spot, w: Wall): real { Move(w, s.centre, s.figure.width / 2.0 + GAP) }

  lemma {:induction false} FirstSpot(f: Figure, walls: seq<Wall>, run: nat, cursor: real)
    requires run < |walls| && f.width > GAP && Along(walls[run], cursor)
    requires Abs(cursor - walls[run].stop) >= f.width
    ensures var w, s := walls[run], Spot(run, Move(walls[run], cursor, f.width / 2.0), f);
            var next := Move(w, cursor, f.width + GAP);
            Inside(s, w) && Beyond(s, w, cursor) && Along(w, next) && next == NextEdge(s, w)
            && Ahead(w, cursor, next) == f.width + GAP && w.start != w.stop
  {}

  lemma {:induction false} StillBeyond(s: Spot, w: Wall, cursor: real, next: real)
    requires Beyond(s, w, next) && Ahead(w, cursor, next) >= 0.0
    ensures Beyond(s, w, cursor)
  {}

  lemma {:induction false} WallsFrom(figures: seq<Figure>, walls: seq<Wall>, run: nat, cursor: real)
    ensures var spots := PackFrom(figures, walls, run, cursor);
            (forall k :: 0 <= k < |spots| ==> spots[k].wall >= run) && (spots == [] || spots[0].wall >= run)
    decreases |figures|, |walls| - run
  {
    if figures != [] && run < |walls| {
      var f, w := figures[0], walls[run];
      if Abs(cursor - w.stop) < f.width {
        WallsFrom(figures, walls, run + 1, if run + 1 < |walls| then walls[run + 1].start else cursor);
      } else {
        WallsFrom(figures[1..], walls, run, Move(w, cursor, f.width + GAP));
      }
    }
  }

  /** The figures placed are the first of the list, in order, each wholly on its wall and beyond the cursor. */
  lemma {:induction false} PackedInside(figures: seq<Figure>, walls: seq<Wall>, run: nat, cursor: real, k: nat)
    requires WiderThanGap(figures) && (run < |walls| ==> Along(walls[run], cursor))
    requires k < |PackFrom(figures, walls, run, cursor)|
    ensures var s := PackFrom(figures, walls, run, cursor)[k];
            && k < |figures| && s.figure == figures[k]
            && run <= s.wall < |walls| && Inside(s, walls[s.wall])
            && (s.wall == run ==> Beyond(s, walls[run], cursor))
    decreases |figures|, |walls| - run
  {
    var f, w := figures[0], walls[run];
    if Abs(cursor - w.stop) < f.width {
      PackedInside(figures, walls, run + 1, if run + 1 < |walls| then walls[run + 1].start else cursor, k);
    } else {
      var next := Move(w, cursor, f.width + GAP);
      FirstSpot(f, walls, run, cursor);
      if k > 0 {
        PackedInside(figures[1..], walls, run, next, k - 1);
        var s := PackFrom(figures[1..], walls, run, next)[k - 1];
        if s.wall == run { StillBeyond(s, w, cursor, next); }
      }
    }
  }

  /** Walls are used in order, and two figures on one wall are in order with at least the gap between them. */
  lemma {:induction false} PackedApart(figures: seq<Figure>, walls: seq<Wall>, run: nat, cursor: real, i: nat, j: nat)
    requires WiderThanGap(figures) && (run < |walls| ==> Along(walls[run], cursor))
    requires i < j < |PackFrom(figures, walls, run, cursor)|
    ensures var spots := PackFrom(figures, walls, run, cursor);
            && spots[i].wall <= spots[j].wall < |walls|
            && (spots[i].wall == spots[j].wall ==>
                  Beyond(spots[j], walls[spots[j].wall], NextEdge(spots[i], walls[spots[i].wall])))
    decreases |figures|, |walls| - run
  {
    var f, w := figures[0], walls[run];
    if Abs(cursor - w.stop) < f.width {
      PackedApart(figures, walls, run + 1, if run + 1 < |walls| then walls[run + 1].start else cursor, i, j);
    } else {
      var next := Move(w, cursor, f.width + GAP);
      FirstSpot(f, walls, run, cursor);
      if i == 0 {
        PackedInside(figures[1..], walls, run, next, j - 1);
      } else {
        PackedApart(figures[1..], walls, run, next, i - 1, j - 1);
      }
    }
  }

  /** Figures are dropped only from the end, and the first one dropped is wider than every wall not yet used. */
  lemma {:induction false} DroppedFitsNowhere(figures: seq<Figure>, walls: seq<Wall>, run: nat, cursor: real, other: nat)
    requires WiderThanGap(figures)
    requires var spots := PackFrom(figures, walls, run, cursor);
             && |spots| < |figures| && run < other < |walls|
             && forall k :: 0 <= k < |spots| ==> spots[k].wall < other
    ensures Length(walls[other]) < figures[|PackFrom(figures, walls, run, cursor)|].width
    decreases |figures|, |walls| - run
  {
    var f, w := figures[0], walls[run];
    if Abs(cursor - w.stop) < f.width {
      var next := walls[run + 1].start;
      if other > run + 1 {
        DroppedFitsNowhere(figures, walls, run + 1, next, other);
      } else {
        var spots := PackFrom(figures, walls, other, next);
        WallsFrom(figures, walls, other, next);
        assert spots == PackFrom(figures, walls, run, cursor);
      }
    } else {
      var next := Move(w, cursor, f.width + GAP);
      var spots, rest := PackFrom(figures, walls, run, cursor), PackFrom(figures[1..], walls, run, next);
      forall k | 0 <= k < |rest| ensures rest[k].wall < other { assert spots[k + 1] == rest[k]; }
      DroppedFitsNowhere(figures[1..], walls, run, next, other);
    }
  }

  /** Where figure `n` of the first wall starts, measured from the first figure's edge. */
  function Offset(figures: seq<Figure>, n: nat): real
    requires n <= |figures|
  {
    if n == 0 then 0.0 else Span(figures, n) + GAP
  }

  lemma {:induction false} SpanGrows(figures: seq<Figure>, i: nat, j: nat)
    requires WiderThanGap(figures) && i <= j <= |figures|
    ensures 0.0 <= Span(figures, i) <= Span(figures, j)
    ensures i < j ==> Span(figures, j) >= Offset(figures, i) + figures[i].width
    decreases j
  {
    if j > 0 {
      SpanGrows(figures, if i < j then i else j - 1, j - 1);
      if i < j - 1 { SpanGrows(figures, i, j - 1); }
    }
  }

  /** The cursor in front of figure `k` of the first wall. */
  function StartOf(figures: seq<Figure>, w: Wall, origin: real, k: nat): real
    requires k <= |figures|
  {
    Move(w, origin, Offset(figures, k))
  }

  lemma {:induction false} NextStart(figures: seq<Figure>, w: Wall, origin: real, k: nat)
    requires k < |figures|
    ensures Move(w, StartOf(figures, w, origin, k), figures[k].width + GAP) == StartOf(figures, w, origin, k + 1)
  {
    assert Offset(figures, k + 1) == Offset(figures, k) + figures[k].width + GAP;
  }

  /** Cursors in front of the first `fit` figures and after them, exactly those finding room on the wall. */
  ghost predicate HoldsExactly(figures: seq<Figure>, w: Wall, starts: seq<real>, fit: nat) {
    && fit <= |figures| && |starts| == fit + 1
    && (forall k :: 0 <= k < fit ==>
          Abs(starts[k] - w.stop) >= figures[k].width && Move(w, starts[k], figures[k].width + GAP) == starts[k + 1])
    && (fit < |figures| ==> Abs(starts[fit] - w.stop) < figures[fit].width)
  }

  lemma {:induction false} TakesPrefix(figures: seq<Figure>, walls: seq<Wall>, starts: seq<real>, fit: nat, k: nat, at: nat)
    requires walls != [] && HoldsExactly(figures, walls[0], starts, fit) && k <= fit
    requires at < |PackFrom(figures[k..], walls, 0, starts[k])|
    ensures var s := PackFrom(figures[k..], walls, 0, starts[k])[at];
            && (s.wall == 0 <==> k + at < fit)
            && (k + at < fit ==> s.centre == Move(walls[0], starts[k + at], figures[k + at].width / 2.0))
    decreases fit - k
  {
    var rest := figures[k..];
    assert rest != [] && rest[0] == figures[k] && rest[1..] == figures[k + 1..];
    if k == fit {
      SkipsFirstWall(rest, walls, starts[k]);
    } else {
      TakesOne(figures, walls, starts[k], k);
      if at > 0 { TakesPrefix(figures, walls, starts, fit, k + 1, at - 1); }
    }
  }

  lemma {:induction false} SkipsFirstWall(rest: seq<Figure>, walls: seq<Wall>, start: real)
    requires rest != [] && walls != [] && Abs(start - walls[0].stop) < rest[0].width
    ensures forall i :: 0 <= i < |PackFrom(rest, walls, 0, start)| ==> PackFrom(rest, walls, 0, start)[i].wall >= 1
  {
    WallsFrom(rest, walls, 1, if 1 < |walls| then walls[1].start else start);
  }

  lemma {:induction false} TakesOne(figures: seq<Figure>, walls: seq<Wall>, start: real, k: nat)
    requires walls != [] && k < |figures| && Abs(start - walls[0].stop) >= figures[k].width
    ensures var w := walls[0];
            PackFrom(figures[k..], walls, 0, start)
            == [Spot(0, Move(w, start, figures[k].width / 2.0), figures[k])]
               + PackFrom(figures[k + 1..], walls, 0, Move(w, start, figures[k].width + GAP))
  {
    assert figures[k..][0] == figures[k] && figures[k..][1..] == figures[k + 1..];
  }

  lemma {:induction false} PrefixIsPlaced(figures: seq<Figure>, walls: seq<Wall>, starts: seq<real>, fit: nat, k: nat)
    requires walls != [] && HoldsExactly(figures, walls[0], starts, fit) && k <= fit
    ensures |PackFrom(figures[k..], walls, 0, starts[k])| >= fit - k
    decreases fit - k
  {
    if k < fit {
      TakesOne(figures, walls, starts[k], k);
      PrefixIsPlaced(figures, walls, starts, fit, k + 1);
    }
  }

  lemma {:induction false} CentredRemainder(w: Wall, used: real, offset: real)
    requires w.start != w.stop
    ensures Abs(Move(w, CentredStart(w, used), offset) - w.stop) == Abs((Length(w) + used) / 2.0 - offset)
  {}

  function StartsOf(figures: seq<Figure>, w: Wall, origin: real, fit: nat): (starts: seq<real>)
    requires fit <= |figures|
    ensures |starts| == fit + 1 && forall k :: 0 <= k <= fit ==> starts[k] == StartOf(figures, w, origin, k)
  {
    seq(fit + 1, k requires 0 <= k <= fit => StartOf(figures, w, origin, k))
  }

  lemma {:induction false} StillFits(figures: seq<Figure>, w: Wall, fit: nat, k: nat)
    requires WiderThanGap(figures) && LongestFit(figures, Length(w), fit) && w.start != w.stop && k < fit
    ensures Abs(StartOf(figures, w, CentredStart(w, Span(figures, fit)), k) - w.stop) >= figures[k].width
  {
    CentredRemainder(w, Span(figures, fit), Offset(figures, k));
    SpanGrows(figures, k, fit);
  }

  lemma {:induction false} NoMoreFits(figures: seq<Figure>, w: Wall, fit: nat)
    requires WiderThanGap(figures) && LongestFit(figures, Length(w), fit) && w.start != w.stop && fit < |figures|
    ensures Abs(StartOf(figures, w, CentredStart(w, Span(figures, fit)), fit) - w.stop) < figures[fit].width
  {
    CentredRemainder(w, Span(figures, fit), Offset(figures, fit));
    SpanGrows(figures, fit, fit);
    assert fit > 0 ==> Span(figures, fit + 1) == Span(figures, fit) + GAP + figures[fit].width;
  }

  /** A wall of no length holds nobody. */
  lemma {:induction false} NothingFits(figures: seq<Figure>, w: Wall, fit: nat)
    requires WiderThanGap(figures) && LongestFit(figures, Length(w), fit) && w.start == w.stop
    ensures fit == 0
    ensures fit < |figures| ==> Abs(StartOf(figures, w, CentredStart(w, Span(figures, fit)), fit) - w.stop) < figures[fit].width
  {
    if fit > 0 { SpanGrows(figures, 0, fit); }
  }

  lemma {:induction false} StartsHold(figures: seq<Figure>, w: Wall, origin: real, fit: nat)
    requires fit <= |figures|
    requires forall k :: 0 <= k < fit ==> Abs(StartOf(figures, w, origin, k) - w.stop) >= figures[k].width
    requires fit < |figures| ==> Abs(StartOf(figures, w, origin, fit) - w.stop) < figures[fit].width
    ensures HoldsExactly(figures, w, StartsOf(figures, w, origin, fit), fit)
  {
    var starts := StartsOf(figures, w, origin, fit);
    forall k | 0 <= k < fit ensures Move(w, starts[k], figures[k].width + GAP) == starts[k + 1] {
      NextStart(figures, w, origin, k);
    }
  }

  /** Starting centred, the first wall has room for exactly the prefix measured for it. */
  lemma {:induction false} CentredHoldsExactly(figures: seq<Figure>, w: Wall, fit: nat)
    requires WiderThanGap(figures) && LongestFit(figures, Length(w), fit)
    ensures HoldsExactly(figures, w, StartsOf(figures, w, CentredStart(w, Span(figures, fit)), fit), fit)
  {
    var origin := CentredStart(w, Span(figures, fit));
    if w.start == w.stop { NothingFits(figures, w, fit); }
    forall k | 0 <= k < fit ensures Abs(StartOf(figures, w, origin, k) - w.stop) >= figures[k].width {
      StillFits(figures, w, fit, k);
    }
    if fit < |figures| && w.start != w.stop { NoMoreFits(figures, w, fit); }
    StartsHold(figures, w, origin, fit);
  }

  /** Where the figures of the first wall stand. */
  lemma {:induction false} FirstWallPlaces(figures: seq<Figure>, walls: seq<Wall>, fit: nat, k: nat)
    requires walls != [] && WiderThanGap(figures) && LongestFit(figures, Length(walls[0]), fit)
    ensures var origin := CentredStart(walls[0], Span(figures, fit));
            var spots := PackFrom(figures, walls, 0, origin);
            && |spots| >= fit
            && (k < |spots| ==> (spots[k].wall == 0 <==> k < fit))
            && (k < fit ==> spots[k].centre == Move(walls[0], StartOf(figures, walls[0], origin, k), figures[k].width / 2.0))
  {
    var w, origin := walls[0], CentredStart(walls[0], Span(figures, fit));
    var starts := StartsOf(figures, w, origin, fit);
    assert figures[0..] == figures && starts[0] == origin;
    CentredHoldsExactly(figures, w, fit);
    PrefixIsPlaced(figures, walls, starts, fit, 0);
    if k < |PackFrom(figures, walls, 0, origin)| { TakesPrefix(figures, walls, starts, fit, 0, k); }
  }

  /** The first wall holds exactly the longest prefix that fits, centred: the end margins are equal. */
  lemma {:induction false} FirstWallIsCentred(figures: seq<Figure>, walls: seq<Wall>, fit: nat, k: nat)
    requires walls != [] && WiderThanGap(figures) && LongestFit(figures, Length(walls[0]), fit)
    ensures var w, spots := walls[0], PackFrom(figures, walls, 0, CentredStart(walls[0], Span(figures, fit)));
            var margin := (Length(w) - Span(figures, fit)) / 2.0;
            && margin >= 0.0 && |spots| >= fit
            && (k < |spots| ==> (spots[k].wall == 0 <==> k < fit))
            && (k == 0 < fit ==> Ahead(w, w.start, spots[k].centre) == margin + figures[k].width / 2.0)
            && (k + 1 == fit ==> Ahead(w, spots[k].centre, w.stop) == margin + figures[k].width / 2.0)
  {
    var w := walls[0];
    FirstWallPlaces(figures, walls, fit, k);
    if w.start == w.stop { NothingFits(figures, w, fit); }
    else if k < fit { MarginsOf(figures, w, fit, k); }
  }

  lemma {:induction false} MarginsOf(figures: seq<Figure>, w: Wall, fit: nat, k: nat)
    requires w.start != w.stop && k < fit <= |figures|
    ensures var centre := Move(w, StartOf(figures, w, CentredStart(w, Span(figures, fit)), k), figures[k].width / 2.0);
            var margin := (Length(w) - Span(figures, fit)) / 2.0;
            && Ahead(w, w.start, centre) == margin + Offset(figures, k) + figures[k].width / 2.0
            && (k + 1 == fit ==> Ahead(w, centre, w.stop) == margin + figures[k].width / 2.0)
  {
    if k + 1 == fit { assert Span(figures, fit) == Offset(figures, k) + figures[k].width; }
  }

  lemma {:induction false} PlacesEach(spots: seq<Spot>, walls: seq<Wall>)
    requires forall k :: 0 <= k < |spots| ==> spots[k].wall < |walls|
    ensures |Places(spots, walls)| == |spots|
    ensures forall k :: 0 <= k < |spots| ==> Places(spots, walls)[k] == PlaceOf(spots[k], walls[spots[k].wall])
  {
    if spots != [] {
      var front, last := spots[..|spots| - 1], spots[|spots| - 1];
      PlacesEach(front, walls);
      assert Places(spots, walls) == Places(front, walls) + [PlaceOf(last, walls[last.wall])];
    }
  }

  /** The line as packed: the cast's first figures in order, each wholly on its wall, walls used
      in order, neighbours on one wall at least the gap apart, and nothing else in the room. */
  lemma {:induction false} PackedLineIsSound(figures: seq<Figure>, walls: seq<Wall>, fit: nat, i: nat, j: nat)
    requires walls != [] && WiderThanGap(figures) && LongestFit(figures, Length(walls[0]), fit)
    ensures var spots := PackFrom(figures, walls, 0, CentredStart(walls[0], Span(figures, fit)));
            && |spots| <= |figures| && |Places(spots, walls)| == |spots|
            && (i < |spots| ==>
                  && spots[i].wall < |walls| && Inside(spots[i], walls[spots[i].wall])
                  && spots[i].figure == figures[i]
                  && Places(spots, walls)[i] == PlaceOf(spots[i], walls[spots[i].wall]))
            && (i < j < |spots| ==>
                  && spots[i].wall <= spots[j].wall
                  && (spots[i].wall == spots[j].wall ==>
                        Beyond(spots[j], walls[spots[j].wall], NextEdge(spots[i], walls[spots[i].wall]))))
  {
    var origin := CentredStart(walls[0], Span(figures, fit));
    var spots := PackFrom(figures, walls, 0, origin);
    SpanGrows(figures, 0, fit);
    CentredIsAlong(walls[0], Span(figures, fit));
    forall k | 0 <= k < |spots| ensures k < |figures| && spots[k].figure == figures[k]
      ensures spots[k].wall < |walls| && Inside(spots[k], walls[spots[k].wall])
    {
      PackedInside(figures, walls, 0, origin, k);
    }
    if spots != [] { assert spots[|spots| - 1].figure == figures[|spots| - 1]; }
    PlacesEach(spots, walls);
    if i < j < |spots| { PackedApart(figures, walls, 0, origin, i, j); }
  }

  /** Widths above the gap are needed: behind a figure as long as its wall, a figure of any smaller
      width is set past the wall's end. */
  lemma {:induction false} NarrowFigureLeavesTheWall(width: real)
    requires 0.0 < width <= GAP
    ensures var figures, wall := [Figure("wide", 10.0), Figure("narrow", width)], Wall(true, 0.0, 10.0, 0.0, 0.0);
            var spots := PackFrom(figures, [wall], 0, CentredStart(wall, Span(figures, 1)));
            LongestFit(figures, Length(wall), 1) && |spots| == 2 && !Inside(spots[1], wall)
  {
    var figures, wall := [Figure("wide", 10.0), Figure("narrow", width)], Wall(true, 0.0, 10.0, 0.0, 0.0);
    assert Span(figures, 1) == 10.0 && Span(figures, 2) == 10.4 + width;
    assert figures[1..] == [figures[1]] && [figures[1]][1..] == [];
    TakesOne(figures, [wall], 0.0, 0);
    TakesOne(figures, [wall], 10.4, 1);
    assert figures[0..] == figures && figures[2..] == [];
  }

  /** The room's own cast and walls. */
  const CAST := [
    Figure("x8-zero", 0.38 * HEIGHT), Figure("x-fourth-armor", 0.96 * HEIGHT), Figure("zero-copy-x", 1.29 * HEIGHT),
    Figure("exe4-alma", 1.35 * HEIGHT), Figure("exe5-soul", 1.89 * HEIGHT)]

  const RUNS := [Wall(true, -22.8, -42.9, 1.62, 0.0), Wall(false, 11.4, 2.4, -42.0, 1.5707963267948966)]

  /** With these the whole cast fits on the south wall, so none goes round the corner or is left out. */
  lemma {:induction false} WholeCastOnTheSouthWall()
    ensures WiderThanGap(CAST) && LongestFit(CAST, Length(RUNS[0]), 5)
    ensures |PackFrom(CAST, RUNS, 0, CentredStart(RUNS[0], Span(CAST, 5)))| == 5
  {
    assert Span(CAST, 1) == 0.9234;
    assert Span(CAST, 2) == 3.6562;
    assert Span(CAST, 3) == 7.1909;
    assert Span(CAST, 4) == 10.8714;
    assert Span(CAST, 5) == 15.8641;
    var w, origin := RUNS[0], CentredStart(RUNS[0], Span(CAST, 5));
    FirstWallIsCentred(CAST, RUNS, 5, 0);
    var spots := PackFrom(CAST, RUNS, 0, origin);
    if |spots| > 5 {
      CentredIsAlong(w, Span(CAST, 5));
      PackedInside(CAST, RUNS, 0, origin, 5);
    }
  }

  lemma {:induction false} CentredIsAlong(w: Wall, used: real)
    requires 0.0 <= used <= Length(w)
    ensures Along(w, CentredStart(w, used))
  {}
}
