/** Where the statues stand in the room: the points placed, and how tightly they are packed. */
module StatuePlaces {
  import opened Plane
  import opened StatuePacking

  /** A figure stands on a wall: wholly between its ends, on its line, turned its way. */
  predicate Stands(p: Placed, f: Figure, w: Wall) {
    && p.slug == f.slug && p.rotation == w.rotation
    && (if w.alongX then p.z == w.fixed && Spans(p.x, f.width, w) else p.x == w.fixed && Spans(p.z, f.width, w))
  }

  predicate Spans(centre: real, width: real, w: Wall) {
    && (w.start <= centre - width / 2.0 || w.stop <= centre - width / 2.0)
    && (centre + width / 2.0 <= w.start || centre + width / 2.0 <= w.stop)
  }

  /** Of two figures on a wall: how far apart their centres are along it. */
  function Distance(p: Placed, q: Placed, w: Wall): real { Abs(if w.alongX then p.x - q.x else p.z - q.z) }

  /** Every point placed: its figure stands on the wall it was put on, and two on one wall are at
      least the gap apart, edge to edge. */
  lemma {:induction false} EveryStatueStands(figures: seq<Figure>, walls: seq<Wall>, fit: nat, i: nat, j: nat)
    requires walls != [] && WiderThanGap(figures) && LongestFit(figures, Length(walls[0]), fit)
    ensures var spots := PackFrom(figures, walls, 0, CentredStart(walls[0], Span(figures, fit)));
            var placed := Places(spots, walls);
            && |placed| == |spots| <= |figures|
            && (i < |placed| ==> spots[i].wall < |walls| && Stands(placed[i], figures[i], walls[spots[i].wall]))
            && (i < j < |placed| && spots[i].wall == spots[j].wall ==>
                  Distance(placed[i], placed[j], walls[spots[i].wall])
                  >= figures[i].width / 2.0 + GAP + figures[j].width / 2.0)
  {
    PackedLineIsSound(figures, walls, fit, i, j);
    PackedLineIsSound(figures, walls, fit, j, j);
  }

  /** A figure stands exactly the gap behind another, or did not fit there nor on a wall skipped and
      opens its own wall. */
  ghost predicate Follows(walls: seq<Wall>, a: Spot, b: Spot) {
    && a.wall <= b.wall < |walls|
    && (if a.wall == b.wall
        then b.centre == Move(walls[b.wall], a.centre, a.figure.width / 2.0 + GAP + b.figure.width / 2.0)
        else
          && Abs(Move(walls[a.wall], a.centre, a.figure.width / 2.0 + GAP) - walls[a.wall].stop) < b.figure.width
          && (forall w :: a.wall < w < b.wall ==> Length(walls[w]) < b.figure.width)
          && b.centre == Move(walls[b.wall], walls[b.wall].start, b.figure.width / 2.0))
  }

  /** Packing wastes nothing: the next figure stands exactly the gap further along, or it did not
      fit there nor on any wall skipped, and opens the next wall from its very start. */
  lemma {:induction false} PackedTightly(figures: seq<Figure>, walls: seq<Wall>, run: nat, cursor: real, k: nat)
    requires k + 1 < |PackFrom(figures, walls, run, cursor)|
    ensures var spots := PackFrom(figures, walls, run, cursor); Follows(walls, spots[k], spots[k + 1])
    decreases |figures|, |walls| - run
  {
    var f, w := figures[0], walls[run];
    if Abs(cursor - w.stop) < f.width {
      PackedTightly(figures, walls, run + 1, if run + 1 < |walls| then walls[run + 1].start else cursor, k);
    } else if k > 0 {
      PackedTightly(figures[1..], walls, run, Move(w, cursor, f.width + GAP), k - 1);
    } else {
      FirstPacked(figures[1..], walls, run, Move(w, cursor, f.width + GAP));
      EdgeAndCentre(w, cursor, f.width, PackFrom(figures, walls, run, cursor)[1].figure.width);
    }
  }

  lemma {:induction false} EdgeAndCentre(w: Wall, cursor: real, width: real, next: real)
    ensures var centre, edge := Move(w, cursor, width / 2.0), Move(w, cursor, width + GAP);
            Move(w, centre, width / 2.0 + GAP) == edge && Move(w, edge, next / 2.0) == Move(w, centre, width / 2.0 + GAP + next / 2.0)
  {}

  /** The first figure packed, from a cursor on a wall. */
  lemma {:induction false} FirstPacked(figures: seq<Figure>, walls: seq<Wall>, run: nat, cursor: real)
    requires PackFrom(figures, walls, run, cursor) != []
    ensures var b := PackFrom(figures, walls, run, cursor)[0];
            && run <= b.wall < |walls| && figures != [] && b.figure == figures[0]
            && (if b.wall == run then b.centre == Move(walls[run], cursor, b.figure.width / 2.0)
                else
                  && Abs(cursor - walls[run].stop) < b.figure.width
                  && (forall w :: run < w < b.wall ==> Length(walls[w]) < b.figure.width)
                  && b.centre == Move(walls[b.wall], walls[b.wall].start, b.figure.width / 2.0))
    decreases |walls| - run
  {
    if Abs(cursor - walls[run].stop) < figures[0].width && run + 1 < |walls| {
      FirstPacked(figures, walls, run + 1, walls[run + 1].start);
    }
  }

  /** The room's five statues, in metres. */
  lemma {:induction false} RoomPlaces()
    ensures Places(PackFrom(CAST, RUNS, 0, CentredStart(RUNS[0], Span(CAST, 5))), RUNS)
            == [Placed("x8-zero", -25.37965, 1.62, 0.0), Placed("x-fourth-armor", -27.40775, 1.62, 0.0),
                Placed("zero-copy-x", -30.5415, 1.62, 0.0), Placed("exe4-alma", -34.1491, 1.62, 0.0),
                Placed("exe5-soul", -38.4857, 1.62, 0.0)]
  {
    WholeCastOnTheSouthWall();
    RoomSpans();
    var spots := PackFrom(CAST, RUNS, 0, CentredStart(RUNS[0], Span(CAST, 5)));
    forall k | 0 <= k < 5 ensures spots[k].wall == 0 && spots[k].figure == CAST[k]
      ensures spots[k].centre == Move(RUNS[0], StartOf(CAST, RUNS[0], CentredStart(RUNS[0], Span(CAST, 5)), k), CAST[k].width / 2.0)
    {
      FirstWallPlaces(CAST, RUNS, 5, k);
      PackedLineIsSound(CAST, RUNS, 5, k, k);
    }
    PlacesEach(spots, RUNS);
    assert spots[0].centre == -25.37965 && spots[1].centre == -27.40775 && spots[2].centre == -30.5415;
    assert spots[3].centre == -34.1491 && spots[4].centre == -38.4857;
  }

  lemma {:induction false} RoomSpans()
    ensures Span(CAST, 1) == 0.9234 && Span(CAST, 2) == 3.6562 && Span(CAST, 3) == 7.1909
    ensures Span(CAST, 4) == 10.8714 && Span(CAST, 5) == 15.8641
    ensures Offset(CAST, 0) == 0.0 && Offset(CAST, 1) == 1.3234 && Offset(CAST, 2) == 4.0562
    ensures Offset(CAST, 3) == 7.5909 && Offset(CAST, 4) == 11.2714
  {
    assert Span(CAST, 1) == 0.9234;
    assert Span(CAST, 2) == 3.6562;
    assert Span(CAST, 3) == 7.1909;
    assert Span(CAST, 4) == 10.8714;
  }
}
