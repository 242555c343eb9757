/** A remote player's sample buffer. It forgets samples, yet must draw the path the whole
    received history describes. Times are milliseconds. */
module Interpolation {
  import opened Wrappers

  datatype Vec = Vec(x: real, y: real, z: real)

  datatype Sample = Sample(at: real, p: Vec)

  const DELAY := 75.0
  const CAP := 8
  const EYE_HEIGHT := 1.65

  function Lerp(a: Vec, b: Vec, t: real): Vec {
    Vec(a.x + (b.x - a.x) * t, a.y + (b.y - a.y) * t, a.z + (b.z - a.z) * t)
  }

  /** Avatars stand below the eye the server reports. */
  function Standing(v: Vec): Vec { v.(y := v.y - EYE_HEIGHT) }

  function Clamp(t: real): real { if t < 0.0 then 0.0 else if t > 1.0 then 1.0 else t }

  function Pushed(buffer: seq<Sample>, s: Sample): seq<Sample> {
    var longer := buffer + [s];
    if |longer| > CAP then longer[1..] else longer
  }

  /** A status change repeats the latest position, and is not capped. */
  function Repeated(buffer: seq<Sample>, at: real): seq<Sample> {
    if buffer == [] then [] else buffer + [Sample(at, buffer[|buffer| - 1].p)]
  }

  /** What a frame keeps: everything from the last sample due, but always two. */
  function Trimmed(buffer: seq<Sample>, render: real): (kept: seq<Sample>)
    ensures |kept| <= |buffer| && (buffer != [] ==> kept != [])
  {
    if |buffer| > 2 && buffer[1].at <= render then Trimmed(buffer[1..], render) else buffer
  }

  function Second(buffer: seq<Sample>): Sample
    requires buffer != []
  {
    if |buffer| > 1 then buffer[1] else buffer[0]
  }

  function Drawn(kept: seq<Sample>, render: real): Vec
    requires kept != []
  {
    var first, second := kept[0], Second(kept);
    var gap := second.at - first.at;
    var span := if gap < 1.0 then 1.0 else gap;
    Lerp(first.p, second.p, Clamp((render - first.at) / span))
  }

  /** One remote player's entry. */
  class RemotePlayer {
    var samples: seq<Sample>

    constructor ()
      ensures samples == []
    {
      samples := [];
    }

    method AddSample(now: real, p: Vec)
      modifies this
      ensures samples == Pushed(old(samples), Sample(now, p))
    {
      samples := samples + [Sample(now, p)];
      if |samples| > CAP { samples := samples[1..]; }
    }

    method StatusChanged(now: real)
      modifies this
      ensures samples == Repeated(old(samples), now)
    {
      if |samples| == 0 { return; }
      var latest := samples[|samples| - 1].p;
      samples := samples + [Sample(now, latest)];
    }

    method Interpolate(now: real) returns (drawn: Option<Vec>)
      modifies this
      ensures samples == Trimmed(old(samples), now - DELAY)
      ensures drawn == if samples == [] then None else Some(Standing(Drawn(samples, now - DELAY)))
      ensures drawn.None? <==> old(samples) == []
      ensures drawn.Some? ==> var at := Drawn(samples, now - 75.0); drawn.value == Vec(at.x, at.y - 1.65, at.z)
    {
      var renderTime := now - DELAY;
      if |samples| == 0 { return None; }
      while |samples| > 2 && samples[1].at <= renderTime
        invariant |samples| > 0 && Trimmed(samples, renderTime) == Trimmed(old(samples), renderTime)
        decreases |samples|
      {
        samples := samples[1..];
      }
      var first := samples[0];
      var second := if |samples| > 1 then samples[1] else first;
      var span := second.at - first.at;
      if span < 1.0 { span := 1.0; }
      var alpha := (renderTime - first.at) / span;
      if alpha > 1.0 { alpha := 1.0; }
      if alpha < 0.0 { alpha := 0.0; }
      var v := Lerp(first.p, second.p, alpha);
      drawn := Some(Vec(v.x, v.y - EYE_HEIGHT, v.z));
    }
  }

  /** Arrival times never go backwards. */
  ghost predicate Ordered(h: seq<Sample>) {
    forall i, j :: 0 <= i < j < |h| ==> h[i].at <= h[j].at
  }

  /** The last sample due by `render`, -1 when none is. */
  function Bracket(h: seq<Sample>, render: real): (j: int)
    ensures -1 <= j < |h|
    ensures j >= 0 ==> h[j].at <= render
    ensures forall k :: j < k < |h| ==> h[k].at > render
  {
    if h == [] then -1
    else if h[|h| - 1].at <= render then |h| - 1
    else Bracket(h[..|h| - 1], render)
  }

  /** Piecewise-linear interpolation of a whole history, held still at both ends. */
  function Path(h: seq<Sample>, render: real): Vec
    requires h != []
  {
    var j := Bracket(h, render);
    if j == -1 then h[0].p
    else if j == |h| - 1 then h[j].p
    else Lerp(h[j].p, h[j + 1].p, (render - h[j].at) / (h[j + 1].at - h[j].at))
  }

  /** Exactly when the two samples a frame draws between, whose span is never taken to be less
      than a millisecond, give the point the path gives: they are a millisecond apart, or the frame comes before the first, a millisecond or more
      after it, or just on it, or they stand at one point. */
  predicate Smooth(first: Sample, second: Sample, render: real) {
    || second.at - first.at >= 1.0
    || render < first.at
    || render >= first.at + 1.0
    || (render == first.at && first.at < second.at)
    || first.p == second.p
  }

  lemma LerpEnds(a: Vec, b: Vec)
    ensures Lerp(a, b, 0.0) == a && Lerp(a, b, 1.0) == b && forall t: real :: Lerp(a, a, t) == a
  {}

  /** Between two different points, different fractions are different places. */
  lemma LerpInjective(a: Vec, b: Vec, s: real, t: real)
    ensures Lerp(a, b, s) == Lerp(a, b, t) <==> s == t || a == b
  {
    LerpEnds(a, b);
    if Lerp(a, b, s) == Lerp(a, b, t) {
      CancelFactor(b.x - a.x, s, t);
      CancelFactor(b.y - a.y, s, t);
      CancelFactor(b.z - a.z, s, t);
    }
  }

  lemma CancelFactor(d: real, s: real, t: real)
    requires d * s == d * t
    ensures s == t || d == 0.0
  {
    assert d * (s - t) == 0.0;
  }

  /** `kept` is the end of `h`. */
  ghost predicate Tail(h: seq<Sample>, kept: seq<Sample>) {
    |kept| <= |h| && forall k :: 0 <= k < |kept| ==> kept[k] == h[|h| - |kept| + k]
  }

  /** Nothing but samples before the first one due has been dropped. */
  ghost predicate Due(h: seq<Sample>, kept: seq<Sample>, render: real)
    requires kept != []
  {
    |kept| == |h| || kept[0].at <= render
  }

  lemma {:induction false} TrimmedIsTail(h: seq<Sample>, buffer: seq<Sample>, render: real)
    requires Tail(h, buffer) && buffer != [] && Due(h, buffer, render)
    ensures var kept := Trimmed(buffer, render);
            Tail(h, kept) && Due(h, kept, render) && (|kept| > 2 ==> kept[1].at > render)
  {
    if |buffer| > 2 && buffer[1].at <= render { TrimmedIsTail(h, buffer[1..], render); }
  }

  /** Dropping is invisible, whatever the spacing: trimming what is left of a history comes to
      the same samples as trimming all of it, exactly while no sample still due was dropped. */
  lemma {:induction false} TrimmedAlike(h: seq<Sample>, buffer: seq<Sample>, render: real)
    requires Ordered(h) && Tail(h, buffer) && buffer != [] && (|buffer| >= 2 || |buffer| == |h|)
    ensures Trimmed(h, render) == Trimmed(buffer, render) <==> Due(h, buffer, render)
    decreases |h|
  {
    if |h| == |buffer| {
      assert h == buffer;
    } else if h[1].at <= render {
      TrimmedAlike(h[1..], buffer, render);
    } else {
      assert h[1].at <= h[|h| - |buffer|].at;
    }
  }

  lemma Fraction(n: real, d: real)
    requires d > 0.0
    ensures n / d >= 1.0 <==> n >= d
    ensures n / d >= 0.0 <==> n >= 0.0
    ensures n / d == 0.0 <==> n == 0.0
  {
    var q := n / d;
    assert q * d == n;
    if q >= 1.0 { assert (q - 1.0) * d >= 0.0; } else { assert (1.0 - q) * d > 0.0; }
    if q > 0.0 { assert q * d > 0.0; } else if q < 0.0 { assert (-q) * d > 0.0; }
  }

  lemma LastAlone(h: seq<Sample>, kept: seq<Sample>, render: real)
    requires Tail(h, kept) && |kept| == 1 && Due(h, kept, render)
    ensures Drawn(kept, render) == Path(h, render)
  {
    LerpEnds(kept[0].p, kept[0].p);
  }

  lemma NotYetDue(h: seq<Sample>, kept: seq<Sample>, render: real)
    requires Ordered(h) && Tail(h, kept) && |kept| == |h| > 1 && render < kept[0].at
    ensures Drawn(kept, render) == Path(h, render)
  {
    BeforeAll(h, render);
    DrawnBefore(kept[0], kept[1], render);
    LerpEnds(kept[0].p, kept[1].p);
  }

  lemma BetweenTwo(h: seq<Sample>, kept: seq<Sample>, render: real)
    requires Ordered(h) && Tail(h, kept) && |kept| > 1 && kept[0].at <= render < kept[1].at
    ensures Drawn(kept, render) == Path(h, render) <==> Smooth(kept[0], kept[1], render)
  {
    BracketIs(h, |h| - |kept|, render);
    DrawnBetween(kept[0], kept[1], render);
  }

  lemma PastTheLast(h: seq<Sample>, kept: seq<Sample>, render: real)
    requires Ordered(h) && Tail(h, kept) && |kept| == 2 && kept[1].at <= render
    ensures Drawn(kept, render) == Path(h, render) <==> Smooth(kept[0], kept[1], render)
  {
    assert kept[0] == h[|h| - 2] && kept[1] == h[|h| - 1];
    DrawnAfter(kept[0], kept[1], render);
  }

  /** A frame that still holds its lower bracketing sample draws the path's point exactly when
      the two samples it draws between are smooth. */
  lemma FrameDrawsHistory(h: seq<Sample>, buffer: seq<Sample>, render: real)
    requires Ordered(h) && Tail(h, buffer) && buffer != [] && Due(h, buffer, render)
    ensures var kept := Trimmed(buffer, render);
            Drawn(kept, render) == Path(h, render) <==> Smooth(kept[0], Second(kept), render)
  {
    TrimmedIsTail(h, buffer, render);
    var kept := Trimmed(buffer, render);
    if |kept| == 1 { LastAlone(h, kept, render); }
    else if render < kept[0].at { NotYetDue(h, kept, render); }
    else if render < kept[1].at { BetweenTwo(h, kept, render); }
    else { PastTheLast(h, kept, render); }
  }

  lemma BeforeAll(h: seq<Sample>, render: real)
    requires Ordered(h) && h != [] && render < h[0].at
    ensures Bracket(h, render) == -1
  {
    assert forall k :: 0 <= k < |h| ==> h[0].at <= h[k].at;
  }

  lemma BracketIs(h: seq<Sample>, j: nat, render: real)
    requires Ordered(h) && j + 1 < |h| && h[j].at <= render < h[j + 1].at
    ensures Bracket(h, render) == j
  {
    assert forall k :: j + 1 <= k < |h| ==> h[j + 1].at <= h[k].at;
  }

  function Alpha(first: Sample, second: Sample, render: real): real {
    var gap := second.at - first.at;
    Clamp((render - first.at) / if gap < 1.0 then 1.0 else gap)
  }

  lemma DrawnBefore(first: Sample, second: Sample, render: real)
    requires first.at <= second.at && render < first.at
    ensures Alpha(first, second, render) == 0.0
  {
    var gap := second.at - first.at;
    Fraction(render - first.at, if gap < 1.0 then 1.0 else gap);
  }

  lemma DrawnBetween(first: Sample, second: Sample, render: real)
    requires first.at <= render < second.at
    ensures (Lerp(first.p, second.p, Alpha(first, second, render))
             == Lerp(first.p, second.p, (render - first.at) / (second.at - first.at))) <==> Smooth(first, second, render)
  {
    var n, gap := render - first.at, second.at - first.at;
    Fraction(n, gap);
    Fraction(n, 1.0);
    LerpInjective(first.p, second.p, Alpha(first, second, render), n / gap);
    if gap < 1.0 && n > 0.0 {
      var q, left := n / gap, 1.0 - gap;
      assert q * gap == n && q > 0.0;
      assert q * left > 0.0;
      assert q * left == q - n;
    }
  }

  lemma DrawnAfter(first: Sample, second: Sample, render: real)
    requires first.at <= second.at <= render
    ensures Lerp(first.p, second.p, Alpha(first, second, render)) == second.p <==> Smooth(first, second, render)
  {
    var n, gap := render - first.at, second.at - first.at;
    Fraction(n, if gap < 1.0 then 1.0 else gap);
    LerpEnds(first.p, second.p);
    LerpInjective(first.p, second.p, Alpha(first, second, render), 1.0);
  }

  /** Once a sample still due has been dropped, a frame draws the oldest sample left. */
  lemma DrawsTheOldest(h: seq<Sample>, buffer: seq<Sample>, render: real)
    requires Ordered(h) && Tail(h, buffer) && buffer != [] && !Due(h, buffer, render)
    ensures Drawn(Trimmed(buffer, render), render) == buffer[0].p
  {
    assert |buffer| > 1 ==> buffer[0].at <= buffer[1].at;
    DrawnBefore(buffer[0], Second(buffer), render);
    LerpEnds(buffer[0].p, Second(buffer).p);
  }

  /** What a frame draws from a buffer is what it would draw from the whole history exactly when
      no sample still due was dropped, or the history too puts the player at the oldest sample left. */
  lemma DroppingShowsExactly(h: seq<Sample>, buffer: seq<Sample>, render: real)
    requires Ordered(h) && Tail(h, buffer) && buffer != [] && (|buffer| >= 2 || |buffer| == |h|)
    ensures Drawn(Trimmed(buffer, render), render) == Drawn(Trimmed(h, render), render) <==>
            Due(h, buffer, render) || Drawn(Trimmed(h, render), render) == buffer[0].p
  {
    TrimmedAlike(h, buffer, render);
    if !Due(h, buffer, render) { DrawsTheOldest(h, buffer, render); }
  }

  /** Any frame draws the path's point exactly when the samples it draws between are smooth, as
      long as no sample still due was dropped; after that, exactly while the path is at the
      oldest sample left. */
  lemma FrameDrawsPathExactly(h: seq<Sample>, buffer: seq<Sample>, render: real)
    requires Ordered(h) && Tail(h, buffer) && buffer != []
    ensures var kept := Trimmed(buffer, render);
            Drawn(kept, render) == Path(h, render) <==>
            if Due(h, buffer, render) then Smooth(kept[0], Second(kept), render) else Path(h, render) == buffer[0].p
  {
    if Due(h, buffer, render) { FrameDrawsHistory(h, buffer, render); } else { DrawsTheOldest(h, buffer, render); }
  }

  function Along(x: real): Vec { Vec(x, 0.0, 0.0) }

  lemma HalfwayAlong(t: real)
    ensures Lerp(Along(0.0), Along(1.0), t) == Along(t)
  {}

  /** Two samples under a millisecond apart, nothing dropped: the frame between them lags the path. */
  lemma CloseSamplesLag()
    ensures var h := [Sample(0.0, Along(0.0)), Sample(0.5, Along(1.0))];
            Ordered(h) && Trimmed(h, 0.25) == h && Drawn(h, 0.25) == Along(0.25) && Path(h, 0.25) == Along(0.5)
  {
    var h := [Sample(0.0, Along(0.0)), Sample(0.5, Along(1.0))];
    assert h[0].at == 0.0 && h[1].at == 0.5 && |h| == 2;
    BracketIs(h, 0, 0.25);
    HalfwayAlong(0.25);
    HalfwayAlong(0.5);
    assert Alpha(h[0], h[1], 0.25) == 0.25;
    assert (0.25 - h[0].at) / (h[1].at - h[0].at) == 0.5;
  }

  /** Between two samples a millisecond or more apart the point drawn divides the way between them as
      the render time divides their times; outside them it is the nearer one. */
  lemma DrawnDividesTheWay(first: Sample, second: Sample, rest: seq<Sample>, render: real, t: real)
    requires second.at - first.at >= 1.0 && t * (second.at - first.at) == render - first.at
    ensures var at, a, b := Drawn([first, second] + rest, render), first.p, second.p;
            && (t <= 0.0 ==> at == a) && (t >= 1.0 ==> at == b)
            && (0.0 <= t <= 1.0 ==>
                  at.x == (1.0 - t) * a.x + t * b.x && at.y == (1.0 - t) * a.y + t * b.y && at.z == (1.0 - t) * a.z + t * b.z)
  {
    assert (render - first.at) / (second.at - first.at) == t;
    LerpEnds(first.p, second.p);
  }

  /** One sample a millisecond, each a metre on. */
  function Burst(n: nat): (h: seq<Sample>)
    ensures |h| == n && forall k :: 0 <= k < n ==> h[k] == Sample(k as real, Along(k as real))
  {
    seq(n, k => Sample(k as real, Along(k as real)))
  }

  /** The cap can drop a sample still due: after nine samples in a burst the frame due between
      the first two draws the second. */
  lemma BurstDropsASampleStillDue()
    ensures var h, buffer := Burst(9), Pushed(Burst(8), Burst(9)[8]);
            && buffer == h[1..] && Ordered(h) && !Due(h, buffer, 0.5)
            && Drawn(Trimmed(h, 0.5), 0.5).x == 0.5 && Drawn(Trimmed(buffer, 0.5), 0.5).x == 1.0
  {
    var h := Burst(9);
    assert Burst(8) + [h[8]] == h;
    assert Trimmed(h, 0.5) == h && Trimmed(h[1..], 0.5) == h[1..];
  }
}
