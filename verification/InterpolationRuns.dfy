/** The sample buffer over whole runs: samples, status changes and frames in any order. */
module InterpolationRuns {
  import opened Interpolation

  datatype Event = Arrives(at: real, p: Vec) | Status(at: real) | Frame(now: real)

  /** `history` is everything received; `rendered` the render time of the last frame. */
  datatype State = State(buffer: seq<Sample>, history: seq<Sample>, rendered: real)

  function Step(s: State, e: Event): State {
    match e
    case Arrives(at, p) => Received(s, Sample(at, p), Pushed(s.buffer, Sample(at, p)))
    case Status(at) =>
      if s.buffer == [] then s
      else Received(s, Sample(at, s.buffer[|s.buffer| - 1].p), Repeated(s.buffer, at))
    case Frame(now) => s.(buffer := Trimmed(s.buffer, now - DELAY), rendered := now - DELAY)
  }

  function Received(s: State, x: Sample, buffer: seq<Sample>): State {
    s.(buffer := buffer, history := s.history + [x])
  }

  function Run(start: real, events: seq<Event>): State {
    if events == [] then State([], [], start) else Step(Run(start, events[..|events| - 1]), events[|events| - 1])
  }

  /** The buffer is what is left of the history: all of it, or two samples at least. */
  ghost predicate IsRest(s: State) {
    Tail(s.history, s.buffer) && (|s.buffer| >= 2 || |s.buffer| == |s.history|)
  }

  lemma {:induction false} TrimmedIsEnd(buffer: seq<Sample>, render: real)
    ensures Tail(buffer, Trimmed(buffer, render))
    ensures |Trimmed(buffer, render)| >= 2 || |Trimmed(buffer, render)| == |buffer|
  {
    if |buffer| > 2 && buffer[1].at <= render {
      TrimmedIsEnd(buffer[1..], render);
      TailOfTail(buffer, buffer[1..], Trimmed(buffer[1..], render));
    }
  }

  lemma {:induction false} TailOfTail(h: seq<Sample>, buffer: seq<Sample>, kept: seq<Sample>)
    requires Tail(h, buffer) && Tail(buffer, kept)
    ensures Tail(h, kept)
  {}

  lemma {:induction false} TailExtends(h: seq<Sample>, buffer: seq<Sample>, x: Sample)
    requires Tail(h, buffer)
    ensures Tail(h + [x], buffer + [x]) && Tail(h + [x], Pushed(buffer, x))
  {}

  lemma {:induction false} FrameKeepsRest(s: State, now: real)
    requires IsRest(s)
    ensures IsRest(Step(s, Frame(now)))
  {
    TrimmedIsEnd(s.buffer, now - DELAY);
    TailOfTail(s.history, s.buffer, Trimmed(s.buffer, now - DELAY));
  }

  lemma {:induction false} StepKeepsRest(s: State, e: Event)
    requires IsRest(s)
    ensures IsRest(Step(s, e))
  {
    match e
    case Arrives(at, p) => TailExtends(s.history, s.buffer, Sample(at, p));
    case Status(at) => if s.buffer != [] { TailExtends(s.history, s.buffer, Sample(at, s.buffer[|s.buffer| - 1].p)); }
    case Frame(now) => FrameKeepsRest(s, now);
  }

  lemma {:induction false} RunKeepsRest(start: real, events: seq<Event>)
    ensures IsRest(Run(start, events))
  {
    if events != [] {
      RunKeepsRest(start, events[..|events| - 1]);
      StepKeepsRest(Run(start, events[..|events| - 1]), events[|events| - 1]);
    }
  }

  /** What each event adds to the history: a sample where the player was seen, a repeat of the last
      place for a status change, and nothing for a frame, which renders 75 ms in the past. */
  lemma {:induction false} HistoryGrows(start: real, events: seq<Event>, e: Event)
    ensures var s, t := Run(start, events), Step(Run(start, events), e);
            match e
            case Arrives(at, p) => t.history == s.history + [Sample(at, p)] && t.rendered == s.rendered
            case Status(at) =>
              t.history == (if s.history == [] then [] else s.history + [Sample(at, s.history[|s.history| - 1].p)])
              && t.rendered == s.rendered
            case Frame(now) => t.history == s.history && t.rendered == now - 75.0
  {
    RunKeepsRest(start, events);
  }

  /** A frame after any run trims to the samples everything received trims to exactly while no
      sample still due has been dropped. */
  lemma {:induction false} ForgettingKeepsTheSamples(start: real, events: seq<Event>, render: real)
    requires Run(start, events).buffer != [] && Ordered(Run(start, events).history)
    ensures var s := Run(start, events);
            Trimmed(s.history, render) == Trimmed(s.buffer, render) <==> Due(s.history, s.buffer, render)
  {
    RunKeepsRest(start, events);
    TrimmedAlike(Run(start, events).history, Run(start, events).buffer, render);
  }

  /** After any run, forgetting shows in what a frame draws exactly when a sample still due has
      been dropped and everything received would not put the player at the oldest sample left. */
  lemma {:induction false} ForgettingShowsExactly(start: real, events: seq<Event>, render: real)
    requires Run(start, events).buffer != [] && Ordered(Run(start, events).history)
    ensures Run(start, events).history != []
    ensures var s := Run(start, events);
            var ideal := Drawn(Trimmed(s.history, render), render);
            Drawn(Trimmed(s.buffer, render), render) != ideal <==>
            !Due(s.history, s.buffer, render) && ideal != s.buffer[0].p
  {
    RunKeepsRest(start, events);
    DroppingShowsExactly(Run(start, events).history, Run(start, events).buffer, render);
  }

  /** After any run, a frame draws the path of everything received exactly under this condition. */
  lemma {:induction false} RunDrawsPathExactly(start: real, events: seq<Event>, render: real)
    requires Run(start, events).buffer != [] && Ordered(Run(start, events).history)
    ensures var s := Run(start, events);
            var kept := Trimmed(s.buffer, render);
            s.history != [] &&
            (Drawn(kept, render) == Path(s.history, render) <==>
               if Due(s.history, s.buffer, render) then Smooth(kept[0], Second(kept), render)
               else Path(s.history, render) == s.buffer[0].p)
  {
    RunKeepsRest(start, events);
    FrameDrawsPathExactly(Run(start, events).history, Run(start, events).buffer, render);
  }

  /** The next thing happens `gap` or more after the latest sample. */
  ghost predicate Later(s: State, at: real, gap: real) {
    s.history == [] || at >= s.history[|s.history| - 1].at + gap
  }

  /** When the cap drops a sample, the one after it is already due: no frame to come will miss
      the one dropped. */
  ghost predicate CapSpares(s: State, at: real) {
    |s.buffer| < CAP || s.buffer[1].at <= s.rendered || s.buffer[1].at <= at - DELAY
  }

  /** Samples in order, spared by the cap; frames in order and never older than the latest sample. */
  ghost predicate Timely(s: State, e: Event) {
    match e
    case Arrives(at, _) => Later(s, at, 0.0) && CapSpares(s, at)
    case Status(at) => Later(s, at, 0.0)
    case Frame(now) => now - DELAY >= s.rendered && Later(s, now, 0.0)
  }

  ghost predicate Spaced(h: seq<Sample>, gap: real) {
    forall i :: 0 <= i && i + 1 < |h| ==> h[i + 1].at >= h[i].at + gap
  }

  lemma {:induction false} SpacedPair(h: seq<Sample>, gap: real, i: nat, j: nat)
    requires Spaced(h, gap) && gap >= 0.0 && i <= j < |h|
    ensures h[i].at <= h[j].at
    decreases j
  {
    if i < j { SpacedPair(h, gap, i, j - 1); }
  }

  lemma {:induction false} SpacedIsOrdered(h: seq<Sample>, gap: real)
    requires Spaced(h, gap) && gap >= 0.0
    ensures Ordered(h)
  {
    forall i, j | 0 <= i < j < |h| ensures h[i].at <= h[j].at { SpacedPair(h, gap, i, j); }
  }

  /** Whatever was dropped lies before the next frame's render time. */
  ghost predicate Retains(s: State) {
    IsRest(s) &&
    (|s.buffer| < |s.history| ==>
       s.buffer[0].at <= s.rendered || s.buffer[0].at <= s.history[|s.history| - 1].at - DELAY)
  }

  lemma {:induction false} ArrivalRetains(s: State, x: Sample)
    requires Retains(s) && Later(s, x.at, 0.0) && CapSpares(s, x.at)
    ensures Retains(Received(s, x, Pushed(s.buffer, x)))
  {
    TailExtends(s.history, s.buffer, x);
  }

  lemma {:induction false} StatusRetains(s: State, x: Sample)
    requires Retains(s) && s.buffer != [] && Later(s, x.at, 0.0)
    ensures Retains(Received(s, x, s.buffer + [x]))
  {
    TailExtends(s.history, s.buffer, x);
  }

  lemma {:induction false} FrameRetains(s: State, now: real)
    requires Retains(s) && Timely(s, Frame(now))
    ensures Retains(Step(s, Frame(now)))
  {
    StepKeepsRest(s, Frame(now));
    if s.buffer != [] { TrimmedIsTail(s.history, s.buffer, now - DELAY); }
  }

  lemma {:induction false} StepKeepsSpacing(s: State, e: Event, gap: real)
    requires Spaced(s.history, gap) && (e.Frame? || Later(s, e.at, gap))
    ensures Spaced(Step(s, e).history, gap)
  {}

  lemma {:induction false} StepRetains(s: State, e: Event)
    requires Retains(s) && Timely(s, e)
    ensures Retains(Step(s, e))
  {
    match e
    case Arrives(at, p) => ArrivalRetains(s, Sample(at, p));
    case Status(at) => if s.buffer != [] { StatusRetains(s, Sample(at, s.buffer[|s.buffer| - 1].p)); }
    case Frame(now) => FrameRetains(s, now);
  }

  ghost predicate AlwaysTimely(start: real, events: seq<Event>) {
    forall k :: 0 <= k < |events| ==> Timely(Run(start, events[..k]), events[k])
  }

  lemma {:induction false} RunRetains(start: real, events: seq<Event>)
    requires AlwaysTimely(start, events)
    ensures Retains(Run(start, events)) && Spaced(Run(start, events).history, 0.0)
    decreases |events|
  {
    if events != [] {
      var n := |events| - 1;
      forall k | 0 <= k < n ensures Timely(Run(start, events[..n][..k]), events[..n][k]) {
        assert events[..n][..k] == events[..k];
      }
      RunRetains(start, events[..n]);
      StepRetains(Run(start, events[..n]), events[n]);
      StepKeepsSpacing(Run(start, events[..n]), events[n], 0.0);
    }
  }

  /** While the cap spares what is still to be drawn, every frame of every run draws what it
      would draw if nothing had ever been dropped, however close the samples are. */
  lemma {:induction false} TimelyRunsNeverShowForgetting(start: real, events: seq<Event>, now: real)
    requires AlwaysTimely(start, events) && Timely(Run(start, events), Frame(now))
    requires Run(start, events).buffer != []
    ensures var s := Run(start, events);
            s.history != [] && Trimmed(s.buffer, now - DELAY) == Trimmed(s.history, now - DELAY)
  {
    RunRetains(start, events);
    SpacedIsOrdered(Run(start, events).history, 0.0);
    ForgettingKeepsTheSamples(start, events, now - DELAY);
  }

  /** With samples a millisecond apart, that is the path of the whole history. */
  lemma {:induction false} TimelyRunsDrawHistory(start: real, events: seq<Event>, now: real)
    requires AlwaysTimely(start, events) && Timely(Run(start, events), Frame(now))
    requires Run(start, events).buffer != [] && Spaced(Run(start, events).history, 1.0)
    ensures var s := Run(start, events);
            s.history != [] && Drawn(Trimmed(s.buffer, now - DELAY), now - DELAY) == Path(s.history, now - DELAY)
  {
    RunRetains(start, events);
    var s := Run(start, events);
    SpacedBufferDrawsHistory(s.history, s.buffer, now - DELAY);
  }

  lemma {:induction false} SpacedBufferDrawsHistory(h: seq<Sample>, buffer: seq<Sample>, render: real)
    requires Spaced(h, 1.0) && Tail(h, buffer) && buffer != [] && Due(h, buffer, render)
    ensures Drawn(Trimmed(buffer, render), render) == Path(h, render)
  {
    SpacedIsOrdered(h, 1.0);
    FrameDrawsHistory(h, buffer, render);
    TrimmedIsTail(h, buffer, render);
    SpacedTailIsSmooth(h, Trimmed(buffer, render), render);
  }

  lemma {:induction false} SpacedTailIsSmooth(h: seq<Sample>, kept: seq<Sample>, render: real)
    requires Spaced(h, 1.0) && Tail(h, kept) && kept != []
    ensures Smooth(kept[0], Second(kept), render)
  {
    var to := |h| - |kept|;
    if |kept| > 1 { assert kept[0] == h[to] && kept[1] == h[to + 1]; }
  }

  /** Spacing at which eight samples span the interpolation delay. */
  const SPACING := DELAY / 7.0

  /** Eight samples back is a whole interpolation delay back. */
  lemma {:induction false} CapSpansTheDelay(h: seq<Sample>, k: nat)
    requires Spaced(h, SPACING) && k + 8 <= |h|
    ensures h[k].at <= h[|h| - 1].at - DELAY
  {
    var n := |h| - 1;
    assert h[n].at >= h[n - 1].at + SPACING && h[n - 1].at >= h[n - 2].at + SPACING;
    assert h[n - 2].at >= h[n - 3].at + SPACING && h[n - 3].at >= h[n - 4].at + SPACING;
    assert h[n - 4].at >= h[n - 5].at + SPACING && h[n - 5].at >= h[n - 6].at + SPACING;
    assert h[n - 6].at >= h[n - 7].at + SPACING;
    SpacedPair(h, SPACING, k, n - 7);
  }

  ghost predicate WellSpaced(s: State, e: Event) {
    if e.Frame? then Timely(s, e) else Later(s, e.at, SPACING)
  }

  /** At that spacing the cap always spares what is still to be drawn. */
  lemma {:induction false} WellSpacedIsTimely(s: State, e: Event)
    requires IsRest(s) && Spaced(s.history, SPACING) && WellSpaced(s, e)
    ensures Timely(s, e)
  {
    if e.Arrives? && |s.buffer| >= CAP {
      var h := s.history + [Sample(e.at, e.p)];
      CapSpansTheDelay(h, |s.history| - |s.buffer| + 1);
      assert s.buffer[1] == h[|s.history| - |s.buffer| + 1];
    }
  }

  ghost predicate AlwaysWellSpaced(start: real, events: seq<Event>) {
    forall k :: 0 <= k < |events| ==> WellSpaced(Run(start, events[..k]), events[k])
  }

  lemma {:induction false} TimelySnoc(start: real, events: seq<Event>, e: Event)
    requires AlwaysTimely(start, events) && Timely(Run(start, events), e)
    ensures AlwaysTimely(start, events + [e])
  {
    forall k | 0 <= k <= |events| ensures Timely(Run(start, (events + [e])[..k]), (events + [e])[k]) {
      assert (events + [e])[..k] == events[..k];
      if k == |events| { assert events[..k] == events; }
    }
  }

  /** So a run of samples 75/7 ms or more apart never shows that samples were forgotten. */
  lemma {:induction false} WellSpacedRunsAreTimely(start: real, events: seq<Event>)
    requires AlwaysWellSpaced(start, events)
    ensures AlwaysTimely(start, events) && Spaced(Run(start, events).history, SPACING)
    decreases |events|
  {
    if events != [] {
      var n := |events| - 1;
      forall k | 0 <= k < n ensures WellSpaced(Run(start, events[..n][..k]), events[..n][k]) {
        assert events[..n][..k] == events[..k];
      }
      WellSpacedRunsAreTimely(start, events[..n]);
      RunKeepsRest(start, events[..n]);
      WellSpacedIsTimely(Run(start, events[..n]), events[n]);
      StepKeepsSpacing(Run(start, events[..n]), events[n], SPACING);
      TimelySnoc(start, events[..n], events[n]);
      assert events[..n] + [events[n]] == events;
    }
  }
}
