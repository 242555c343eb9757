/** No session without its gates: what has to have happened, earlier in the run, before the
    adapter creates a session for a launch. */
module LaunchGates {
  import opened Wrappers
  import opened GameLauncher

  /** Launches that resolved so far, each numbered by the order of its call. */
  function ResolvedCalls(events: seq<Event>): nat {
    if events == [] then 0
    else
      var e := events[|events| - 1];
      ResolvedCalls(events[..|events| - 1]) + if e.LaunchCalled? && e.resolved then 1 else 0
  }

  /** The event has happened. */
  predicate Happened(events: seq<Event>, e: Event) {
    events != [] && (events[|events| - 1] == e || Happened(events[..|events| - 1], e))
  }

  /** Preflight settled ok for a launch after its entitlement had. */
  predicate PassedGates(events: seq<Event>, k: nat) {
    events != [] &&
    (PassedGates(events[..|events| - 1], k)
     || (events[|events| - 1] == PreflightSettled(k, true) && Happened(events[..|events| - 1], EntitlementSettled(k, true))))
  }

  /** How many sessions the adapter has created for a launch. */
  function SessionsOf(sessions: seq<Session>, k: nat): nat {
    if sessions == [] then 0
    else SessionsOf(sessions[..|sessions| - 1], k) + if sessions[|sessions| - 1].launch == k then 1 else 0
  }

  /** What a launch's place says about the run, and how many sessions it has. */
  ghost predicate Gated(s: State, events: seq<Event>, k: nat)
    requires k < |s.launches|
  {
    match s.launches[k]
    case AwaitingEntitlement => SessionsOf(s.sessions, k) == 0
    case AwaitingPreflight => SessionsOf(s.sessions, k) == 0 && Happened(events, EntitlementSettled(k, true))
    case AwaitingSession => SessionsOf(s.sessions, k) == 0 && PassedGates(events, k)
    case AwaitingStart(id) => SessionsOf(s.sessions, k) == 1 && PassedGates(events, k)
    case AwaitingCleanup(id) => SessionsOf(s.sessions, k) == 1 && PassedGates(events, k)
    case Ended => SessionsOf(s.sessions, k) <= 1 && (SessionsOf(s.sessions, k) == 1 ==> PassedGates(events, k))
  }

  ghost predicate AllGated(s: State, events: seq<Event>) {
    && |s.launches| == ResolvedCalls(events)
    && (forall k :: 0 <= k < |s.launches| ==> Gated(s, events, k))
    && (forall id :: 0 <= id < |s.sessions| ==> s.sessions[id].launch < |s.launches|)
  }

  lemma {:induction false} SameLaunches(a: seq<Session>, b: seq<Session>, k: nat)
    requires |a| == |b| && forall id :: 0 <= id < |a| ==> a[id].launch == b[id].launch
    ensures SessionsOf(a, k) == SessionsOf(b, k)
  {
    if a != [] { SameLaunches(a[..|a| - 1], b[..|b| - 1], k); }
  }

  lemma {:induction false} NoSessionsOf(sessions: seq<Session>, k: nat)
    requires forall id :: 0 <= id < |sessions| ==> sessions[id].launch != k
    ensures SessionsOf(sessions, k) == 0
  {
    if sessions != [] { NoSessionsOf(sessions[..|sessions| - 1], k); }
  }

  lemma {:induction false} OneMoreSession(s: State, e: Event, k: nat)
    requires e.SessionSettled? && Waits(s, e.launch, AwaitingSession) && !e.creation.NotMade?
    ensures SessionsOf(Step(s, e).sessions, k) == SessionsOf(s.sessions, k) + if k == e.launch then 1 else 0
  {
    var t := Step(s, e);
    assert t.sessions[..|s.sessions|] == s.sessions;
  }

  lemma {:induction false} SessionsKept(s: State, e: Event, k: nat)
    requires !(e.SessionSettled? && Waits(s, e.launch, AwaitingSession) && !e.creation.NotMade?)
    ensures |Step(s, e).sessions| == |s.sessions| && SessionsOf(Step(s, e).sessions, k) == SessionsOf(s.sessions, k)
  {
    SameLaunches(Step(s, e).sessions, s.sessions, k);
  }

  lemma {:induction false} StepKeepsGated(s: State, events: seq<Event>, e: Event, k: nat)
    requires AllGated(s, events) && k < |Step(s, e).launches|
    ensures Gated(Step(s, e), events + [e], k)
  {
    assert (events + [e])[..|events|] == events;
    if e.SessionSettled? && Waits(s, e.launch, AwaitingSession) && !e.creation.NotMade? { OneMoreSession(s, e, k); }
    else { SessionsKept(s, e, k); }
    if k < |s.launches| { assert Gated(s, events, k); } else { NoSessionsOf(s.sessions, k); }
  }

  lemma {:induction false} StepKeepsAllGated(s: State, events: seq<Event>, e: Event)
    requires AllGated(s, events)
    ensures AllGated(Step(s, e), events + [e])
  {
    assert (events + [e])[..|events|] == events;
    forall k | 0 <= k < |Step(s, e).launches| ensures Gated(Step(s, e), events + [e], k) {
      StepKeepsGated(s, events, e, k);
    }
  }

  lemma {:induction false} RunIsGated(events: seq<Event>)
    ensures AllGated(Run(events), events)
    decreases |events|
  {
    if events != [] {
      var n := |events| - 1;
      RunIsGated(events[..n]);
      StepKeepsAllGated(Run(events[..n]), events[..n], events[n]);
      assert events[..n] + [events[n]] == events;
    }
  }

  lemma {:induction false} HasSession(sessions: seq<Session>, id: nat)
    requires id < |sessions|
    ensures SessionsOf(sessions, sessions[id].launch) >= 1
  {
    if id < |sessions| - 1 { HasSession(sessions[..|sessions| - 1], id); }
  }

  /** Over any run every session belongs to a launch that resolved, whose entitlement and then
      preflight settled ok, and no launch has two. */
  lemma {:induction false} EverySessionPassedTheGates(events: seq<Event>, id: nat)
    requires id < |Run(events).sessions|
    ensures var s := Run(events); var k := s.sessions[id].launch;
            k < ResolvedCalls(events) && PassedGates(events, k) && SessionsOf(s.sessions, k) == 1
  {
    var s := Run(events);
    RunIsGated(events);
    HasSession(s.sessions, id);
    assert Gated(s, events, s.sessions[id].launch);
  }

  /** A launch does not begin unless it resolves; each that does is one more. */
  lemma {:induction false} LaunchesAreResolvedCalls(events: seq<Event>)
    ensures |Run(events).launches| == ResolvedCalls(events)
  {
    RunIsGated(events);
  }

  /** The events that end a launch for good, from where it waits. */
  predicate Refuses(s: State, e: Event, k: nat) {
    || (Waits(s, k, AwaitingEntitlement) && e == EntitlementSettled(k, false))
    || (Waits(s, k, AwaitingPreflight) && e == PreflightSettled(k, false))
    || (Waits(s, k, AwaitingSession) && e == SessionSettled(k, NotMade))
  }

  lemma {:induction false} EndedStays(s: State, events: seq<Event>, k: nat)
    requires k < |s.launches| && s.launches[k].Ended?
    ensures var t := RunFrom(s, events);
            k < |t.launches| && t.launches[k].Ended? && SessionsOf(t.sessions, k) == SessionsOf(s.sessions, k)
    decreases |events|
  {
    if events != [] {
      var e := events[0];
      if e.SessionSettled? && Waits(s, e.launch, AwaitingSession) && !e.creation.NotMade? { OneMoreSession(s, e, k); }
      else { SessionsKept(s, e, k); }
      EndedStays(Step(s, e), events[1..], k);
    }
  }

  /** A launch refused, at its entitlement, its preflight or its session, has ended and never has
      a session, whatever follows. */
  lemma {:induction false} RefusedLaunchEnds(events: seq<Event>, e: Event, k: nat, more: seq<Event>)
    requires Refuses(Run(events), e, k)
    ensures var t := RunFrom(Step(Run(events), e), more);
            k < |t.launches| && t.launches[k].Ended? && SessionsOf(t.sessions, k) == 0
  {
    var s := Run(events);
    RunIsGated(events);
    assert Gated(s, events, k);
    SessionsKept(s, e, k);
    EndedStays(Step(s, e), more, k);
  }

  /** What carries a launch on, exactly: entitlement, preflight and session, in turn. */
  lemma {:induction false} LaunchMoves(s: State, e: Event, k: nat)
    requires k < |s.launches|
    ensures var before, after := s.launches[k], Step(s, e).launches[k];
            && (after.AwaitingPreflight? && !before.AwaitingPreflight? <==> before.AwaitingEntitlement? && e == EntitlementSettled(k, true))
            && (after.AwaitingSession? && !before.AwaitingSession? <==> before.AwaitingPreflight? && e == PreflightSettled(k, true))
            && (after.AwaitingStart? && !before.AwaitingStart? <==> before.AwaitingSession? && e == SessionSettled(k, Made))
            && (after.AwaitingStart? && !before.AwaitingStart? ==> after.id == |s.sessions|)
            && (after.Ended? && !before.Ended? <==>
                  Refuses(s, e, k) || (Starts(s, k) && e == StartSettled(k, true)) || (CleansUp(s, k) && e == CleanupSettled(k)))
            && (after.AwaitingCleanup? && !before.AwaitingCleanup? <==>
                  (before.AwaitingSession? && e == SessionSettled(k, MadeUnusable)) || (Starts(s, k) && e == StartSettled(k, false)))
  {}

  /** What becomes of a session, exactly. */
  lemma {:induction false} SessionMoves(s: State, e: Event, id: nat)
    requires Held(s) && !Overrides(s, e) && id < |s.sessions|
    ensures var before, after := s.sessions[id].phase, Step(s, e).sessions[id].phase;
            && (after.Active? && !before.Active? <==>
                  e.StartSettled? && e.ok && Waits(s, e.launch, AwaitingStart(id)))
            && (after.Stopping? && !before.Stopping? <==> s.active == Some(id) && e == StopCalled)
            && (after.Disposing? && !before.Disposing? <==>
                  (before.Stopping? && e == StopSettled(id))
                  || (e.StartSettled? && !e.ok && Waits(s, e.launch, AwaitingStart(id))))
            && (after.Disposed? && !before.Disposed? <==>
                  (e.CleanupSettled? && Waits(s, e.launch, AwaitingCleanup(id)))
                  || (before.Disposing? && e == DisposeSettled(id) && !Waits(s, s.sessions[id].launch, AwaitingCleanup(id))))
  {
    assert SessionHeld(s, id);
    if e.StartSettled? || e.CleanupSettled? { if e.launch < |s.launches| { assert LaunchHeld(s, e.launch); } }
    if s.active.Some? { assert SessionHeld(s, s.active.value); }
  }
}
