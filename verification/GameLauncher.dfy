/** The launcher: one path from a cabinet to a running game, as the steps between its awaits.
    Any number of launches may be under way together, interleaved with stops, and every
    adapter call may fail. */
module GameLauncher {
  import opened Wrappers

  /** What is happening to a session the adapter has created. */
  datatype Phase =
    | Starting    // inside `adapter.start`
    | Active
    | Stopping    // inside `adapter.stop`
    | Disposing   // inside `adapter.dispose`
    | Disposed

  /** A session, the launch that created it, and how often `dispose` has been called on it. */
  datatype Session = Session(launch: nat, phase: Phase, disposeCalls: nat)

  /** Where a launch is waiting. */
  datatype Launch =
    | AwaitingEntitlement
    | AwaitingPreflight
    | AwaitingSession
    | AwaitingStart(id: nat)
    | AwaitingCleanup(id: nat)
    | Ended

  datatype Creation = Made | MadeUnusable | NotMade   // MadeUnusable: it cannot be given its cabinet

  datatype State = State(sessions: seq<Session>, launches: seq<Launch>, active: Option<nat>)

  datatype Event =
    | LaunchCalled(resolved: bool)
    | EntitlementSettled(launch: nat, ok: bool)
    | PreflightSettled(launch: nat, ok: bool)
    | SessionSettled(launch: nat, creation: Creation)
    | StartSettled(launch: nat, ok: bool)
    | CleanupSettled(launch: nat)
    | StopCalled
    | StopSettled(id: nat)      // returned or threw: `finally` disposes either way
    | DisposeSettled(id: nat)   // returned or threw: swallowed

  function Initial(): State { State([], [], None) }

  function WithPhase(s: State, id: nat, phase: Phase): State
    requires id < |s.sessions|
  {
    s.(sessions := s.sessions[id := s.sessions[id].(phase := phase)])
  }

  function WithLaunch(s: State, launch: nat, at: Launch): State
    requires launch < |s.launches|
  {
    s.(launches := s.launches[launch := at])
  }

  /** `#safeDispose` up to its await: the call is made. */
  function DisposeBegun(s: State, id: nat): State
    requires id < |s.sessions|
  {
    s.(sessions := s.sessions[id := s.sessions[id].(phase := Disposing, disposeCalls := s.sessions[id].disposeCalls + 1)])
  }

  /** Whether a launch exists and waits there. */
  predicate Waits(s: State, launch: nat, at: Launch) { launch < |s.launches| && s.launches[launch] == at }

  /** The session a launch is starting or cleaning up. */
  predicate Starts(s: State, launch: nat) {
    launch < |s.launches| && s.launches[launch].AwaitingStart? && s.launches[launch].id < |s.sessions|
  }

  predicate CleansUp(s: State, launch: nat) {
    launch < |s.launches| && s.launches[launch].AwaitingCleanup? && s.launches[launch].id < |s.sessions|
  }

  function Step(s: State, e: Event): State {
    match e
    case LaunchCalled(resolved) => if resolved then s.(launches := s.launches + [AwaitingEntitlement]) else s
    case EntitlementSettled(k, ok) =>
      if Waits(s, k, AwaitingEntitlement) then WithLaunch(s, k, if ok then AwaitingPreflight else Ended) else s
    case PreflightSettled(k, ok) =>
      if Waits(s, k, AwaitingPreflight) then WithLaunch(s, k, if ok then AwaitingSession else Ended) else s
    case SessionSettled(k, creation) =>
      if !Waits(s, k, AwaitingSession) then s
      else if creation.NotMade? then WithLaunch(s, k, Ended)
      else
        var id := |s.sessions|;
        var made := s.(sessions := s.sessions + [Session(k, Starting, 0)]);
        if creation.Made? then WithLaunch(made, k, AwaitingStart(id))
        else WithLaunch(DisposeBegun(made, id), k, AwaitingCleanup(id))
    case StartSettled(k, ok) =>
      if !Starts(s, k) then s
      else
        var id := s.launches[k].id;
        if ok then WithLaunch(WithPhase(s, id, Active), k, Ended).(active := Some(id))
        else WithLaunch(DisposeBegun(s, id), k, AwaitingCleanup(id))
    case CleanupSettled(k) =>
      if !CleansUp(s, k) then s else WithLaunch(WithPhase(s, s.launches[k].id, Disposed), k, Ended)
    case StopCalled =>
      if s.active.None? || s.active.value >= |s.sessions| then s
      else WithPhase(s, s.active.value, Stopping).(active := None)
    case StopSettled(id) =>
      if id < |s.sessions| && s.sessions[id].phase.Stopping? then DisposeBegun(s, id) else s
    case DisposeSettled(id) =>
      if id < |s.sessions| && s.sessions[id].phase.Disposing? && !Waits(s, s.sessions[id].launch, AwaitingCleanup(id))
      then WithPhase(s, id, Disposed) else s
  }

  function Run(events: seq<Event>): State {
    if events == [] then Initial() else Step(Run(events[..|events| - 1]), events[|events| - 1])
  }

  class GameLauncher {
    var activeSession: Option<nat>
    var launches: seq<Launch>
    var sessions: seq<Session>

    ghost function View(): State
      reads this
    {
      State(sessions, launches, activeSession)
    }

    constructor ()
      ensures View() == Initial()
    {
      activeSession, launches, sessions := None, [], [];
    }

    /** `launch`, up to its first await. */
    method BeginLaunch(resolved: bool)
      modifies this
      ensures View() == Step(old(View()), LaunchCalled(resolved))
    {
      if resolved { launches := launches + [AwaitingEntitlement]; }
    }

    method OnEntitlement(launch: nat, ok: bool)
      modifies this
      ensures View() == Step(old(View()), EntitlementSettled(launch, ok))
    {
      if launch < |launches| && launches[launch] == AwaitingEntitlement {
        launches := launches[launch := if ok then AwaitingPreflight else Ended];
      }
    }

    method OnPreflight(launch: nat, ok: bool)
      modifies this
      ensures View() == Step(old(View()), PreflightSettled(launch, ok))
    {
      if launch < |launches| && launches[launch] == AwaitingPreflight {
        launches := launches[launch := if ok then AwaitingSession else Ended];
      }
    }

    /** The start of `#safeDispose`: `adapter.dispose` is called. */
    method SafeDispose(id: nat)
      requires id < |sessions|
      modifies this`sessions
      ensures View() == DisposeBegun(old(View()), id)
    {
      var session := sessions[id];
      sessions := sessions[id := session.(phase := Disposing, disposeCalls := session.disposeCalls + 1)];
    }

    method OnSession(launch: nat, creation: Creation)
      modifies this
      ensures View() == Step(old(View()), SessionSettled(launch, creation))
    {
      if launch >= |launches| || launches[launch] != AwaitingSession { return; }
      if creation.NotMade? {
        launches := launches[launch := Ended];
        return;
      }
      var id := |sessions|;
      sessions := sessions + [Session(launch, Starting, 0)];
      if creation.Made? {
        launches := launches[launch := AwaitingStart(id)];
      } else {
        SafeDispose(id);
        launches := launches[launch := AwaitingCleanup(id)];
      }
    }

    method OnStart(launch: nat, ok: bool)
      modifies this
      ensures View() == Step(old(View()), StartSettled(launch, ok))
    {
      if launch >= |launches| || !launches[launch].AwaitingStart? || launches[launch].id >= |sessions| { return; }
      var id := launches[launch].id;
      if ok {
        sessions := sessions[id := sessions[id].(phase := Active)];
        launches := launches[launch := Ended];
        activeSession := Some(id);
      } else {
        SafeDispose(id);
        launches := launches[launch := AwaitingCleanup(id)];
      }
    }

    method OnCleanup(launch: nat)
      modifies this
      ensures View() == Step(old(View()), CleanupSettled(launch))
    {
      if launch >= |launches| || !launches[launch].AwaitingCleanup? || launches[launch].id >= |sessions| { return; }
      var id := launches[launch].id;
      sessions := sessions[id := sessions[id].(phase := Disposed)];
      launches := launches[launch := Ended];
    }

    method Stop() returns (stopped: bool)
      modifies this
      ensures View() == Step(old(View()), StopCalled)
      ensures stopped <==> old(activeSession).Some? && old(activeSession).value < |sessions|
    {
      if activeSession.None? || activeSession.value >= |sessions| { return false; }
      var id := activeSession.value;
      activeSession := None;
      sessions := sessions[id := sessions[id].(phase := Stopping)];
      stopped := true;
    }

    method OnStopped(id: nat)
      modifies this
      ensures View() == Step(old(View()), StopSettled(id))
    {
      if id < |sessions| && sessions[id].phase.Stopping? { SafeDispose(id); }
    }

    method OnDisposed(id: nat)
      modifies this
      ensures View() == Step(old(View()), DisposeSettled(id))
    {
      if id < |sessions| && sessions[id].phase.Disposing? {
        var launch := sessions[id].launch;
        if launch < |launches| && launches[launch] == AwaitingCleanup(id) { return; }
        sessions := sessions[id := sessions[id].(phase := Disposed)];
      }
    }
  }

  /** Every session is where it can still be reached: starting under its launch, active and held
      by the launcher, stopping, or being disposed of, with `dispose` called exactly then and once. */
  predicate SessionHeld(s: State, id: nat)
    requires id < |s.sessions|
  {
    var session := s.sessions[id];
    && session.disposeCalls == (if session.phase.Disposing? || session.phase.Disposed? then 1 else 0)
    && (session.phase.Active? <==> s.active == Some(id))
    && (session.phase.Starting? <==> Waits(s, session.launch, AwaitingStart(id)))
    && (Waits(s, session.launch, AwaitingCleanup(id)) ==> session.phase.Disposing?)
  }

  /** A launch waits only for a session of its own. */
  predicate LaunchHeld(s: State, k: nat)
    requires k < |s.launches|
  {
    s.launches[k].AwaitingStart? || s.launches[k].AwaitingCleanup? ==>
      s.launches[k].id < |s.sessions| && s.sessions[s.launches[k].id].launch == k
  }

  ghost predicate Held(s: State) {
    && (forall id :: 0 <= id < |s.sessions| ==> SessionHeld(s, id))
    && (forall k :: 0 <= k < |s.launches| ==> LaunchHeld(s, k))
    && (s.active.Some? ==> s.active.value < |s.sessions|)
  }

  /** The one thing the launcher does not guard against: a start succeeding while another
      session is active. */
  predicate Overrides(s: State, e: Event) {
    e.StartSettled? && e.ok && Starts(s, e.launch) && s.active.Some?
  }

  lemma {:induction false} StepKeepsSession(s: State, e: Event, id: nat)
    requires Held(s) && !Overrides(s, e) && id < |s.sessions|
    ensures id < |Step(s, e).sessions| && SessionHeld(Step(s, e), id)
  {
    assert SessionHeld(s, id);
    var k := if e.StartSettled? || e.CleanupSettled? || e.SessionSettled? then e.launch else s.sessions[id].launch;
    if k < |s.launches| { assert LaunchHeld(s, k); }
    if s.active.Some? { assert SessionHeld(s, s.active.value); }
  }

  lemma {:induction false} StepKeepsLaunch(s: State, e: Event, k: nat)
    requires Held(s) && k < |s.launches|
    ensures k < |Step(s, e).launches| && LaunchHeld(Step(s, e), k)
  {
    assert LaunchHeld(s, k);
  }

  /** What a step adds is held from the start. */
  lemma {:induction false} NewIsHeld(s: State, e: Event)
    requires Held(s)
    ensures var t := Step(s, e);
            && (forall id :: |s.sessions| <= id < |t.sessions| ==> SessionHeld(t, id))
            && (forall k :: |s.launches| <= k < |t.launches| ==> LaunchHeld(t, k))
            && (t.active.Some? ==> t.active.value < |t.sessions|)
  {
    if s.active.Some? { assert SessionHeld(s, s.active.value); }
  }

  lemma {:induction false} StepKeepsHeld(s: State, e: Event)
    requires Held(s) && !Overrides(s, e)
    ensures Held(Step(s, e))
  {
    var t := Step(s, e);
    NewIsHeld(s, e);
    forall id | 0 <= id < |t.sessions| ensures SessionHeld(t, id) {
      if id < |s.sessions| { StepKeepsSession(s, e, id); }
    }
    forall k | 0 <= k < |t.launches| ensures LaunchHeld(t, k) {
      if k < |s.launches| { StepKeepsLaunch(s, e, k); }
    }
  }

  /** A session active but held by nobody. */
  predicate Lost(s: State, id: nat) {
    id < |s.sessions| && s.sessions[id].phase.Active? && s.sessions[id].disposeCalls == 0 && s.active != Some(id)
    && forall k :: 0 <= k < |s.launches| ==> s.launches[k] != AwaitingStart(id) && s.launches[k] != AwaitingCleanup(id)
  }

  lemma {:induction false} LostStaysLost(s: State, e: Event, id: nat)
    requires Lost(s, id)
    ensures Lost(Step(s, e), id)
  {}

  lemma {:induction false} OverridingLoses(s: State, e: Event)
    requires Held(s) && Overrides(s, e)
    ensures Lost(Step(s, e), s.active.value)
  {
    assert SessionHeld(s, s.active.value) && LaunchHeld(s, e.launch);
    forall k | 0 <= k < |s.launches| ensures s.launches[k] != AwaitingStart(s.active.value) && s.launches[k] != AwaitingCleanup(s.active.value) {
      assert LaunchHeld(s, k);
    }
  }

  lemma {:induction false} LostIsNotHeld(s: State, id: nat)
    requires Lost(s, id)
    ensures !Held(s)
  {
    assert !SessionHeld(s, id);
  }

  /** No start of a run succeeded over an active session. */
  predicate NeverOverrides(events: seq<Event>) {
    events == [] ||
    (NeverOverrides(events[..|events| - 1]) && !Overrides(Run(events[..|events| - 1]), events[|events| - 1]))
  }

  /** Over any run, whatever fails and however launches and stops interleave: every session is
      still held exactly when no start ever succeeded over an active session; otherwise one is
      lost, and stays so. */
  lemma {:induction false} HeldExactly(events: seq<Event>)
    ensures Held(Run(events)) <==> NeverOverrides(events)
    ensures !NeverOverrides(events) ==> exists id :: Lost(Run(events), id)
    decreases |events|
  {
    if events != [] {
      var n := |events| - 1;
      var before := Run(events[..n]);
      HeldExactly(events[..n]);
      if !NeverOverrides(events[..n]) {
        var id :| Lost(before, id);
        LostStaysLost(before, events[n], id);
        LostIsNotHeld(Run(events), id);
      } else if Overrides(before, events[n]) {
        OverridingLoses(before, events[n]);
        LostIsNotHeld(Run(events), before.active.value);
      } else {
        StepKeepsHeld(before, events[n]);
      }
    }
  }

  /** The launcher never leaks: without such a start, every session the adapter ever created has
      been disposed of exactly once, or is still starting, active (and then the one the launcher
      holds) or stopping, and has not been disposed of. */
  lemma {:induction false} LauncherNeverLeaks(events: seq<Event>, id: nat)
    requires NeverOverrides(events) && id < |Run(events).sessions|
    ensures var s := Run(events); var session := s.sessions[id];
            && session.disposeCalls <= 1
            && (session.disposeCalls == 1 <==> session.phase.Disposing? || session.phase.Disposed?)
            && (session.disposeCalls == 0 ==>
                  || (session.phase.Starting? && Waits(s, session.launch, AwaitingStart(id)))
                  || (session.phase.Active? && s.active == Some(id))
                  || session.phase.Stopping?)
  {
    HeldExactly(events);
    assert SessionHeld(Run(events), id);
  }

  function RunFrom(s: State, events: seq<Event>): State
    decreases |events|
  {
    if events == [] then s else RunFrom(Step(s, events[0]), events[1..])
  }

  /** What is left to happen to a session once it is to go. */
  function Finish(s: State, id: nat): seq<Event>
    requires id < |s.sessions|
  {
    var launch := s.sessions[id].launch;
    match s.sessions[id].phase
    case Starting => [StartSettled(launch, false), CleanupSettled(launch)]
    case Active => [StopCalled, StopSettled(id), DisposeSettled(id)]
    case Stopping => [StopSettled(id), DisposeSettled(id)]
    case Disposing => [if Waits(s, launch, AwaitingCleanup(id)) then CleanupSettled(launch) else DisposeSettled(id)]
    case Disposed => []
  }

  function Left(phase: Phase): nat {
    match phase case Starting => 3 case Active => 3 case Stopping => 2 case Disposing => 1 case Disposed => 0
  }

  lemma {:induction false} FinishGoesOn(s: State, id: nat)
    requires Held(s) && id < |s.sessions| && !s.sessions[id].phase.Disposed?
    ensures var finish := Finish(s, id); var t := Step(s, finish[0]);
            && !Overrides(s, finish[0]) && id < |t.sessions|
            && finish[1..] == Finish(t, id) && Left(t.sessions[id].phase) < Left(s.sessions[id].phase)
  {
    assert SessionHeld(s, id);
  }

  /** No held session is ever out of reach: the calls still owed to it end with it disposed of, once. */
  lemma {:induction false} EverySessionCanFinish(s: State, id: nat)
    requires Held(s) && id < |s.sessions|
    ensures var t := RunFrom(s, Finish(s, id));
            id < |t.sessions| && t.sessions[id].phase.Disposed? && t.sessions[id].disposeCalls == 1
    decreases Left(s.sessions[id].phase)
  {
    if s.sessions[id].phase.Disposed? {
      assert SessionHeld(s, id);
    } else {
      FinishGoesOn(s, id);
      StepKeepsHeld(s, Finish(s, id)[0]);
      EverySessionCanFinish(Step(s, Finish(s, id)[0]), id);
    }
  }

  /** A session lost stays lost: active, held by nobody, and never disposed of. */
  lemma {:induction false} LostSessionStaysLost(s: State, events: seq<Event>, id: nat)
    requires Lost(s, id)
    ensures Lost(RunFrom(s, events), id)
    decreases |events|
  {
    if events != [] {
      LostStaysLost(s, events[0], id);
      LostSessionStaysLost(Step(s, events[0]), events[1..], id);
    }
  }

  /** A launch carried through. */
  function Launched(s: State): State {
    var k := |s.launches|;
    Step(Step(Step(Step(Step(s, LaunchCalled(true)), EntitlementSettled(k, true)), PreflightSettled(k, true)),
              SessionSettled(k, Made)), StartSettled(k, true))
  }

  lemma {:induction false} LaunchAdds(s: State)
    ensures Launched(s) == State(s.sessions + [Session(|s.launches|, Active, 0)], s.launches + [Ended], Some(|s.sessions|))
  {}

  /** Launched over an active session, the second takes its place and the first is lost. */
  lemma {:induction false} SecondLaunchLosesTheFirst(events: seq<Event>)
    ensures var s := Launched(Launched(Initial()));
            s.active == Some(1) && |s.sessions| == 2 && Lost(RunFrom(s, events), 0)
  {
    LaunchAdds(Initial());
    LaunchAdds(Launched(Initial()));
    LostSessionStaysLost(Launched(Launched(Initial())), events, 0);
  }

  /** Launched over an active session that is stopped before the new one has started, nothing is lost. */
  lemma {:induction false} StoppedInTimeIsHeld()
    ensures var first := Launched(Initial());
            var second := Step(Step(Step(Step(Step(Step(first, LaunchCalled(true)), EntitlementSettled(1, true)),
                                              PreflightSettled(1, true)), SessionSettled(1, Made)), StopCalled),
                               StartSettled(1, true));
            Held(first) && Held(second) && second.active == Some(1)
  {
    LaunchAdds(Initial());
  }
}
