/** One connection at a time: where it is, when it is lost for good, how long retries wait. */
module RealtimeReconnect {
  import opened RealtimeSocket
  import opened RealtimeSafety

  /** In every reachable state at most one of a ticket wait, a live WebSocket and an armed
      reconnect timer exists. */
  lemma {:induction false} SingleConnectionToken(events: seq<Event>, d: Delays)
    ensures Tokens(Run(events, d)) <= 1
  {
    RunKeepsAll(events, d);
  }

  /** The events that give the token up, each exactly when the client has closed itself,
      `Disconnect` when the timer held it, or the WebSocket constructor refused. */
  predicate GivesUp(s: State, e: Event) {
    match e
    case TicketSettled(ticket) => s.ticketAwaited && (s.closedByClient || ticket.SocketRefused?)
    case SocketClosed => !s.wire.Absent? && !s.wire.Closed? && s.closedByClient
    case ReconnectFires => s.timerArmed && s.closedByClient
    case Disconnect => s.timerArmed
    case _ => false
  }

  /** No event makes a second token, and one is lost exactly when given up. */
  lemma {:induction false} TokenIsConserved(s: State, e: Event, d: Delays)
    requires Connection(s)
    ensures Tokens(Step(s, e, d)) == Tokens(s) - if GivesUp(s, e) then 1 else 0
  {}

  /** A client never asked to disconnect, whose WebSockets construct, always has its token:
      whatever the server and the network do, a connection is open, coming or due. */
  lemma {:induction false} NeverStranded(events: seq<Event>, d: Delays)
    requires forall k :: 0 <= k < |events| ==> !events[k].Disconnect? && events[k] != TicketSettled(SocketRefused)
    ensures var s := Run(events, d); Tokens(s) == 1 && !s.closedByClient
  {
    if events != [] {
      var earlier, e := events[..|events| - 1], events[|events| - 1];
      NeverStranded(earlier, d);
      RunKeepsAll(earlier, d);
      TokenIsConserved(Run(earlier, d), e, d);
    }
  }

  function RunFrom(s: State, events: seq<Event>, d: Delays): State
    decreases |events|
  {
    if events == [] then s else RunFrom(Step(s, events[0], d), events[1..], d)
  }

  lemma {:induction false} LostForGood(s: State, events: seq<Event>, d: Delays)
    requires Connection(s) && Tokens(s) == 0
    ensures Tokens(RunFrom(s, events, d)) == 0 && !RunFrom(s, events, d).wire.Open?
    decreases |events|
  {
    if events != [] {
      TokenIsConserved(s, events[0], d);
      StepConnection(s, events[0], d);
      LostForGood(Step(s, events[0], d), events[1..], d);
    }
  }

  /** The events that bring an open connection back to a client that is not closed. */
  function WayBack(s: State): seq<Event> {
    if s.ticketAwaited then [TicketSettled(SocketMade), Opened]
    else if s.timerArmed then [ReconnectFires, TicketSettled(SocketMade), Opened]
    else [SocketClosed, ReconnectFires, TicketSettled(SocketMade), Opened]
  }

  /** `switchRoom` revives a client exactly when a token is left: a disconnect that cancelled
      an armed timer, or whose close event or ticket came first, can never be undone. */
  lemma {:induction false} SwitchRoomRevivesExactly(s: State, d: Delays)
    requires Connection(s)
    ensures var after := Step(s, SwitchRoom, d);
            && (Tokens(s) == 1 ==> RunFrom(after, WayBack(after), d).wire.Open?)
            && (Tokens(s) == 0 ==> forall events: seq<Event> :: !RunFrom(after, events, d).wire.Open?)
  {
    var after := Step(s, SwitchRoom, d);
    TokenIsConserved(s, SwitchRoom, d);
    StepConnection(s, SwitchRoom, d);
    if Tokens(s) == 1 {
      Reopens(after, d);
    } else {
      forall events: seq<Event> ensures !RunFrom(after, events, d).wire.Open? {
        LostForGood(after, events, d);
      }
    }
  }

  /** Such a loss: no ticket came, the client disconnected while the retry was due, and then
      switched room. It is no longer closed, and will never be connected again. */
  lemma {:induction false} SwitchRoomTooLate(d: Delays, events: seq<Event>)
    ensures var s := Run([TicketSettled(NoTicket), Disconnect, SwitchRoom], d);
            !s.closedByClient && !RunFrom(s, events, d).wire.Open?
  {
    var s1 := Step(Initial(), TicketSettled(NoTicket), d);
    RunOfThree(TicketSettled(NoTicket), Disconnect, SwitchRoom, d);
    assert s1.timerArmed && s1.wire.Absent? && !s1.ticketAwaited;
    LostForGood(Step(Step(s1, Disconnect, d), SwitchRoom, d), events, d);
  }

  lemma {:induction false} RunOfThree(a: Event, b: Event, c: Event, d: Delays)
    ensures Run([a, b, c], d) == Step(Step(Step(Initial(), a, d), b, d), c, d)
  {
    RunReaches([], a, d);
    RunReaches([a], b, d);
    RunReaches([a, b], c, d);
    assert [] + [a] == [a] && [a] + [b] == [a, b] && [a, b] + [c] == [a, b, c];
  }

  lemma {:induction false} RunReaches(events: seq<Event>, e: Event, d: Delays)
    ensures Run(events + [e], d) == Step(Run(events, d), e, d)
  {
    assert (events + [e])[..|events|] == events;
  }

  lemma {:induction false} FromTicket(s: State, d: Delays)
    requires s.ticketAwaited && !s.closedByClient
    ensures RunFrom(s, [TicketSettled(SocketMade), Opened], d).wire.Open?
  {
    var s1 := Step(s, TicketSettled(SocketMade), d);
    assert [TicketSettled(SocketMade), Opened][1..] == [Opened] && [Opened][1..] == [];
    assert RunFrom(s1, [Opened], d) == RunFrom(Step(s1, Opened, d), [], d);
  }

  lemma {:induction false} FromTimer(s: State, d: Delays)
    requires s.timerArmed && !s.closedByClient
    ensures RunFrom(s, [ReconnectFires, TicketSettled(SocketMade), Opened], d).wire.Open?
  {
    FromTicket(Step(s, ReconnectFires, d), d);
    assert [ReconnectFires, TicketSettled(SocketMade), Opened][1..] == [TicketSettled(SocketMade), Opened];
  }

  lemma {:induction false} Reopens(s: State, d: Delays)
    requires Connection(s) && Tokens(s) == 1 && !s.closedByClient
    ensures RunFrom(s, WayBack(s), d).wire.Open?
  {
    if s.ticketAwaited {
      FromTicket(s, d);
    } else if s.timerArmed {
      FromTimer(s, d);
    } else {
      FromTimer(Step(s, SocketClosed, d), d);
      assert WayBack(s)[1..] == [ReconnectFires, TicketSettled(SocketMade), Opened];
    }
  }

  /** The reconnect delays since the last open, in order. */
  ghost predicate BacksOff(s: State, d: Delays) {
    |s.waits| == s.reconnectAttempt && forall k :: 0 <= k < |s.waits| ==> s.waits[k] == BaseDelay(k, d)
  }

  /** Scheduling a retry adds one delay, an open clears them, and nothing else touches them. */
  lemma {:induction false} WaitsStep(s: State, e: Event, d: Delays)
    ensures var t := Step(s, e, d);
            || (t.waits == s.waits && t.reconnectAttempt == s.reconnectAttempt)
            || (t.waits == [] && t.reconnectAttempt == 0)
            || (t.waits == s.waits + [BaseDelay(s.reconnectAttempt, d)] && t.reconnectAttempt == s.reconnectAttempt + 1)
  {
    if e.TicketSettled? || e.SocketClosed? { SchedulingStep(s, e, d); }
  }

  lemma {:induction false} SchedulingStep(s: State, e: Event, d: Delays)
    requires e.TicketSettled? || e.SocketClosed?
    ensures var t := Step(s, e, d);
            || (t.waits == s.waits && t.reconnectAttempt == s.reconnectAttempt)
            || (t.waits == s.waits + [BaseDelay(s.reconnectAttempt, d)] && t.reconnectAttempt == s.reconnectAttempt + 1)
  {}

  lemma {:induction false} RunBacksOff(events: seq<Event>, d: Delays)
    ensures BacksOff(Run(events, d), d)
  {
    if events != [] {
      RunBacksOff(events[..|events| - 1], d);
      WaitsStep(Run(events[..|events| - 1], d), events[|events| - 1], d);
    }
  }

  lemma {:induction false} DelayGrows(i: nat, j: nat, d: Delays)
    requires 0 <= d.minimum && i <= j
    ensures BaseDelay(i, d) <= BaseDelay(j, d) <= d.maximum
    ensures d.minimum <= d.maximum ==> d.minimum <= BaseDelay(i, d)
    decreases j - i
  {
    var p := Power(if i < 4 then i else 4);
    assert d.minimum * p >= d.minimum;
    if i < j {
      DelayGrows(i + 1, j, d);
      assert i < 4 ==> d.minimum * Power(i + 1) == 2 * (d.minimum * p);
    }
  }

  /** Between successful opens the base delay never shrinks, and it stays between the
      configured minimum and maximum. */
  lemma {:induction false} BackoffIsMonotoneAndBounded(events: seq<Event>, i: nat, j: nat, d: Delays)
    requires 0 <= d.minimum <= d.maximum
    ensures var w := Run(events, d).waits;
            i <= j < |w| ==> d.minimum <= w[i] <= w[j] <= d.maximum
  {
    RunBacksOff(events, d);
    if i <= j { DelayGrows(i, j, d); }
  }
}
