/** What becomes of each send, and how a connection moves: told by the lists and flags
    themselves, from every reachable state. */
module RealtimeDelivery {
  import opened RealtimeSocket
  import opened RealtimeSafety

  /** Pending requests stand in the order their ids were issued. */
  ghost predicate IdsIncrease(s: State) {
    && |s.sentAs| == s.sequence
    && (forall k :: 0 <= k < |s.pending| ==> 1 <= s.pending[k].id <= s.sequence)
    && forall i, j :: 0 <= i < j < |s.pending| ==> s.pending[i].id < s.pending[j].id
  }

  lemma {:induction false} SettledKeepsIds(s: State, at: nat, outcome: Outcome)
    requires IdsIncrease(s) && at < |s.pending|
    ensures IdsIncrease(Settled(s, at, outcome))
  {}

  lemma {:induction false} RequestedKeepsIds(s: State, errorFirst: bool, timed: bool)
    requires IdsIncrease(s)
    ensures IdsIncrease(Requested(s, errorFirst, timed))
  {}

  lemma {:induction false} SamePendingIds(s: State, t: State)
    requires IdsIncrease(s) && t.pending == s.pending && t.sentAs == s.sentAs && t.sequence == s.sequence
    ensures IdsIncrease(t)
  {}

  lemma {:induction false} NonePendingIds(s: State, t: State)
    requires IdsIncrease(s) && t.pending == [] && t.sentAs == s.sentAs && t.sequence == s.sequence
    ensures IdsIncrease(t)
  {}

  lemma {:induction false} StepKeepsIds(s: State, e: Event, d: Delays)
    requires IdsIncrease(s)
    ensures IdsIncrease(Step(s, e, d))
  {
    if e.Receive? || e.RequestTimesOut? {
      var at := At(s.pending, e.id);
      if at != -1 {
        SettledKeepsIds(s, at, Replied(e.id));
        SettledKeepsIds(s, at, TimedOut);
      }
    } else if e.Send? {
      if e.acknowledged && s.connected && s.wire.Open? { RequestedKeepsIds(s, e.errorFirst, e.timed); }
      else { SamePendingIds(s, Step(s, e, d)); }
    } else if e.SocketClosed? || e.Disconnect? {
      var t := Step(s, e, d);
      if t.pending == [] { NonePendingIds(s, t); } else { SamePendingIds(s, t); }
    } else {
      if !e.RunDeferred? { QuietStep(s, e, d); }
      SamePendingIds(s, Step(s, e, d));
    }
  }

  lemma {:induction false} RunKeepsIds(events: seq<Event>, d: Delays)
    ensures IdsIncrease(Run(events, d))
  {
    if events != [] {
      RunKeepsIds(events[..|events| - 1], d);
      StepKeepsIds(Run(events[..|events| - 1], d), events[|events| - 1], d);
    }
  }

  /** A send on an open connection is sent: its callback waits under an id later than every one
      pending or answered, and nothing is queued or answered. */
  lemma {:induction false} OpenSendIsPending(events: seq<Event>, errorFirst: bool, timed: bool, d: Delays)
    requires Run(events, d).connected && Run(events, d).wire.Open?
    ensures var s, t := Run(events, d), Step(Run(events, d), Send(true, errorFirst, timed), d);
            var n := |s.pending|;
            && |t.pending| == n + 1 && t.pending[..n] == s.pending
            && t.pending[n].call == s.calls && t.calls == s.calls + 1
            && t.pending[n].errorFirst == errorFirst && t.pending[n].timed == timed
            && (forall k :: 0 <= k < n ==> s.pending[k].id < t.pending[n].id)
            && (forall k :: 0 <= k < |s.answers| && s.answers[k].outcome.Replied? ==> s.answers[k].outcome.id < t.pending[n].id)
            && t.deferred == s.deferred && t.answers == s.answers
  {
    RunKeepsIds(events, d);
    RunKeepsAll(events, d);
  }

  /** Any other send queues exactly one refusal, and one that wants no answer leaves no trace. */
  lemma {:induction false} OtherSendIsRefused(events: seq<Event>, errorFirst: bool, timed: bool, d: Delays)
    requires !Run(events, d).connected || !Run(events, d).wire.Open?
    ensures var s, t := Run(events, d), Step(Run(events, d), Send(true, errorFirst, timed), d);
            && |t.deferred| == |s.deferred| + 1 && t.deferred[..|s.deferred|] == s.deferred
            && t.deferred[|s.deferred|].call == s.calls && t.calls == s.calls + 1
            && t.deferred[|s.deferred|].errorFirst == errorFirst
            && t.pending == s.pending && t.answers == s.answers
    ensures Step(Run(events, d), Send(false, errorFirst, timed), d) == Run(events, d)
  {}

  lemma {:induction false} IdsDiffer(s: State, i: int, k: nat)
    requires IdsIncrease(s) && 0 <= i < |s.pending| && k < |s.pending| && i != k
    ensures s.pending[i].id != s.pending[k].id
  {
    if i < k { assert s.pending[i].id < s.pending[k].id; } else { assert s.pending[k].id < s.pending[i].id; }
  }

  lemma {:induction false} FoundByItsId(s: State, k: nat)
    requires IdsIncrease(s) && k < |s.pending|
    ensures At(s.pending, s.pending[k].id) == k
  {
    var at := At(s.pending, s.pending[k].id);
    if at != k { IdsDiffer(s, at, k); }
  }

  /** A reply to a pending request fires that request's callback with the reply, once, in its own
      style; a timeout fires it only when the request has one. Neither touches any other. */
  lemma {:induction false} PendingIsAnswered(events: seq<Event>, k: nat, d: Delays)
    requires k < |Run(events, d).pending|
    ensures var s := Run(events, d); var p := s.pending[k];
            var replied, timedOut := Step(s, Receive(p.id), d), Step(s, RequestTimesOut(p.id), d);
            && replied.answers == s.answers + [Answer(p.call, p.errorFirst, Replied(p.id))]
            && replied.pending == s.pending[..k] + s.pending[k + 1..] && replied.deferred == s.deferred
            && (p.timed ==>
                  && timedOut.answers == s.answers + [Answer(p.call, p.errorFirst, TimedOut)]
                  && timedOut.pending == s.pending[..k] + s.pending[k + 1..] && timedOut.deferred == s.deferred)
            && (!p.timed ==> timedOut == s)
  {
    RunKeepsIds(events, d);
    FoundByItsId(Run(events, d), k);
  }

  /** An id that is not pending, unknown or answered already, changes nothing. */
  lemma {:induction false} StrayIdChangesNothing(events: seq<Event>, id: nat, d: Delays)
    requires forall k :: 0 <= k < |Run(events, d).pending| ==> Run(events, d).pending[k].id != id
    ensures Step(Run(events, d), Receive(id), d) == Step(Run(events, d), RequestTimesOut(id), d) == Run(events, d)
  {}

  lemma {:induction false} RejectionsInOrder(pending: seq<Pending>, k: nat)
    ensures |Rejections(pending)| == |pending|
    ensures k < |pending| ==> Rejections(pending)[k] == Answer(pending[k].call, pending[k].errorFirst, Disconnected)
  {
    if pending != [] { RejectionsInOrder(pending[..|pending| - 1], k); }
  }

  /** The close event of a WebSocket, and a disconnect, tell every pending request so, in order;
      a queued refusal tells its own send so. */
  lemma {:induction false} ClosingAnswersAll(events: seq<Event>, k: nat, d: Delays)
    ensures var s := Run(events, d); var n := |s.answers|;
            var closed, left := Step(s, SocketClosed, d), Step(s, Disconnect, d);
            && left.pending == [] && |left.answers| == n + |s.pending| && left.answers[..n] == s.answers
            && (!s.wire.Absent? && !s.wire.Closed? ==>
                  closed.pending == [] && |closed.answers| == n + |s.pending| && closed.answers[..n] == s.answers)
            && (k < |s.pending| ==>
                  && left.answers[n + k] == Answer(s.pending[k].call, s.pending[k].errorFirst, Disconnected)
                  && (!s.wire.Absent? && !s.wire.Closed? ==>
                        closed.answers[n + k] == Answer(s.pending[k].call, s.pending[k].errorFirst, Disconnected)))
            && (s.deferred != [] ==>
                  && Step(s, RunDeferred, d).deferred == s.deferred[1..]
                  && Step(s, RunDeferred, d).answers
                     == s.answers + [Answer(s.deferred[0].call, s.deferred[0].errorFirst, Disconnected)])
  {
    var s := Run(events, d);
    RejectionsInOrder(s.pending, k);
    assert (s.answers + Rejections(s.pending))[..|s.answers|] == s.answers;
  }

  /** The callback styles of the sends that wanted an answer, in order. */
  function Styles(events: seq<Event>): seq<bool> {
    if events == [] then []
    else
      var e := events[|events| - 1];
      Styles(events[..|events| - 1]) + if e.Send? && e.acknowledged then [e.errorFirst] else []
  }

  ghost predicate InStyle(s: State, styles: seq<bool>) {
    && s.calls == |styles|
    && (forall k :: 0 <= k < |s.pending| ==> s.pending[k].call < |styles| && s.pending[k].errorFirst == styles[s.pending[k].call])
    && (forall k :: 0 <= k < |s.deferred| ==> s.deferred[k].call < |styles| && s.deferred[k].errorFirst == styles[s.deferred[k].call])
    && (forall k :: 0 <= k < |s.answers| ==> s.answers[k].call < |styles| && s.answers[k].errorFirst == styles[s.answers[k].call])
  }

  lemma {:induction false} RejectionsInStyle(s: State, styles: seq<bool>)
    requires InStyle(s, styles)
    ensures InStyle(Rejected(s), styles)
  {
    forall k | 0 <= k < |Rejections(s.pending)|
      ensures Rejections(s.pending)[k].call < |styles| && Rejections(s.pending)[k].errorFirst == styles[Rejections(s.pending)[k].call]
    {
      RejectionsInOrder(s.pending, k);
    }
  }

  lemma {:induction false} SettledInStyle(s: State, styles: seq<bool>, at: nat, outcome: Outcome)
    requires InStyle(s, styles) && at < |s.pending|
    ensures InStyle(Settled(s, at, outcome), styles)
  {}

  lemma {:induction false} SentInStyle(s: State, styles: seq<bool>, errorFirst: bool, timed: bool)
    requires InStyle(s, styles)
    ensures InStyle(Requested(s, errorFirst, timed), styles + [errorFirst])
    ensures InStyle(Refused(s, errorFirst), styles + [errorFirst])
  {}

  lemma {:induction false} ToldInStyle(s: State, styles: seq<bool>)
    requires InStyle(s, styles) && s.deferred != []
    ensures InStyle(Told(s), styles)
  {}

  lemma {:induction false} SameListsInStyle(s: State, t: State, styles: seq<bool>)
    requires InStyle(s, styles)
    requires t.pending == s.pending && t.deferred == s.deferred && t.answers == s.answers && t.calls == s.calls
    ensures InStyle(t, styles)
  {}

  lemma {:induction false} CloseInStyle(s: State, e: Event, d: Delays, styles: seq<bool>)
    requires InStyle(s, styles) && (e.SocketClosed? || e.Disconnect?)
    ensures InStyle(Step(s, e, d), styles)
  {
    RejectionsInStyle(s, styles);
    var t := Step(s, e, d);
    if t.answers == s.answers && t.pending == s.pending { SameListsInStyle(s, t, styles); }
    else { SameListsInStyle(Rejected(s), t, styles); }
  }

  lemma {:induction false} AnswerInStyle(s: State, e: Event, d: Delays, styles: seq<bool>)
    requires InStyle(s, styles) && (e.Receive? || e.RequestTimesOut?)
    ensures InStyle(Step(s, e, d), styles)
  {
    var at := At(s.pending, e.id);
    if at != -1 { SettledInStyle(s, styles, at, if e.Receive? then Replied(e.id) else TimedOut); }
  }

  lemma {:induction false} SendInStyle(s: State, e: Event, d: Delays, styles: seq<bool>)
    requires InStyle(s, styles) && e.Send?
    ensures InStyle(Step(s, e, d), if e.acknowledged then styles + [e.errorFirst] else styles)
  {
    if e.acknowledged { SentInStyle(s, styles, e.errorFirst, e.timed); }
  }

  lemma {:induction false} StepInStyle(s: State, e: Event, d: Delays, styles: seq<bool>)
    requires InStyle(s, styles)
    ensures InStyle(Step(s, e, d), styles + if e.Send? && e.acknowledged then [e.errorFirst] else [])
  {
    assert styles + [] == styles;
    if e.Receive? || e.RequestTimesOut? {
      AnswerInStyle(s, e, d, styles);
    } else if e.Send? {
      SendInStyle(s, e, d, styles);
    } else if e.SocketClosed? || e.Disconnect? {
      CloseInStyle(s, e, d, styles);
    } else if e.RunDeferred? {
      if s.deferred != [] { ToldInStyle(s, styles); }
    } else {
      QuietStep(s, e, d);
      SameListsInStyle(s, Step(s, e, d), styles);
    }
  }

  /** Every callback is called in the style of its own send: error first exactly for those sent so. */
  lemma {:induction false} EveryAnswerInItsOwnStyle(events: seq<Event>, d: Delays)
    ensures InStyle(Run(events, d), Styles(events))
  {
    if events != [] {
      EveryAnswerInItsOwnStyle(events[..|events| - 1], d);
      StepInStyle(Run(events[..|events| - 1], d), events[|events| - 1], d, Styles(events[..|events| - 1]));
    }
  }

  // How a connection moves.

  /** Each arrow a WebSocket can take, exactly when it is taken. */
  lemma {:induction false} WireMoves(s: State, e: Event, d: Delays)
    ensures var before, after := s.wire, Step(s, e, d).wire;
            && (after.Opening? && !before.Opening? <==>
                  !before.Opening? && s.ticketAwaited && !s.closedByClient && e == TicketSettled(SocketMade))
            && (after.Open? && !before.Open? <==> before.Opening? && e.Opened?)
            && (after.Closing? && !before.Closing? <==>
                  (before.Opening? || before.Open?) && (e.SocketError? || e.Disconnect? || e.SwitchRoom?))
            && (after.Closed? && !before.Closed? <==> (before.Opening? || before.Open? || before.Closing?) && e.SocketClosed?)
            && (after.Absent? ==> before.Absent?)
  {
    match e
    case TicketSettled(_) =>
    case SocketClosed =>
    case Disconnect =>
    case _ =>
  }

  /** And when the client counts as connected. */
  lemma {:induction false} ConnectionMoves(s: State, e: Event, d: Delays)
    requires Connection(s)
    ensures var before, after := s.connected, Step(s, e, d).connected;
            && (after && !before <==> s.wire.Opening? && e.Opened?)
            && (!after && before <==> before && e.SocketClosed?)
  {
    match e
    case SocketClosed =>
    case _ =>
  }

  /** And each arrow of waiting and retrying. */
  lemma {:induction false} RetryMoves(s: State, e: Event, d: Delays)
    requires Connection(s)
    ensures var t := Step(s, e, d);
            && (t.ticketAwaited && !s.ticketAwaited <==> s.timerArmed && !s.closedByClient && e.ReconnectFires?)
            && (!t.ticketAwaited && s.ticketAwaited <==> s.ticketAwaited && e.TicketSettled?)
            && (t.timerArmed && !s.timerArmed <==>
                  !s.closedByClient && ((s.ticketAwaited && e == TicketSettled(NoTicket))
                                        || ((s.wire.Opening? || s.wire.Open? || s.wire.Closing?) && e.SocketClosed?)))
            && (!t.timerArmed && s.timerArmed <==> s.timerArmed && (e.ReconnectFires? || e.Disconnect?))
  {}

  /** Whether the client is closed: what it last asked for. */
  function ClosedByLastWord(events: seq<Event>): bool {
    if events == [] then false
    else
      var e := events[|events| - 1];
      e.Disconnect? || (!e.SwitchRoom? && ClosedByLastWord(events[..|events| - 1]))
  }

  lemma {:induction false} ClosedExactly(events: seq<Event>, d: Delays)
    ensures Run(events, d).closedByClient <==> ClosedByLastWord(events)
  {
    if events != [] {
      ClosedExactly(events[..|events| - 1], d);
      LastWord(Run(events[..|events| - 1], d), events[|events| - 1], d);
    }
  }

  lemma {:induction false} LastWord(s: State, e: Event, d: Delays)
    ensures Step(s, e, d).closedByClient <==> e.Disconnect? || (!e.SwitchRoom? && s.closedByClient)
  {}

  /** The base delay starts at the minimum, doubles four times and stays, never past the maximum. */
  lemma {:induction false} DelayDoubles(attempt: nat, d: Delays)
    requires 0 <= d.minimum <= d.maximum
    ensures BaseDelay(0, d) == d.minimum
    ensures attempt < 4 ==>
              BaseDelay(attempt + 1, d) == if 2 * BaseDelay(attempt, d) < d.maximum then 2 * BaseDelay(attempt, d) else d.maximum
    ensures attempt >= 4 ==> BaseDelay(attempt + 1, d) == BaseDelay(attempt, d)
  {
    if attempt < 4 {
      var p := Power(attempt);
      assert d.minimum * (2 * p) == 2 * (d.minimum * p);
      assert d.minimum * p >= 0;
    }
  }

  /** After a successful open the first retry waits the minimum again, however many there were before. */
  lemma {:induction false} RetriesStartOver(events: seq<Event>, d: Delays)
    requires Run(events, d).wire.Opening? && !Run(events, d).closedByClient && 0 <= d.minimum <= d.maximum
    ensures Step(Step(Run(events, d), Opened, d), SocketClosed, d).waits == [d.minimum]
  {
    assert Power(0) == 1;
    var open := Step(Run(events, d), Opened, d);
    assert open.waits == [] && open.reconnectAttempt == 0;
    assert [] + [d.minimum] == [d.minimum];
  }
}
