/** What every interleaving of the realtime socket's events keeps. */
module RealtimeSafety {
  import opened RealtimeSocket

  function CountBy<T>(s: seq<T>, key: T -> nat, c: nat): nat {
    if s == [] then 0
    else CountBy(s[..|s| - 1], key, c) + if key(s[|s| - 1]) == c then 1 else 0
  }

  lemma {:induction false} CountConcat<T>(a: seq<T>, b: seq<T>, key: T -> nat, c: nat)
    ensures CountBy(a + b, key, c) == CountBy(a, key, c) + CountBy(b, key, c)
  {
    if b == [] {
      assert a + b == a;
    } else {
      assert (a + b)[..|a + b| - 1] == a + b[..|b| - 1];
      CountConcat(a, b[..|b| - 1], key, c);
    }
  }

  lemma {:induction false} CountOne<T>(x: T, key: T -> nat, c: nat)
    ensures CountBy([x], key, c) == if key(x) == c then 1 else 0
  {
    assert [x][..0] == [];
  }

  lemma {:induction false} CountWithoutAt<T>(s: seq<T>, at: nat, key: T -> nat, c: nat)
    requires at < |s|
    ensures CountBy(s, key, c) == CountBy(s[..at] + s[at + 1..], key, c) + if key(s[at]) == c then 1 else 0
  {
    assert s == s[..at] + ([s[at]] + s[at + 1..]);
    CountConcat(s[..at], [s[at]] + s[at + 1..], key, c);
    CountConcat([s[at]], s[at + 1..], key, c);
    CountConcat(s[..at], s[at + 1..], key, c);
    CountOne(s[at], key, c);
  }

  lemma {:induction false} CountWithoutFirst<T>(s: seq<T>, key: T -> nat, c: nat)
    requires s != []
    ensures CountBy(s, key, c) == CountBy(s[1..], key, c) + if key(s[0]) == c then 1 else 0
  {
    assert s[..0] + s[1..] == s[1..];
    CountWithoutAt(s, 0, key, c);
  }

  function AnswerCall(a: Answer): nat { a.call }
  function PendingCall(p: Pending): nat { p.call }
  function DeferredCall(q: Deferred): nat { q.call }

  /** How often the callback of send number `c` has fired, waits for a reply, waits as a microtask. */
  function Fired(s: State, c: nat): nat { CountBy(s.answers, AnswerCall, c) }
  function Waiting(s: State, c: nat): nat { CountBy(s.pending, PendingCall, c) }
  function Queued(s: State, c: nat): nat { CountBy(s.deferred, DeferredCall, c) }

  /** Each send with a callback is in exactly one of the three places, once. */
  ghost predicate Accounted(s: State) {
    forall c: nat :: Fired(s, c) + Waiting(s, c) + Queued(s, c) == if c < s.calls then 1 else 0
  }

  /** Request ids name the send they were issued to, here and in every reply acted on. */
  ghost predicate Correlated(s: State) {
    && |s.sentAs| == s.sequence
    && (forall k :: 0 <= k < |s.pending| ==>
          1 <= s.pending[k].id <= s.sequence && s.sentAs[s.pending[k].id - 1] == s.pending[k].call)
    && (forall k :: 0 <= k < |s.answers| && s.answers[k].outcome.Replied? ==>
          1 <= s.answers[k].outcome.id <= s.sequence
          && s.sentAs[s.answers[k].outcome.id - 1] == s.answers[k].call)
  }

  /** The places a connection can be: awaited, on the wire until its close event, or due. */
  function Tokens(s: State): nat {
    (if s.ticketAwaited then 1 else 0) + (if s.wire.Absent? || s.wire.Closed? then 0 else 1)
    + (if s.timerArmed then 1 else 0)
  }

  ghost predicate Connection(s: State) {
    && Tokens(s) <= 1
    && (s.connected ==> s.wire.Open? || s.wire.Closing?)
    && (s.wire.Open? ==> s.connected)
    && (!s.connected ==> s.pending == [])
  }

  lemma {:induction false} RejectionsCount(pending: seq<Pending>, c: nat)
    ensures CountBy(Rejections(pending), AnswerCall, c) == CountBy(pending, PendingCall, c)
  {
    if pending != [] {
      var front, last := pending[..|pending| - 1], pending[|pending| - 1];
      RejectionsCount(front, c);
      CountConcat(Rejections(front), [RejectEach(last)], AnswerCall, c);
      CountOne(RejectEach(last), AnswerCall, c);
      assert Rejections(pending) == Rejections(front) + [RejectEach(last)];
    }
  }

  lemma {:induction false} RejectionsDisconnect(pending: seq<Pending>, k: nat)
    requires k < |Rejections(pending)|
    ensures Rejections(pending)[k].outcome.Disconnected?
  {
    var front := pending[..|pending| - 1];
    if k < |Rejections(front)| { RejectionsDisconnect(front, k); }
  }

  lemma {:induction false} RejectedAccounted(s: State)
    requires Accounted(s)
    ensures Accounted(Rejected(s))
  {
    var after := Rejected(s);
    forall c: nat ensures Fired(after, c) + Waiting(after, c) + Queued(after, c) == if c < s.calls then 1 else 0 {
      RejectionsCount(s.pending, c);
      CountConcat(s.answers, Rejections(s.pending), AnswerCall, c);
      assert Fired(s, c) + Waiting(s, c) + Queued(s, c) == if c < s.calls then 1 else 0;
    }
  }

  lemma {:induction false} SettledAccounted(s: State, at: nat, outcome: Outcome)
    requires Accounted(s) && at < |s.pending|
    ensures Accounted(Settled(s, at, outcome))
  {
    var after, p := Settled(s, at, outcome), s.pending[at];
    forall c: nat ensures Fired(after, c) + Waiting(after, c) + Queued(after, c) == if c < s.calls then 1 else 0 {
      CountWithoutAt(s.pending, at, PendingCall, c);
      CountConcat(s.answers, [Answer(p.call, p.errorFirst, outcome)], AnswerCall, c);
      CountOne(Answer(p.call, p.errorFirst, outcome), AnswerCall, c);
      assert Fired(s, c) + Waiting(s, c) + Queued(s, c) == if c < s.calls then 1 else 0;
    }
  }

  lemma {:induction false} RequestedAccounted(s: State, errorFirst: bool, timed: bool)
    requires Accounted(s)
    ensures Accounted(Requested(s, errorFirst, timed))
  {
    var after, p := Requested(s, errorFirst, timed), Pending(s.sequence + 1, s.calls, errorFirst, timed);
    forall c: nat ensures Fired(after, c) + Waiting(after, c) + Queued(after, c) == if c < after.calls then 1 else 0 {
      CountConcat(s.pending, [p], PendingCall, c);
      CountOne(p, PendingCall, c);
      assert Fired(s, c) + Waiting(s, c) + Queued(s, c) == if c < s.calls then 1 else 0;
    }
  }

  lemma {:induction false} RefusedAccounted(s: State, errorFirst: bool)
    requires Accounted(s)
    ensures Accounted(Refused(s, errorFirst))
  {
    var after, q := Refused(s, errorFirst), Deferred(s.calls, errorFirst);
    forall c: nat ensures Fired(after, c) + Waiting(after, c) + Queued(after, c) == if c < after.calls then 1 else 0 {
      CountConcat(s.deferred, [q], DeferredCall, c);
      CountOne(q, DeferredCall, c);
      assert Fired(s, c) + Waiting(s, c) + Queued(s, c) == if c < s.calls then 1 else 0;
    }
  }

  lemma {:induction false} ToldAccounted(s: State)
    requires Accounted(s) && s.deferred != []
    ensures Accounted(Told(s))
  {
    var after, q := Told(s), s.deferred[0];
    forall c: nat ensures Fired(after, c) + Waiting(after, c) + Queued(after, c) == if c < s.calls then 1 else 0 {
      CountWithoutFirst(s.deferred, DeferredCall, c);
      CountConcat(s.answers, [Answer(q.call, q.errorFirst, Disconnected)], AnswerCall, c);
      CountOne(Answer(q.call, q.errorFirst, Disconnected), AnswerCall, c);
      assert Fired(s, c) + Waiting(s, c) + Queued(s, c) == if c < s.calls then 1 else 0;
    }
  }

  lemma {:induction false} SameLists(s: State, t: State)
    requires Accounted(s)
    requires t.answers == s.answers && t.pending == s.pending && t.deferred == s.deferred && t.calls == s.calls
    ensures Accounted(t)
  {
    forall c: nat ensures Fired(t, c) + Waiting(t, c) + Queued(t, c) == if c < t.calls then 1 else 0 {
      assert Fired(s, c) + Waiting(s, c) + Queued(s, c) == if c < s.calls then 1 else 0;
    }
  }

  lemma {:induction false} RejectStepAccounted(s: State, d: Delays)
    requires Accounted(s)
    ensures Accounted(Step(s, SocketClosed, d)) && Accounted(Step(s, Disconnect, d))
  {
    var down := s.(wire := Closed, connected := false);
    SameLists(s, down);
    RejectedAccounted(down);
    if !s.wire.Absent? && !s.wire.Closed? { SameLists(Rejected(down), Step(s, SocketClosed, d)); }
    var shut := s.(closedByClient := true, timerArmed := false, wire := Shut(s.wire));
    SameLists(s, shut);
    RejectedAccounted(shut);
  }

  lemma {:induction false} AnswerStepAccounted(s: State, id: nat, d: Delays)
    requires Accounted(s)
    ensures Accounted(Step(s, Receive(id), d)) && Accounted(Step(s, RequestTimesOut(id), d))
  {
    var at := At(s.pending, id);
    if at != -1 {
      SettledAccounted(s, at, Replied(id));
      SettledAccounted(s, at, TimedOut);
    }
  }

  lemma {:induction false} SendStepAccounted(s: State, e: Event, d: Delays)
    requires Accounted(s) && (e.Send? || e.RunDeferred?)
    ensures Accounted(Step(s, e, d))
  {
    if e.RunDeferred? {
      if s.deferred != [] { ToldAccounted(s); }
    } else if e.acknowledged {
      if !s.connected || !s.wire.Open? { RefusedAccounted(s, e.errorFirst); } else { RequestedAccounted(s, e.errorFirst, e.timed); }
    }
  }

  lemma {:induction false} StepAccounted(s: State, e: Event, d: Delays)
    requires Accounted(s)
    ensures Accounted(Step(s, e, d))
  {
    match e
    case SocketClosed => RejectStepAccounted(s, d);
    case Disconnect => RejectStepAccounted(s, d);
    case Send(_, _, _) => SendStepAccounted(s, e, d);
    case Receive(id) => AnswerStepAccounted(s, id, d);
    case RequestTimesOut(id) => AnswerStepAccounted(s, id, d);
    case RunDeferred => SendStepAccounted(s, e, d);
    case _ =>
      QuietStep(s, e, d);
      SameLists(s, Step(s, e, d));
  }

  lemma {:induction false} SettledCorrelated(s: State, at: nat, outcome: Outcome)
    requires Correlated(s) && at < |s.pending|
    requires outcome.Replied? ==> outcome.id == s.pending[at].id
    ensures Correlated(Settled(s, at, outcome))
  {}

  lemma {:induction false} RejectedCorrelated(s: State)
    requires Correlated(s)
    ensures Correlated(Rejected(s))
  {
    forall k | 0 <= k < |Rejections(s.pending)| ensures Rejections(s.pending)[k].outcome.Disconnected? {
      RejectionsDisconnect(s.pending, k);
    }
  }

  lemma {:induction false} RequestedCorrelated(s: State, errorFirst: bool, timed: bool)
    requires Correlated(s)
    ensures Correlated(Requested(s, errorFirst, timed))
  {}

  lemma {:induction false} ToldCorrelated(s: State)
    requires Correlated(s) && s.deferred != []
    ensures Correlated(Told(s))
  {}

  /** Steps that touch none of the lists. */
  lemma {:induction false} QuietStep(s: State, e: Event, d: Delays)
    requires e.TicketSettled? || e.Opened? || e.SocketError? || e.ReconnectFires? || e.SwitchRoom?
    ensures var t := Step(s, e, d);
            && t.answers == s.answers && t.pending == s.pending && t.deferred == s.deferred && t.calls == s.calls
            && t.sentAs == s.sentAs && t.sequence == s.sequence
  {}

  lemma {:induction false} AnswerStepCorrelated(s: State, id: nat, d: Delays)
    requires Correlated(s)
    ensures Correlated(Step(s, Receive(id), d)) && Correlated(Step(s, RequestTimesOut(id), d))
  {
    var at := At(s.pending, id);
    if at != -1 {
      SettledCorrelated(s, at, Replied(id));
      SettledCorrelated(s, at, TimedOut);
    }
  }

  lemma {:induction false} RefusedCorrelated(s: State, errorFirst: bool)
    requires Correlated(s)
    ensures Correlated(Refused(s, errorFirst))
  {}

  lemma {:induction false} SendStepCorrelated(s: State, e: Event, d: Delays)
    requires Correlated(s) && (e.Send? || e.RunDeferred?)
    ensures Correlated(Step(s, e, d))
  {
    if e.RunDeferred? {
      if s.deferred != [] { ToldCorrelated(s); }
    } else if e.acknowledged {
      if !s.connected || !s.wire.Open? { RefusedCorrelated(s, e.errorFirst); } else { RequestedCorrelated(s, e.errorFirst, e.timed); }
    }
  }

  lemma {:induction false} RejectStepCorrelated(s: State, d: Delays)
    requires Correlated(s)
    ensures Correlated(Step(s, SocketClosed, d)) && Correlated(Step(s, Disconnect, d))
  {
    RejectedCorrelated(s.(wire := Closed, connected := false));
    RejectedCorrelated(s.(closedByClient := true, timerArmed := false, wire := Shut(s.wire)));
  }

  lemma {:induction false} StepCorrelated(s: State, e: Event, d: Delays)
    requires Correlated(s)
    ensures Correlated(Step(s, e, d))
  {
    if e.SocketClosed? || e.Disconnect? { RejectStepCorrelated(s, d); }
    else if e.Receive? || e.RequestTimesOut? { AnswerStepCorrelated(s, e.id, d); }
    else if e.Send? || e.RunDeferred? { SendStepCorrelated(s, e, d); }
    else { QuietStep(s, e, d); }
  }

  lemma {:induction false} StepConnection(s: State, e: Event, d: Delays)
    requires Connection(s)
    ensures Connection(Step(s, e, d))
  {}

  lemma {:induction false} RunKeepsAll(events: seq<Event>, d: Delays)
    ensures var s := Run(events, d); Accounted(s) && Correlated(s) && Connection(s)
  {
    if events != [] {
      var earlier, e := events[..|events| - 1], events[|events| - 1];
      RunKeepsAll(earlier, d);
      StepAccounted(Run(earlier, d), e, d);
      StepCorrelated(Run(earlier, d), e, d);
      StepConnection(Run(earlier, d), e, d);
    }
  }

  /** Over any interleaving, no callback fires twice and none fires for a send never made;
      a callback that has not fired is waiting in exactly one place. */
  lemma {:induction false} AcknowledgedExactlyOnce(events: seq<Event>, c: nat, d: Delays)
    ensures var s := Run(events, d);
            Fired(s, c) + Waiting(s, c) + Queued(s, c) == if c < s.calls then 1 else 0
  {
    RunKeepsAll(events, d);
  }

  /** A reply reaches the callback of the very send its id was issued to. */
  lemma {:induction false} RepliesReachTheirSender(events: seq<Event>, k: nat, d: Delays)
    ensures var s := Run(events, d);
            k < |s.answers| && s.answers[k].outcome.Replied? ==>
            1 <= s.answers[k].outcome.id <= |s.sentAs| && s.sentAs[s.answers[k].outcome.id - 1] == s.answers[k].call
  {
    RunKeepsAll(events, d);
  }

  /** Nothing is pending while not connected; when a connection closes, every request it
      carried has been answered. */
  lemma {:induction false} AnsweredByClose(events: seq<Event>, c: nat, d: Delays)
    ensures !Run(events, d).connected ==> Run(events, d).pending == []
    ensures var s := Step(Run(events, d), SocketClosed, d);
            s.pending == [] && Fired(s, c) + Queued(s, c) == if c < s.calls then 1 else 0
  {
    RunKeepsAll(events, d);
    var s := Run(events, d);
    StepAccounted(s, SocketClosed, d);
    StepConnection(s, SocketClosed, d);
    var closed := Step(s, SocketClosed, d);
    assert Fired(closed, c) + Waiting(closed, c) + Queued(closed, c) == if c < closed.calls then 1 else 0;
  }
}
