/** The realtime socket: requests matched with acknowledgements, and one connection kept
    alive through tickets, closes, room switches and backed-off reconnects.

    Every event is one uninterrupted stretch of code; callbacks do not call back in. */
module RealtimeSocket {

  /** The WebSocket, from construction to its close event. */
  datatype Wire = Absent | Opening | Open | Closing | Closed

  datatype Outcome = Replied(id: nat) | TimedOut | Disconnected

  /** One firing of an acknowledgement callback. `call` numbers the send it belongs to. */
  datatype Answer = Answer(call: nat, errorFirst: bool, outcome: Outcome)

  /** A request awaiting its acknowledgement, under its request id. */
  datatype Pending = Pending(id: nat, call: nat, errorFirst: bool, timed: bool)

  /** A refused send's callback, queued as a microtask. */
  datatype Deferred = Deferred(call: nat, errorFirst: bool)

  datatype Delays = Delays(minimum: int, maximum: int)

  datatype State = State(
    connected: bool, closedByClient: bool,
    wire: Wire,
    ticketAwaited: bool,          // a `connect` is suspended on its ticket
    timerArmed: bool,             // the reconnect timer
    reconnectAttempt: nat,
    sequence: nat,                // request ids issued
    pending: seq<Pending>,        // in the order they were sent
    deferred: seq<Deferred>,
    answers: seq<Answer>,         // every callback fired so far
    sentAs: seq<nat>,             // the call each request id was issued to
    calls: nat,                   // sends that brought a callback
    waits: seq<int>)              // base reconnect delays since the last open

  datatype Ticket = NoTicket | SocketMade | SocketRefused

  datatype Event =
    | TicketSettled(ticket: Ticket)
    | Opened
    | SocketError
    | SocketClosed
    | ReconnectFires
    | Send(acknowledged: bool, errorFirst: bool, timed: bool)
    | Receive(id: nat)
    | RequestTimesOut(id: nat)
    | RunDeferred
    | Disconnect
    | SwitchRoom

  function Initial(): State {
    State(false, false, Absent, true, false, 0, 0, [], [], [], [], 0, [])
  }

  function Power(n: nat): nat { if n == 0 then 1 else 2 * Power(n - 1) }

  function BaseDelay(attempt: nat, d: Delays): int {
    var grown := d.minimum * Power(if attempt < 4 then attempt else 4);
    if d.maximum < grown then d.maximum else grown
  }

  function Scheduled(s: State, d: Delays): State {
    s.(timerArmed := true, waits := s.waits + [BaseDelay(s.reconnectAttempt, d)],
       reconnectAttempt := s.reconnectAttempt + 1)
  }

  /** `socket?.close()`. */
  function Shut(wire: Wire): Wire {
    if wire.Opening? || wire.Open? then Closing else wire
  }

  function Rejections(pending: seq<Pending>): seq<Answer> {
    if pending == [] then []
    else Rejections(pending[..|pending| - 1])
         + [Answer(pending[|pending| - 1].call, pending[|pending| - 1].errorFirst, Disconnected)]
  }

  function Rejected(s: State): State {
    s.(pending := [], answers := s.answers + Rejections(s.pending))
  }

  /** The position of a pending request, -1 when the id is unknown. */
  function At(pending: seq<Pending>, id: nat): (at: int)
    ensures -1 <= at < |pending|
    ensures at >= 0 ==> pending[at].id == id
    ensures at == -1 ==> forall k :: 0 <= k < |pending| ==> pending[k].id != id
  {
    if pending == [] then -1
    else if pending[|pending| - 1].id == id then |pending| - 1
    else At(pending[..|pending| - 1], id)
  }

  function Settled(s: State, at: nat, outcome: Outcome): State
    requires at < |s.pending|
  {
    var p := s.pending[at];
    s.(pending := s.pending[..at] + s.pending[at + 1..], answers := s.answers + [Answer(p.call, p.errorFirst, outcome)])
  }

  /** A send that registers its callback under a fresh request id. */
  function Requested(s: State, errorFirst: bool, timed: bool): State {
    s.(sequence := s.sequence + 1, calls := s.calls + 1, sentAs := s.sentAs + [s.calls],
       pending := s.pending + [Pending(s.sequence + 1, s.calls, errorFirst, timed)])
  }

  /** A send whose callback is queued to hear that there is no connection. */
  function Refused(s: State, errorFirst: bool): State {
    s.(deferred := s.deferred + [Deferred(s.calls, errorFirst)], calls := s.calls + 1)
  }

  /** The first such callback hears it. */
  function Told(s: State): State
    requires s.deferred != []
  {
    s.(deferred := s.deferred[1..],
       answers := s.answers + [Answer(s.deferred[0].call, s.deferred[0].errorFirst, Disconnected)])
  }

  function Step(s: State, e: Event, d: Delays): State {
    match e
    case TicketSettled(ticket) =>
      if !s.ticketAwaited then s
      else
        var resumed := s.(ticketAwaited := false);
        if ticket.NoTicket? then (if s.closedByClient then resumed else Scheduled(resumed, d))
        else if s.closedByClient || ticket.SocketRefused? then resumed
        else resumed.(wire := Opening)
    case Opened =>
      if s.wire.Opening? then s.(wire := Open, connected := true, reconnectAttempt := 0, waits := []) else s
    case SocketError => s.(wire := Shut(s.wire))
    case SocketClosed =>
      if s.wire.Absent? || s.wire.Closed? then s
      else
        var down := Rejected(s.(wire := Closed, connected := false));
        if s.closedByClient then down else Scheduled(down, d)
    case ReconnectFires =>
      if s.timerArmed then s.(timerArmed := false, ticketAwaited := !s.closedByClient || s.ticketAwaited) else s
    case Send(acknowledged, errorFirst, timed) =>
      if !acknowledged then s
      else if !s.connected || !s.wire.Open? then Refused(s, errorFirst)
      else Requested(s, errorFirst, timed)
    case Receive(id) =>
      var at := At(s.pending, id);
      if at == -1 then s else Settled(s, at, Replied(id))
    case RequestTimesOut(id) =>
      var at := At(s.pending, id);
      if at == -1 || !s.pending[at].timed then s else Settled(s, at, TimedOut)
    case RunDeferred => if s.deferred == [] then s else Told(s)
    case Disconnect => Rejected(s.(closedByClient := true, timerArmed := false, wire := Shut(s.wire)))
    case SwitchRoom => s.(closedByClient := false, wire := Shut(s.wire))
  }

  function Run(events: seq<Event>, d: Delays): State {
    if events == [] then Initial() else Step(Run(events[..|events| - 1], d), events[|events| - 1], d)
  }

  function RejectEach(p: Pending): Answer { Answer(p.call, p.errorFirst, Disconnected) }

  /** The object, its fields and its methods. What the environment keeps for it, the
      microtask queue and the log of callbacks fired, is ghost. */
  class NativeRealtimeSocket {
    var connected: bool
    var closedByClient: bool
    var socket: Wire
    var ticketAwaited: bool
    var timerArmed: bool
    var reconnectAttempt: nat
    var sequence: nat
    var pending: seq<Pending>
    const delays: Delays
    ghost var deferred: seq<Deferred>
    ghost var answers: seq<Answer>
    ghost var sentAs: seq<nat>
    ghost var calls: nat
    ghost var waits: seq<int>

    ghost function View(): State
      reads this
    {
      State(connected, closedByClient, socket, ticketAwaited, timerArmed, reconnectAttempt, sequence,
            pending, deferred, answers, sentAs, calls, waits)
    }

    constructor (delays: Delays)
      ensures View() == Initial() && this.delays == delays
    {
      connected, closedByClient, socket := false, false, Absent;
      ticketAwaited, timerArmed := true, false;
      reconnectAttempt, sequence, pending := 0, 0, [];
      this.delays := delays;
      deferred, answers, sentAs, calls, waits := [], [], [], 0, [];
    }

    method ScheduleReconnect()
      modifies this
      ensures View() == Scheduled(old(View()), delays)
    {
      var shift := 0;
      var delay := delays.minimum;
      while shift < reconnectAttempt && shift < 4
        invariant 0 <= shift <= 4 && shift <= reconnectAttempt && delay == delays.minimum * Power(shift)
        invariant View() == old(View())
      {
        shift := shift + 1;
        delay := delay * 2;
      }
      if delays.maximum < delay { delay := delays.maximum; }
      waits := waits + [delay];
      reconnectAttempt := reconnectAttempt + 1;
      timerArmed := true;
    }

    method RejectPending()
      modifies this`pending, this`answers
      ensures View() == Rejected(old(View()))
    {
      for k := 0 to |pending|
        invariant pending == old(pending) && answers == old(answers) + Rejections(pending[..k])
      {
        assert pending[..k + 1][..k] == pending[..k];
        answers := answers + [RejectEach(pending[k])];
      }
      assert pending[..|pending|] == pending;
      pending := [];
    }

    method TicketArrives(ticket: Ticket)
      modifies this
      ensures View() == Step(old(View()), TicketSettled(ticket), delays)
    {
      if !ticketAwaited { return; }
      ticketAwaited := false;
      if ticket.NoTicket? {
        if !closedByClient { ScheduleReconnect(); }
        return;
      }
      if closedByClient || ticket.SocketRefused? { return; }
      socket := Opening;
    }

    method OnOpen()
      modifies this
      ensures View() == Step(old(View()), Opened, delays)
    {
      if socket.Opening? {
        socket, connected, reconnectAttempt := Open, true, 0;
        waits := [];
      }
    }

    method OnError()
      modifies this
      ensures View() == Step(old(View()), SocketError, delays)
    {
      if socket.Opening? || socket.Open? { socket := Closing; }
    }

    method OnClose()
      modifies this
      ensures View() == Step(old(View()), SocketClosed, delays)
    {
      if socket.Absent? || socket.Closed? { return; }
      socket, connected := Closed, false;
      RejectPending();
      if !closedByClient { ScheduleReconnect(); }
    }

    method OnReconnectTimer()
      modifies this
      ensures View() == Step(old(View()), ReconnectFires, delays)
    {
      if timerArmed {
        timerArmed := false;
        if !closedByClient { ticketAwaited := true; }
      }
    }

    /** `callback` stands for the acknowledgement function; callers number theirs in order. */
    method SendEvent(acknowledged: bool, callback: nat, errorFirst: bool, timed: bool)
      requires acknowledged ==> callback == calls
      modifies this
      ensures View() == Step(old(View()), Send(acknowledged, errorFirst, timed), delays)
    {
      if !connected || !socket.Open? {
        if acknowledged {
          deferred := deferred + [Deferred(callback, errorFirst)];
          calls := calls + 1;
        }
        return;
      }
      if acknowledged {
        sequence := sequence + 1;
        pending := pending + [Pending(sequence, callback, errorFirst, timed)];
        sentAs := sentAs + [callback];
        calls := calls + 1;
      }
    }

    method OnReply(id: nat)
      modifies this
      ensures View() == Step(old(View()), Receive(id), delays)
    {
      var at := At(pending, id);
      if at == -1 { return; }
      var p := pending[at];
      pending := pending[..at] + pending[at + 1..];
      answers := answers + [Answer(p.call, p.errorFirst, Replied(id))];
    }

    method OnRequestTimeout(id: nat)
      modifies this
      ensures View() == Step(old(View()), RequestTimesOut(id), delays)
    {
      var at := At(pending, id);
      if at == -1 || !pending[at].timed { return; }
      var p := pending[at];
      pending := pending[..at] + pending[at + 1..];
      answers := answers + [Answer(p.call, p.errorFirst, TimedOut)];
    }

    method CloseForGood()
      modifies this
      ensures View() == Step(old(View()), Disconnect, delays)
    {
      closedByClient := true;
      timerArmed := false;
      if socket.Opening? || socket.Open? { socket := Closing; }
      RejectPending();
    }

    method MoveToRoom()
      modifies this
      ensures View() == Step(old(View()), SwitchRoom, delays)
    {
      closedByClient := false;
      if socket.Opening? || socket.Open? { socket := Closing; }
    }
  }
}
