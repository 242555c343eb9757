/** The client's membership mirror of the worker's store.

    Requests and replies travel over two FIFO channels; any number may be in flight, the
    worker serves them one at a time, and the client moves its mirror when a reply arrives.
    One open per store and no call timeout. */
module DiscMirror {
  import opened RecencyOrder
  import opened DiscStore
  import opened DiscLru

  datatype Request = GetRequest(index: int) | PutRequest(index: int)

  /** A reply on its way back. `after` and `victims` are not on the wire: they record what the
      worker held right after the operation and what it evicted, for stating the property. */
  datatype Answer = Answer(index: int, reply: Reply, after: set<int>, victims: set<int>)

  function SetOf(s: seq<int>): (r: set<int>)
    ensures forall x :: x in r <==> x in s
  {
    set x | x in s
  }

  /** What `get` and `put` do to the mirror when their call resolves. */
  function MirrorAfter(mirror: set<int>, index: int, reply: Reply): set<int> {
    match reply
    case GetReply(_, removed) => if removed then mirror - {index} else mirror
    case PutReply(ok, evicted) => if ok then mirror + {index} - SetOf(evicted) else mirror
  }

  /** The chunks the mirror still shows although a failed put has evicted them. */
  function LostAfter(lost: set<int>, a: Answer): set<int> {
    match a.reply
    case GetReply(_, removed) => if removed then lost - {a.index} else lost
    case PutReply(ok, _) => if ok then lost - {a.index} else lost + a.victims
  }

  datatype State = State(
    worker: seq<int>, requests: seq<Request>, replies: seq<Answer>,
    mirror: set<int>,
    seen: set<int>,      // the worker's chunks right after the last operation whose reply arrived
    lost: set<int>,
    failedPuts: nat)     // replies to puts that arrived with ok false

  datatype Event =
    | Call(request: Request)
    | Work(read: Read, write: Write)
    | Deliver

  function Open(onDisk: seq<int>): State {
    State(onDisk, [], [], SetOf(onDisk), SetOf(onDisk), {}, 0)
  }

  function Serve(order: seq<int>, request: Request, read: Read, write: Write, c: Config): (seq<int>, Answer) {
    var op := if request.GetRequest? then Get(request.index, read) else Put(request.index, write);
    var e := WorkerStep(order, op, c);
    (e.order, Answer(request.index, e.reply, SetOf(e.order), SetOf(e.victims)))
  }

  function Step(s: State, e: Event, c: Config): State {
    match e
    case Call(request) => s.(requests := s.requests + [request])
    case Work(read, write) =>
      if s.requests == [] then s
      else
        var (order, answer) := Serve(s.worker, s.requests[0], read, write, c);
        s.(worker := order, requests := s.requests[1..], replies := s.replies + [answer])
    case Deliver =>
      if s.replies == [] then s
      else
        var a := s.replies[0];
        s.(replies := s.replies[1..], mirror := MirrorAfter(s.mirror, a.index, a.reply),
           seen := a.after, lost := LostAfter(s.lost, a),
           failedPuts := s.failedPuts + if a.reply.PutReply? && !a.reply.ok then 1 else 0)
  }

  function Run(s: State, events: seq<Event>, c: Config): State {
    if events == [] then s else Step(Run(s, events[..|events| - 1], c), events[|events| - 1], c)
  }

  /** How one served operation moves the worker's chunks, and what its reply says about it. */
  ghost predicate Faithful(before: set<int>, a: Answer) {
    match a.reply
    case GetReply(_, removed) => a.after == if removed then before - {a.index} else before
    case PutReply(ok, evicted) =>
      && a.victims <= before && a.index !in a.victims
      && (ok ==> SetOf(evicted) == a.victims)
      && a.after == before - a.victims + if ok then {a.index} else {}
  }

  /** The replies in flight lead from what the client last saw to what the worker holds. */
  ghost predicate InFlight(seen: set<int>, replies: seq<Answer>, held: set<int>)
    decreases |replies|
  {
    if replies == [] then seen == held
    else Faithful(seen, replies[0]) && InFlight(replies[0].after, replies[1..], held)
  }

  ghost predicate Inv(s: State) {
    && Distinct(s.worker)
    && InFlight(s.seen, s.replies, SetOf(s.worker))
    && s.seen !! s.lost
    && s.mirror == s.seen + s.lost
    && (s.failedPuts == 0 ==> s.lost == {})
  }

  lemma WorkerPutContents(order: seq<int>, index: int, write: Write, c: Config)
    requires Distinct(order)
    ensures var e := WorkerPut(order, index, write, c);
            && Distinct(e.order)
            && (forall x :: x in e.victims ==> x in order) && index !in e.victims
            && (forall x :: x in e.order <==> (x in order && x !in e.victims) || (e.reply.ok && x == index))
  {
    var room, rest := RoomFor(order, index, c), Without(RoomFor(order, index, c).order, index);
    if index !in order { MakeRoomCounts(order, c); }
    if room.ok {
      DistinctWithout(room.order, index);
      DistinctAppend(rest, index);
      WithoutAppended(rest, index);
    }
  }

  lemma ServeIsFaithful(order: seq<int>, request: Request, read: Read, write: Write, c: Config)
    requires Distinct(order)
    ensures var (after, answer) := Serve(order, request, read, write, c);
            Distinct(after) && answer.after == SetOf(after) && Faithful(SetOf(order), answer)
  {
    var index := request.index;
    DistinctWithout(order, index);
    DistinctAppend(Without(order, index), index);
    if request.PutRequest? { PutIsFaithful(order, index, write, c); }
  }

  lemma PutIsFaithful(order: seq<int>, index: int, write: Write, c: Config)
    requires Distinct(order)
    ensures var e := WorkerPut(order, index, write, c);
            && Distinct(e.order) && SetOf(e.victims) <= SetOf(order) && index !in SetOf(e.victims)
            && SetOf(e.order) == SetOf(order) - SetOf(e.victims) + if e.reply.ok then {index} else {}
  {
    WorkerPutContents(order, index, write, c);
    var e := WorkerPut(order, index, write, c);
    var expected := SetOf(order) - SetOf(e.victims) + if e.reply.ok then {index} else {};
    forall x ensures x in SetOf(e.order) <==> x in expected {}
    forall x ensures x in SetOf(e.victims) ==> x in SetOf(order) {}
  }

  lemma {:induction false} InFlightAppend(seen: set<int>, replies: seq<Answer>, held: set<int>, a: Answer)
    requires InFlight(seen, replies, held) && Faithful(held, a)
    ensures InFlight(seen, replies + [a], a.after)
    decreases |replies|
  {
    if replies == [] {
      assert ([a])[1..] == [];
    } else {
      assert (replies + [a])[1..] == replies[1..] + [a];
      InFlightAppend(replies[0].after, replies[1..], held, a);
    }
  }

  lemma StepKeepsInv(s: State, e: Event, c: Config)
    requires Inv(s)
    ensures Inv(Step(s, e, c))
  {
    match e
    case Call(_) =>
    case Work(read, write) =>
      if s.requests != [] {
        ServeIsFaithful(s.worker, s.requests[0], read, write, c);
        InFlightAppend(s.seen, s.replies, SetOf(s.worker), Serve(s.worker, s.requests[0], read, write, c).1);
      }
    case Deliver =>
  }

  lemma {:induction false} RunKeepsInv(onDisk: seq<int>, events: seq<Event>, c: Config)
    requires Distinct(onDisk)
    ensures Inv(Run(Open(onDisk), events, c))
  {
    if events != [] {
      RunKeepsInv(onDisk, events[..|events| - 1], c);
      StepKeepsInv(Run(Open(onDisk), events[..|events| - 1], c), events[|events| - 1], c);
    }
  }

  /** In every reachable state the mirror shows everything the worker held after the last
      answered operation, overshoots by exactly the chunks failed puts evicted and nothing
      has put back or dropped since, and is exact while no put has failed. */
  lemma MirrorIsAlwaysASuperset(onDisk: seq<int>, events: seq<Event>, c: Config)
    requires Distinct(onDisk)
    ensures var s := Run(Open(onDisk), events, c);
            && s.seen <= s.mirror
            && s.mirror - s.seen == s.lost
            && (s.mirror == s.seen <==> s.lost == {})
            && (s.failedPuts == 0 ==> s.mirror == s.seen)
  {
    RunKeepsInv(onDisk, events, c);
  }

  /** Once every reply has arrived, no stored chunk is missing from the mirror. */
  lemma QuietMirrorMissesNothing(onDisk: seq<int>, events: seq<Event>, c: Config)
    requires Distinct(onDisk) && Run(Open(onDisk), events, c).replies == []
    ensures var s := Run(Open(onDisk), events, c);
            (forall x :: x in s.worker ==> x in s.mirror)
            && (s.failedPuts == 0 ==> s.mirror == SetOf(s.worker))
  {
    RunKeepsInv(onDisk, events, c);
  }

  /** A failed put can leave the mirror showing a chunk the worker has already evicted. */
  lemma FailedPutLeavesAStaleChunk()
    ensures var events := [Call(PutRequest(9)), Work(Unreadable, WriteFailed), Deliver];
            var s := Run(Open([7]), events, Config(1, 0));
            s.worker == [] && s.mirror == {7}
  {
    var c, s0 := Config(1, 0), Open([7]);
    var e0, e1, e2 := Call(PutRequest(9)), Work(Unreadable, WriteFailed), Deliver;
    assert [e0, e1, e2][..2] == [e0, e1] && [e0, e1][..1] == [e0] && [e0][..0] == [];
    var s1 := Step(s0, e0, c);
    assert s1.requests == [PutRequest(9)];
    assert Without([7], 7) == [] && Without([9], 9) == [];
    assert MakeRoom([7], c) == Room([], [7], true);
    assert WorkerPut([7], 9, WriteFailed, c) == WorkerEffect([], [7], PutReply(false, []));
    var s2 := Step(s1, e1, c);
    assert SetOf([]) == {};
    assert s2.worker == [] && s2.replies == [Answer(9, PutReply(false, []), {}, SetOf([7]))];
    var s3 := Step(s2, e2, c);
    assert Run(s0, [e0], c) == s1 && Run(s0, [e0, e1], c) == s2 && Run(s0, [e0, e1, e2], c) == s3;
  }

  /** The mirror object the page holds. */
  class ClientMirror {
    var stored: set<int>

    constructor (keys: seq<int>)
      ensures stored == SetOf(keys)
    {
      stored := SetOf(keys);
    }

    method GetResolved(index: int, reply: Reply) returns (found: bool)
      requires reply.GetReply?
      modifies this`stored
      ensures stored == MirrorAfter(old(stored), index, reply)
      ensures found <==> reply.buffer
    {
      if reply.removed { stored := stored - {index}; }
      found := reply.buffer;
    }

    method PutResolved(index: int, reply: Reply) returns (ok: bool)
      requires reply.PutReply?
      modifies this`stored
      ensures stored == MirrorAfter(old(stored), index, reply)
      ensures ok <==> reply.ok
    {
      if !reply.ok { return false; }
      stored := stored + {index};
      for k := 0 to |reply.evicted|
        invariant stored == old(stored) + {index} - SetOf(reply.evicted[..k])
      {
        assert SetOf(reply.evicted[..k + 1]) == SetOf(reply.evicted[..k]) + {reply.evicted[k]} by {
          assert reply.evicted[..k + 1] == reply.evicted[..k] + [reply.evicted[k]];
        }
        stored := stored - {reply.evicted[k]};
      }
      assert reply.evicted[..|reply.evicted|] == reply.evicted;
      ok := true;
    }
  }
}
