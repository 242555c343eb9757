/** Moving on from a full room: the client walks the registry and stops when it has seen it all. */
module RoomRollover {

  datatype Room = Room(id: string)

  /** `attempts` is the set of rooms found full that only a snapshot forgets. `answered` lists
      the rooms that have answered full since the client last started or joined a room. */
  datatype State = State(current: Room, attempts: set<Room>, started: bool, answered: seq<Room>)

  datatype Event = Start(room: Room) | RoomFull | RoomSnapshot | OtherError

  /** `indexOf`. */
  function IndexOf(rooms: seq<Room>, room: Room): (at: int)
    ensures -1 <= at < |rooms|
    ensures at >= 0 ==> rooms[at] == room
    ensures at == -1 ==> room !in rooms
  {
    if rooms == [] then -1
    else if rooms[0] == room then 0
    else
      assert rooms == [rooms[0]] + rooms[1..];
      var at := IndexOf(rooms[1..], room);
      if at == -1 then -1 else at + 1
  }

  function Next(rooms: seq<Room>, current: Room): Room
    requires rooms != []
  {
    rooms[(IndexOf(rooms, current) + 1) % |rooms|]
  }

  function Step(s: State, e: Event, rooms: seq<Room>): State {
    match e
    case Start(room) => if s.started then s else State(room, s.attempts, true, [])
    case RoomFull =>
      var tried, answered := s.attempts + {s.current}, s.answered + [s.current];
      if |tried| >= |rooms| then State(s.current, tried, false, answered)
      else State(Next(rooms, s.current), tried, s.started, answered)
    case RoomSnapshot => s.(attempts := {}, answered := [])
    case OtherError => s.(started := false)
  }

  class MultiplayerClient {
    var currentRoomId: Room
    var fullRoomAttempts: set<Room>
    var started: bool
    ghost var answered: seq<Room>

    ghost function View(): State
      reads this
    {
      State(currentRoomId, fullRoomAttempts, started, answered)
    }

    constructor ()
      ensures View() == State(Room("main"), {}, false, [])
    {
      currentRoomId, fullRoomAttempts, started, answered := Room("main"), {}, false, [];
    }

    /** `roomId` is the room asked for or the one placement gave instead. */
    method Begin(roomId: Room)
      modifies this
      ensures View() == Step(old(View()), Start(roomId), [])
    {
      if started { return; }
      started := true;
      currentRoomId := roomId;
      answered := [];
    }

    method RoomError(full: bool, rooms: seq<Room>) returns (allFull: bool)
      modifies this
      ensures View() == Step(old(View()), if full then RoomFull else OtherError, rooms)
      ensures allFull <==> full && |old(fullRoomAttempts) + {old(currentRoomId)}| >= |rooms|
    {
      allFull := false;
      if full {
        fullRoomAttempts := fullRoomAttempts + {currentRoomId};
        answered := answered + [currentRoomId];
        if |fullRoomAttempts| >= |rooms| {
          started, allFull := false, true;
          return;
        }
        var nextIndex := (IndexOf(rooms, currentRoomId) + 1) % |rooms|;
        currentRoomId := rooms[nextIndex];
        return;
      }
      started := false;
    }

    method RoomJoined()
      modifies this
      ensures View() == Step(old(View()), RoomSnapshot, [])
    {
      fullRoomAttempts, answered := {}, [];
    }
  }

  ghost predicate DistinctRooms(rooms: seq<Room>) {
    forall i, j :: 0 <= i < j < |rooms| ==> rooms[i] != rooms[j]
  }

  /** The state after `k` room-full answers in a row. */
  function Full(s: State, k: nat, rooms: seq<Room>): State {
    if k == 0 then s else Step(Full(s, k - 1, rooms), RoomFull, rooms)
  }

  /** The rooms visited, in order: the registry from the starting room round to it again,
      or the starting room and then the registry short of its last room when the registry
      does not list it. */
  function Itinerary(rooms: seq<Room>, start: Room): seq<Room>
    requires rooms != []
  {
    var at := IndexOf(rooms, start);
    if at == -1 then [start] + rooms[..|rooms| - 1] else rooms[at..] + rooms[..at]
  }

  /** The first `k` rooms of a route. */
  function Tried(stops: seq<Room>, k: nat): set<Room>
    requires k <= |stops|
  {
    if k == 0 then {} else Tried(stops, k - 1) + {stops[k - 1]}
  }

  function RoomSet(rooms: seq<Room>): set<Room> { Tried(rooms, |rooms|) }

  lemma {:induction false} TriedMember(stops: seq<Room>, k: nat, i: nat)
    requires i < k <= |stops|
    ensures stops[i] in Tried(stops, k)
  {
    if i < k - 1 { TriedMember(stops, k - 1, i); }
  }

  lemma {:induction false} TriedOnly(stops: seq<Room>, k: nat, room: Room) returns (i: nat)
    requires k <= |stops| && room in Tried(stops, k)
    ensures i < k && stops[i] == room
  {
    if room == stops[k - 1] { i := k - 1; } else { i := TriedOnly(stops, k - 1, room); }
  }

  lemma {:induction false} TriedSize(stops: seq<Room>, k: nat)
    requires DistinctRooms(stops) && k <= |stops|
    ensures |Tried(stops, k)| == k
  {
    if k > 0 {
      TriedSize(stops, k - 1);
      if stops[k - 1] in Tried(stops, k - 1) {
        var i := TriedOnly(stops, k - 1, stops[k - 1]);
        assert false;
      }
    }
  }

  lemma {:induction false} TriedGrows(stops: seq<Room>, i: nat, j: nat)
    requires i <= j <= |stops|
    ensures Tried(stops, i) <= Tried(stops, j)
  {
    if i < j { TriedGrows(stops, i, j - 1); }
  }

  lemma {:induction false} TriedOfPrefix(stops: seq<Room>, m: nat, k: nat)
    requires k <= m <= |stops|
    ensures Tried(stops[..m], k) == Tried(stops, k)
  {
    if k > 0 { TriedOfPrefix(stops, m, k - 1); }
  }

  lemma {:induction false} IndexIsUnique(rooms: seq<Room>, at: nat)
    requires DistinctRooms(rooms) && at < |rooms|
    ensures IndexOf(rooms, rooms[at]) == at
  {
    assert rooms[at] in rooms;
  }

  lemma {:induction false} Wrapped(x: nat, n: nat)
    requires 0 < n && x <= n
    ensures x % n == if x == n then 0 else x
  {}

  lemma {:induction false} ItineraryIsDistinct(rooms: seq<Room>, start: Room)
    requires DistinctRooms(rooms) && rooms != []
    ensures DistinctRooms(Itinerary(rooms, start)) && |Itinerary(rooms, start)| == |rooms|
    ensures Itinerary(rooms, start)[0] == start
  {
    var at, n, stops := IndexOf(rooms, start), |rooms|, Itinerary(rooms, start);
    if at == -1 {
      forall i, j | 0 <= i < j < n ensures stops[i] != stops[j] {
        assert stops[j] == rooms[j - 1] && rooms[j - 1] in rooms;
      }
    } else {
      forall i, j | 0 <= i < j < n ensures stops[i] != stops[j] {
        assert stops[i] == rooms[if at + i < n then at + i else at + i - n];
        assert stops[j] == rooms[if at + j < n then at + j else at + j - n];
      }
    }
  }

  lemma {:induction false} NextOnItinerary(rooms: seq<Room>, start: Room, k: nat)
    requires DistinctRooms(rooms) && k + 1 < |rooms|
    ensures Next(rooms, Itinerary(rooms, start)[k]) == Itinerary(rooms, start)[k + 1]
  {
    var at, n, stops := IndexOf(rooms, start), |rooms|, Itinerary(rooms, start);
    if at == -1 {
      if k > 0 { IndexIsUnique(rooms, k - 1); }
      Wrapped(k, n);
    } else {
      var here := if at + k < n then at + k else at + k - n;
      assert stops[k] == rooms[here];
      IndexIsUnique(rooms, here);
      Wrapped(here + 1, n);
    }
  }

  /** `stops` leads from room to room the way `nextIndex` does, without repeating one. */
  ghost predicate Route(rooms: seq<Room>, stops: seq<Room>) {
    && rooms != [] && |stops| == |rooms| && DistinctRooms(stops)
    && forall k :: 0 <= k && k + 1 < |stops| ==> Next(rooms, stops[k]) == stops[k + 1]
  }

  lemma {:induction false} ItineraryIsARoute(rooms: seq<Room>, start: Room)
    requires DistinctRooms(rooms) && rooms != []
    ensures Route(rooms, Itinerary(rooms, start)) && Itinerary(rooms, start)[0] == start
  {
    var stops := Itinerary(rooms, start);
    ItineraryIsDistinct(rooms, start);
    forall k | 0 <= k && k + 1 < |stops| ensures Next(rooms, stops[k]) == stops[k + 1] {
      NextOnItinerary(rooms, start, k);
    }
  }

  /** The rooms counted as tried after `k` answers on a route, `before` having been found full earlier. */
  function Counted(before: set<Room>, stops: seq<Room>, k: nat): set<Room>
    requires k <= |stops|
  {
    before + Tried(stops, k)
  }

  /** The answer, from the `k`th on, at which as many rooms are counted as there are. */
  function LastAnswer(before: set<Room>, stops: seq<Room>, k: nat): (m: nat)
    requires 1 <= k <= |stops|
    ensures k <= m <= |stops|
    decreases |stops| - k
  {
    if k == |stops| || |Counted(before, stops, k)| >= |stops| then k else LastAnswer(before, stops, k + 1)
  }

  lemma {:induction false} LastAnswerCounts(before: set<Room>, stops: seq<Room>, k: nat)
    requires DistinctRooms(stops) && 1 <= k <= |stops|
    ensures |Counted(before, stops, LastAnswer(before, stops, k))| >= |stops|
    decreases |stops| - k
  {
    if k == |stops| {
      TriedSize(stops, k);
      SubsetSize(Tried(stops, k), Counted(before, stops, k));
    } else if |Counted(before, stops, k)| < |stops| {
      LastAnswerCounts(before, stops, k + 1);
    }
  }

  lemma {:induction false} NotYetCounted(before: set<Room>, stops: seq<Room>, k: nat, j: nat)
    requires 1 <= k <= |stops| && k <= j < LastAnswer(before, stops, k)
    ensures |Counted(before, stops, j)| < |stops|
    decreases |stops| - k
  {
    if k < j { NotYetCounted(before, stops, k + 1, j); }
  }

  lemma {:induction false} SubsetSize(a: set<Room>, b: set<Room>)
    requires a <= b
    ensures |a| <= |b| && (|a| == |b| ==> a == b)
  {
    assert b == a + (b - a) && a !! b - a;
  }

  /** One room along per answer until as many rooms are counted as there are. */
  lemma {:induction false} FullWalks(s: State, k: nat, rooms: seq<Room>, stops: seq<Room>)
    requires Route(rooms, stops) && stops[0] == s.current && s.started && s.answered == []
    requires k < LastAnswer(s.attempts, stops, 1)
    ensures Full(s, k, rooms) == State(stops[k], Counted(s.attempts, stops, k), true, stops[..k])
  {
    if k > 0 {
      FullWalks(s, k - 1, rooms, stops);
      NotYetCounted(s.attempts, stops, 1, k);
      OneAnswer(Full(s, k - 1, rooms), rooms, stops, k, s.attempts);
    }
  }

  /** One answer at a stop of the route: on to the next stop, or the end. */
  lemma {:induction false} OneAnswer(t: State, rooms: seq<Room>, stops: seq<Room>, k: nat, before: set<Room>)
    requires 1 <= k <= |stops| == |rooms|
    requires t == State(stops[k - 1], Counted(before, stops, k - 1), true, stops[..k - 1])
    requires k < |stops| ==> Next(rooms, stops[k - 1]) == stops[k]
    ensures |Counted(before, stops, k)| >= |rooms| ==>
              Step(t, RoomFull, rooms) == State(stops[k - 1], Counted(before, stops, k), false, stops[..k])
    ensures |Counted(before, stops, k)| < |rooms| && k < |stops| ==>
              Step(t, RoomFull, rooms) == State(stops[k], Counted(before, stops, k), true, stops[..k])
  {
    assert t.attempts + {t.current} == Counted(before, stops, k);
    assert stops[..k - 1] + [stops[k - 1]] == stops[..k];
  }

  /** The answers a client stops after, whatever rooms it already held to be full. */
  function Answers(s: State, rooms: seq<Room>): (m: nat)
    requires DistinctRooms(rooms) && rooms != []
    ensures 1 <= m <= |rooms|
  {
    ItineraryIsDistinct(rooms, s.current);
    LastAnswer(s.attempts, Itinerary(rooms, s.current), 1)
  }

  /** No room is ever retried: until its last answer the client is trying, in a room that has
      not answered since it started. */
  lemma {:induction false} NoRoomIsRetried(s: State, rooms: seq<Room>, k: nat)
    requires DistinctRooms(rooms) && rooms != [] && s.started && s.answered == [] && k < Answers(s, rooms)
    ensures var t := Full(s, k, rooms); t.started && |t.answered| == k && t.current !in t.answered
  {
    var stops := Itinerary(rooms, s.current);
    ItineraryIsARoute(rooms, s.current);
    FullWalks(s, k, rooms, stops);
    assert stops[k] !in stops[..k];
  }

  /** And at its last answer it stops, having tried the first so many rooms of its route, each once. */
  lemma {:induction false} RolloverEnds(s: State, rooms: seq<Room>)
    requires DistinctRooms(rooms) && rooms != [] && s.started && s.answered == []
    ensures var m, stops := Answers(s, rooms), Itinerary(rooms, s.current);
            |stops| == |rooms| && Full(s, m, rooms) == State(stops[m - 1], Counted(s.attempts, stops, m), false, stops[..m])
  {
    var m, stops := Answers(s, rooms), Itinerary(rooms, s.current);
    ItineraryIsARoute(rooms, s.current);
    FullWalks(s, m - 1, rooms, stops);
    LastAnswerCounts(s.attempts, stops, 1);
    OneAnswer(Full(s, m - 1, rooms), rooms, stops, m, s.attempts);
  }

  /** The whole route is walked exactly when every room held full from before is one of its
      stops but the last. */
  lemma {:induction false} WalksTheWholeRoute(before: set<Room>, stops: seq<Room>)
    requires DistinctRooms(stops) && stops != []
    ensures LastAnswer(before, stops, 1) == |stops| <==> |stops| == 1 || before <= Tried(stops, |stops| - 1)
  {
    var n, m := |stops|, LastAnswer(before, stops, 1);
    LastAnswerCounts(before, stops, 1);
    EarlyCounted(before, stops);
    if m < n {
      TriedGrows(stops, m, n - 1);
      SubsetSize(Counted(before, stops, m), Counted(before, stops, n - 1));
    } else if n > 1 {
      NotYetCounted(before, stops, 1, n - 1);
    }
  }

  /** One answer short of the end, a room held full from before that is not among those tried completes the count. */
  lemma {:induction false} EarlyCounted(before: set<Room>, stops: seq<Room>)
    requires DistinctRooms(stops) && stops != []
    ensures var n := |stops|; |Counted(before, stops, n - 1)| >= n <==> !(before <= Tried(stops, n - 1))
  {
    var early := Tried(stops, |stops| - 1);
    TriedSize(stops, |stops| - 1);
    SubsetSize(early, before + early);
    assert before <= early <==> before + early == early;
  }

  /** A route covers the registry exactly when it starts in it and is walked to its end. */
  lemma {:induction false} CoversTheRegistry(rooms: seq<Room>, start: Room, m: nat)
    requires DistinctRooms(rooms) && rooms != [] && m <= |Itinerary(rooms, start)|
    ensures RoomSet(rooms) <= Tried(Itinerary(rooms, start), m) <==> start in rooms && m == |rooms|
  {
    var stops := Itinerary(rooms, start);
    ItineraryIsDistinct(rooms, start);
    ItineraryCovers(rooms, start);
    TriedSize(rooms, |rooms|);
    TriedSize(stops, m);
    TriedGrows(stops, m, |stops|);
    if RoomSet(rooms) <= Tried(stops, m) { SubsetSize(RoomSet(rooms), Tried(stops, m)); }
  }

  /** When the client gives up, it has tried every room of the registry since it started
      exactly when it started in one of them and held no room full, from an earlier start,
      other than those it comes to before its last. */
  lemma {:induction false} RolloverCoversExactly(s: State, rooms: seq<Room>)
    requires DistinctRooms(rooms) && rooms != [] && s.started && s.answered == []
    ensures var stops, last := Itinerary(rooms, s.current), Full(s, Answers(s, rooms), rooms);
            && !last.started && |stops| == |rooms| && last.answered <= stops
            && (RoomSet(rooms) <= RoomSet(last.answered) <==>
                  s.current in rooms && (|rooms| == 1 || s.attempts <= Tried(stops, |stops| - 1)))
  {
    var m, stops := Answers(s, rooms), Itinerary(rooms, s.current);
    ItineraryIsDistinct(rooms, s.current);
    RolloverEnds(s, rooms);
    WalksTheWholeRoute(s.attempts, stops);
    CoversTheRegistry(rooms, s.current, m);
    TriedOfPrefix(stops, m, m);
  }

  /** A client that holds no room full takes exactly as many answers as there are rooms. */
  lemma {:induction false} FreshRolloverTriesThemAll(s: State, rooms: seq<Room>)
    requires DistinctRooms(rooms) && rooms != [] && s.started && s.answered == [] && s.attempts == {}
    ensures var last := Full(s, |rooms|, rooms);
            && !last.started && last.answered == Itinerary(rooms, s.current) && |last.attempts| == |rooms|
            && (s.current in rooms ==> last.attempts == RoomSet(last.answered) == RoomSet(rooms))
  {
    var stops := Itinerary(rooms, s.current);
    ItineraryIsDistinct(rooms, s.current);
    RolloverEnds(s, rooms);
    WalksTheWholeRoute(s.attempts, stops);
    assert stops[..|rooms|] == stops;
    assert Counted({}, stops, |rooms|) == RoomSet(stops);
    TriedSize(stops, |rooms|);
    ItineraryCovers(rooms, s.current);
  }

  lemma {:induction false} ItineraryCovers(rooms: seq<Room>, start: Room)
    requires DistinctRooms(rooms) && rooms != []
    ensures var seen, last := RoomSet(Itinerary(rooms, start)), rooms[|rooms| - 1];
            if start in rooms then seen == RoomSet(rooms) else last in RoomSet(rooms) && last !in seen
  {
    var n, at, stops := |rooms|, IndexOf(rooms, start), Itinerary(rooms, start);
    if start in rooms {
      forall r | r in RoomSet(rooms) ensures r in RoomSet(stops) {
        var i := TriedOnly(rooms, n, r);
        TriedMember(stops, n, if i < at then n - at + i else i - at);
      }
      forall r | r in RoomSet(stops) ensures r in RoomSet(rooms) {
        var i := TriedOnly(stops, n, r);
        TriedMember(rooms, n, if at + i < n then at + i else at + i - n);
      }
    } else {
      TriedMember(rooms, n, n - 1);
      assert rooms[n - 1] in rooms;
      assert forall i :: 0 <= i < n ==> stops[i] != rooms[n - 1];
      if rooms[n - 1] in RoomSet(stops) {
        var i := TriedOnly(stops, n, rooms[n - 1]);
        assert false;
      }
    }
  }

  /** Any other error stops the client where it is; a snapshot forgets what was full and stops
      nothing; a start while started changes nothing, and otherwise starts in the room asked for. */
  lemma {:induction false} OtherEvents(s: State, rooms: seq<Room>, room: Room)
    ensures var stopped, joined, begun := Step(s, OtherError, rooms), Step(s, RoomSnapshot, rooms), Step(s, Start(room), rooms);
            && !stopped.started && stopped.current == s.current && stopped.attempts == s.attempts && stopped.answered == s.answered
            && joined.attempts == {} && joined.answered == [] && joined.current == s.current && joined.started == s.started
            && (s.started ==> begun == s)
            && (!s.started ==> begun.started && begun.current == room && begun.attempts == s.attempts && begun.answered == [])
  {}

  /** A snapshot forgets the attempts, so the count starts again from the room joined. */
  lemma {:induction false} SnapshotRestarts(s: State, rooms: seq<Room>)
    requires DistinctRooms(rooms) && s.current in rooms && s.started
    ensures var t := Full(Step(s, RoomSnapshot, rooms), |rooms|, rooms);
            !t.started && RoomSet(t.answered) == RoomSet(rooms)
  {
    FreshRolloverTriesThemAll(Step(s, RoomSnapshot, rooms), rooms);
  }

  /** Starting again does not: after an all-full stop the next start gives up at its first
      full answer, in a registry of any size. */
  lemma {:induction false} RetryGivesUpAtOnce(s: State, rooms: seq<Room>, room: Room)
    requires DistinctRooms(rooms) && rooms != [] && s.started && s.answered == [] && s.attempts == {}
    ensures var stopped := Full(s, |rooms|, rooms);
            var retry := Step(Step(stopped, Start(room), rooms), RoomFull, rooms);
            !stopped.started && !retry.started && retry.answered == [room] && retry.current == room
  {
    FreshRolloverTriesThemAll(s, rooms);
    var stopped := Full(s, |rooms|, rooms);
    SubsetSize(stopped.attempts, stopped.attempts + {room});
  }

  /** From a room the registry does not list, its last room is given up on untried. */
  lemma {:induction false} UnlistedStartMissesTheLast(lobby: Room, main: Room, annex: Room)
    requires lobby != main && lobby != annex && main != annex
    ensures var last := Full(State(lobby, {}, true, []), 2, [main, annex]);
            !last.started && last.answered == [lobby, main]
  {
    var rooms, s := [main, annex], State(lobby, {}, true, []);
    assert lobby !in rooms && rooms[..1] == [main];
    assert Itinerary(rooms, lobby) == [lobby, main];
    FreshRolloverTriesThemAll(s, rooms);
  }
}
