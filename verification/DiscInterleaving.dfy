/** The page store serves its puts without a queue: each runs from one await to the next,
    and any number may be in flight together. */
module DiscInterleaving {
  import opened Wrappers
  import opened RecencyOrder
  import opened DiscStore

  /** A put between two of its awaits: deleting a victim's file, or writing its own. */
  datatype Task = Evicting(index: int) | Writing(index: int, isNew: bool) | Finished(outcome: Outcome)

  datatype State = State(order: seq<int>, tasks: seq<Task>, evicted: seq<int>)

  datatype Event =
    | PutCalled(index: int)
    | VictimDeleted(task: nat)
    | WriteSettled(task: nat, write: Write)
    | GetSettled(index: int, read: Read)

  /** One turn of the loop that makes room for a new chunk, up to the next await. */
  function MakingRoom(order: seq<int>, index: int, c: Config): (seq<int>, Task, seq<int>) {
    if |order| >= c.maxChunks then
      match FirstUnpinned(order, c.pinnedChunks)
      case None => (order, Finished(Refused), [])
      case Some(victim) => (Without(order, victim), Evicting(index), [victim])
    else (Without(order, index) + [index], Writing(index, true), [])
  }

  /** A put from its call to its first await. */
  function Begun(order: seq<int>, index: int, c: Config): (seq<int>, Task, seq<int>) {
    if index in order then (Without(order, index) + [index], Writing(index, false), [])
    else MakingRoom(order, index, c)
  }

  /** A put from the end of its write. */
  function AfterWrite(order: seq<int>, task: Task, write: Write): (seq<int>, Task)
    requires task.Writing?
  {
    match write
    case Written => (order, Finished(Stored))
    case OpenFailed => (order, Finished(Threw))
    case WriteFailed => (if task.isNew then Without(order, task.index) else order, Finished(Threw))
  }

  function Step(s: State, e: Event, c: Config): State {
    match e
    case PutCalled(index) =>
      var (order, task, gone) := Begun(s.order, index, c);
      State(order, s.tasks + [task], s.evicted + gone)
    case VictimDeleted(k) =>
      if k >= |s.tasks| || !s.tasks[k].Evicting? then s
      else
        var (order, task, gone) := MakingRoom(s.order, s.tasks[k].index, c);
        State(order, s.tasks[k := task], s.evicted + gone)
    case WriteSettled(k, write) =>
      if k >= |s.tasks| || !s.tasks[k].Writing? then s
      else
        var (order, task) := AfterWrite(s.order, s.tasks[k], write);
        State(order, s.tasks[k := task], s.evicted)
    case GetSettled(index, read) => s.(order := PageGet(s.order, index, read).order)
  }

  function Run(start: seq<int>, events: seq<Event>, c: Config): State {
    if events == [] then State(start, [], []) else Step(Run(start, events[..|events| - 1], c), events[|events| - 1], c)
  }

  ghost predicate Inv(s: State, start: seq<int>, c: Config) {
    && Distinct(s.order)
    && |s.order| <= (if |start| > c.maxChunks then |start| else c.maxChunks)
    && forall k :: 0 <= k < |s.evicted| ==> s.evicted[k] >= c.pinnedChunks
  }

  lemma {:induction false} PlaceSize(order: seq<int>, index: int)
    requires Distinct(order)
    ensures Distinct(Without(order, index) + [index])
    ensures |Without(order, index) + [index]| == |order| + if index in order then 0 else 1
  {
    DistinctWithout(order, index);
    DistinctAppend(Without(order, index), index);
  }

  lemma MakingRoomSize(order: seq<int>, index: int, c: Config)
    requires Distinct(order)
    ensures var (after, task, gone) := MakingRoom(order, index, c);
            && Distinct(after)
            && (|after| <= |order| || |after| <= c.maxChunks)
            && forall k :: 0 <= k < |gone| ==> gone[k] >= c.pinnedChunks
  {
    PlaceSize(order, index);
    var victim := FirstUnpinned(order, c.pinnedChunks);
    if victim.Some? { DistinctWithout(order, victim.value); }
  }

  lemma StepKeepsInv(s: State, e: Event, start: seq<int>, c: Config)
    requires Inv(s, start, c)
    ensures Inv(Step(s, e, c), start, c)
  {
    match e
    case PutCalled(index) =>
      PlaceSize(s.order, index);
      MakingRoomSize(s.order, index, c);
    case VictimDeleted(k) =>
      if k < |s.tasks| && s.tasks[k].Evicting? { MakingRoomSize(s.order, s.tasks[k].index, c); }
    case WriteSettled(k, write) =>
      if k < |s.tasks| && s.tasks[k].Writing? { DistinctWithout(s.order, s.tasks[k].index); }
    case GetSettled(index, read) =>
      PlaceSize(s.order, index);
      DistinctWithout(s.order, index);
  }

  /** However puts and gets interleave at their awaits, the store lists no chunk twice, stays
      within the larger of its size at open and its capacity, and evicts no pinned chunk. */
  lemma {:induction false} InterleavedPutsStayBounded(start: seq<int>, events: seq<Event>, c: Config)
    requires Distinct(start)
    ensures Inv(Run(start, events, c), start, c)
  {
    if events != [] {
      InterleavedPutsStayBounded(start, events[..|events| - 1], c);
      StepKeepsInv(Run(start, events[..|events| - 1], c), events[|events| - 1], start, c);
    }
  }

  /** A task's eviction loop run to its end with nothing in between. */
  function RoomMade(order: seq<int>, index: int, c: Config): (seq<int>, Task, seq<int>)
    decreases |order|
  {
    var (after, task, gone) := MakingRoom(order, index, c);
    if task.Evicting? then
      var (last, end, more) := RoomMade(after, index, c);
      (last, end, gone + more)
    else (after, task, gone)
  }

  /** A put that nothing interrupts. */
  function Alone(order: seq<int>, index: int, write: Write, c: Config): Effect {
    var (placed, task, gone) :=
      if index in order then (Without(order, index) + [index], Writing(index, false), []) else RoomMade(order, index, c);
    if task.Writing? then
      var (after, end) := AfterWrite(placed, task, write);
      Effect(after, gone, if end.Finished? then end.outcome else Refused)
    else Effect(placed, gone, Refused)
  }

  lemma {:induction false} RoomMadeIsMakeRoom(order: seq<int>, index: int, c: Config)
    requires index !in order
    ensures var (after, task, gone) := RoomMade(order, index, c);
            var room := MakeRoom(order, c);
            && gone == room.victims
            && task == (if room.ok then Writing(index, true) else Finished(Refused))
            && after == (if room.ok then Without(room.order, index) + [index] else room.order)
    decreases |order|
  {
    var victim := FirstUnpinned(order, c.pinnedChunks);
    if |order| >= c.maxChunks && victim.Some? { RoomMadeIsMakeRoom(Without(order, victim.value), index, c); }
  }

  /** Uninterrupted, the steps between awaits add up to the put the sequential model states. */
  lemma UninterruptedPutIsSequential(order: seq<int>, index: int, write: Write, c: Config)
    ensures Alone(order, index, write, c) == PagePut(order, index, write, c)
  {
    if index !in order { RoomMadeIsMakeRoom(order, index, c); }
  }

  /** `x` is among the evictions after the first `n`. */
  ghost predicate EvictedSince(evicted: seq<int>, n: nat, x: int) {
    exists k :: n <= k < |evicted| && evicted[k] == x
  }

  /** Every way a chunk leaves the store: evicted, found to be the wrong size, or taken out by
      the failing write of a put that began while the chunk was not there. */
  lemma ChunkLeavesExactly(s: State, e: Event, x: int, c: Config)
    requires x in s.order
    ensures var t := Step(s, e, c);
            && s.evicted <= t.evicted
            && (x !in t.order <==>
                  || EvictedSince(t.evicted, |s.evicted|, x)
                  || e == GetSettled(x, WrongSize(true))
                  || (e.WriteSettled? && e.task < |s.tasks| && s.tasks[e.task] == Writing(x, true) && e.write.WriteFailed?))
  {
    EvictedGrows(s, e, c);
    var t := Step(s, e, c);
    if t.evicted != s.evicted { assert EvictedSince(t.evicted, |s.evicted|, t.evicted[|s.evicted|]); }
  }

  /** No put that found `x` missing is still in flight. */
  ghost predicate Settled(s: State, x: int) {
    forall k :: 0 <= k < |s.tasks| ==> s.tasks[k] != Evicting(x) && s.tasks[k] != Writing(x, true)
  }

  function RunFrom(s: State, events: seq<Event>, c: Config): State {
    if events == [] then s else Step(RunFrom(s, events[..|events| - 1], c), events[|events| - 1], c)
  }

  /** A stored chunk no put of which began without it is safe from every write: whatever
      interleaves from then on, it leaves only by eviction or a wrong-sized read of it. */
  lemma {:induction false} SettledChunkStays(s: State, events: seq<Event>, x: int, c: Config)
    requires x in s.order && Settled(s, x)
    requires forall k :: 0 <= k < |events| ==> events[k] != GetSettled(x, WrongSize(true))
    ensures var t := RunFrom(s, events, c);
            && s.evicted <= t.evicted
            && (EvictedSince(t.evicted, |s.evicted|, x) || (x in t.order && Settled(t, x)))
    decreases |events|
  {
    if events != [] {
      var n := |events| - 1;
      SettledChunkStays(s, events[..n], x, c);
      var before, after := RunFrom(s, events[..n], c), RunFrom(s, events, c);
      EvictedGrows(before, events[n], c);
      if EvictedSince(before.evicted, |s.evicted|, x) {
        var k :| |s.evicted| <= k < |before.evicted| && before.evicted[k] == x;
        assert after.evicted[k] == x;
      } else {
        ChunkLeavesExactly(before, events[n], x, c);
        StaysSettled(before, events[n], x, c);
        SinceWidens(after.evicted, |s.evicted|, |before.evicted|, x);
      }
    }
  }

  lemma SinceWidens(evicted: seq<int>, n: nat, m: nat, x: int)
    requires n <= m
    ensures EvictedSince(evicted, m, x) ==> EvictedSince(evicted, n, x)
  {}

  lemma EvictedGrows(s: State, e: Event, c: Config)
    ensures s.evicted <= Step(s, e, c).evicted
  {
    assert s.evicted + [] == s.evicted;
  }

  lemma StaysSettled(s: State, e: Event, x: int, c: Config)
    requires x in s.order && Settled(s, x)
    ensures Settled(Step(s, e, c), x)
  {}

  /** What a queue would have prevented: of two puts of one new chunk, the one that fails takes
      the chunk out of the store although the other has already reported it stored. */
  lemma FailingPutDropsAnothersChunk(order: seq<int>, x: int, c: Config)
    requires x !in order && |order| < c.maxChunks
    ensures var called := Step(Step(State(order, [], []), PutCalled(x), c), PutCalled(x), c);
            Step(Step(called, WriteSettled(1, Written), c), WriteSettled(0, WriteFailed), c)
            == State(order, [Finished(Threw), Finished(Stored)], [])
  {
    WithoutAppended(order, x);
    assert Without(order, x) == order && x in order + [x];
    var called := State(order + [x], [Writing(x, true), Writing(x, false)], []);
    assert Step(Step(State(order, [], []), PutCalled(x), c), PutCalled(x), c) == called;
    SecondStoredFirstFailed(order, x, c);
  }

  lemma SecondStoredFirstFailed(order: seq<int>, x: int, c: Config)
    requires x !in order
    ensures var called := State(order + [x], [Writing(x, true), Writing(x, false)], []);
            Step(Step(called, WriteSettled(1, Written), c), WriteSettled(0, WriteFailed), c)
            == State(order, [Finished(Threw), Finished(Stored)], [])
  {
    WithoutAppended(order, x);
  }
}
