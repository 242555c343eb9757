/** Over any run of the chunk store: who is evicted, what pins protect, how far it grows.

    Recency is measured against a log of uses that the store itself never sees. */
module DiscLru {
  import opened RecencyOrder
  import opened DiscStore

  /** The position of the last use of `x` in the log, -1 when it was never used. */
  function LastUse(log: seq<int>, x: int): (at: int)
    ensures -1 <= at < |log|
    ensures at >= 0 ==> log[at] == x
    ensures forall k :: at < k < |log| ==> log[k] != x
  {
    if log == [] then -1
    else if log[|log| - 1] == x then |log| - 1
    else LastUse(log[..|log| - 1], x)
  }

  /** What one operation adds to the log: a read that found its chunk, or a put that was not refused. */
  function Uses(order: seq<int>, op: Op, c: Config): seq<int> {
    match op
    case Get(index, read) => if (read.Hit? || read.BodyFailed?) && index in order then [index] else []
    case Put(index, write) => if PageStep(order, op, c).outcome.Refused? then [] else [index]
  }

  /** Chunks found on disk at open count as used in the order they were listed. */
  function UseLog(start: seq<int>, ops: seq<Op>, c: Config): seq<int> {
    if ops == [] then start
    else
      var earlier := ops[..|ops| - 1];
      UseLog(start, earlier, c) + Uses(PageRun(start, earlier, c), ops[|ops| - 1], c)
  }

  /** Coldest first, by the log. */
  ghost predicate ColdestFirst(order: seq<int>, log: seq<int>) {
    order == [] ||
    (order[0] in log
     && (forall y :: y in order[1..] ==> LastUse(log, order[0]) < LastUse(log, y))
     && ColdestFirst(order[1..], log))
  }

  lemma {:induction false} ColdestFirstWithout(order: seq<int>, log: seq<int>, x: int)
    requires ColdestFirst(order, log)
    ensures ColdestFirst(Without(order, x), log)
  {
    if order != [] {
      ColdestFirstWithout(order[1..], log, x);
      if order[0] != x { assert Without(order, x)[1..] == Without(order[1..], x); }
    }
  }

  lemma {:induction false} ColdestFirstUsed(order: seq<int>, log: seq<int>, x: int)
    requires ColdestFirst(order, log) && x !in order
    ensures ColdestFirst(order + [x], log + [x])
  {
    assert (log + [x])[..|log|] == log;
    if order == [] {
      assert [x][1..] == [];
    } else {
      assert (order + [x])[1..] == order[1..] + [x];
      ColdestFirstUsed(order[1..], log, x);
      forall y | y in order[1..] + [x] ensures LastUse(log + [x], order[0]) < LastUse(log + [x], y) {
        if y != x { assert LastUse(log + [x], y) == LastUse(log, y); }
      }
    }
  }

  lemma {:induction false} ColdestFirstDistinct(order: seq<int>, log: seq<int>)
    requires ColdestFirst(order, log)
    ensures Distinct(order)
  {
    if order != [] {
      ColdestFirstDistinct(order[1..], log);
      assert order[0] !in order[1..];
      assert forall k :: 0 < k < |order| ==> order[k] == order[1..][k - 1];
    }
  }

  lemma {:induction false} OpensColdestFirst(start: seq<int>)
    requires Distinct(start)
    ensures ColdestFirst(start, start)
  {
    if start != [] {
      var last := |start| - 1;
      OpensColdestFirst(start[..last]);
      ColdestFirstUsed(start[..last], start[..last], start[last]);
      assert start[..last] + [start[last]] == start;
    }
  }

  lemma {:induction false} FirstUnpinnedIsColdest(order: seq<int>, log: seq<int>, pinned: int)
    requires ColdestFirst(order, log)
    ensures var victim := FirstUnpinned(order, pinned);
            victim.Some? ==>
            forall u :: u in order && u >= pinned && u != victim.value ==> LastUse(log, victim.value) < LastUse(log, u)
  {
    if order != [] && order[0] < pinned { FirstUnpinnedIsColdest(order[1..], log, pinned); }
  }

  /** `victims` leave in turn, each the least recently used unpinned chunk still there. */
  ghost predicate LeastRecentlyUsedInTurn(order: seq<int>, victims: seq<int>, log: seq<int>, pinned: int)
    decreases |victims|
  {
    victims == [] ||
    (var v := victims[0];
     && v in order && v >= pinned
     && (forall u :: u in order && u >= pinned && u != v ==> LastUse(log, v) < LastUse(log, u))
     && LeastRecentlyUsedInTurn(Without(order, v), victims[1..], log, pinned))
  }

  lemma {:induction false} MakeRoomEvictsInTurn(order: seq<int>, log: seq<int>, c: Config)
    requires ColdestFirst(order, log)
    ensures ColdestFirst(MakeRoom(order, c).order, log)
    ensures LeastRecentlyUsedInTurn(order, MakeRoom(order, c).victims, log, c.pinnedChunks)
    decreases |order|
  {
    var victim := FirstUnpinned(order, c.pinnedChunks);
    if |order| >= c.maxChunks && victim.Some? {
      var less := Without(order, victim.value);
      ColdestFirstWithout(order, log, victim.value);
      MakeRoomEvictsInTurn(less, log, c);
      FirstUnpinnedIsColdest(order, log, c.pinnedChunks);
      assert MakeRoom(order, c).victims[1..] == MakeRoom(less, c).victims;
    }
  }

  /** How much room is made: members, counts, and when it gives up. */
  lemma {:induction false} MakeRoomCounts(order: seq<int>, c: Config)
    requires Distinct(order)
    ensures var room := MakeRoom(order, c);
            && Distinct(room.order)
            && (forall x :: x in room.order <==> x in order && x !in room.victims)
            && (forall x :: x in room.victims ==> x in order && x >= c.pinnedChunks)
            && |room.order| + |room.victims| == |order|
            && (room.ok ==> |room.order| < c.maxChunks)
            && (room.victims != [] && room.ok ==> |room.order| == c.maxChunks - 1)
            && (!room.ok ==> |room.order| >= c.maxChunks && forall x :: x in room.order ==> x < c.pinnedChunks)
    decreases |order|
  {
    var victim := FirstUnpinned(order, c.pinnedChunks);
    if |order| >= c.maxChunks && victim.Some? {
      DistinctWithout(order, victim.value);
      MakeRoomCounts(Without(order, victim.value), c);
    }
  }

  lemma TouchKeepsColdestFirst(order: seq<int>, log: seq<int>, index: int)
    requires ColdestFirst(order, log)
    ensures ColdestFirst(Without(order, index) + [index], log + [index])
    ensures ColdestFirst(Touched(order, index), log + if index in order then [index] else [])
  {
    assert log + [] == log;
    ColdestFirstWithout(order, log, index);
    ColdestFirstUsed(Without(order, index), log, index);
  }

  lemma PutKeepsColdestFirst(order: seq<int>, log: seq<int>, index: int, write: Write, c: Config)
    requires ColdestFirst(order, log)
    ensures var e := PagePut(order, index, write, c);
            ColdestFirst(e.order, log + if e.outcome.Refused? then [] else [index])
  {
    assert log + [] == log;
    MakeRoomEvictsInTurn(order, log, c);
    var room := RoomFor(order, index, c);
    TouchKeepsColdestFirst(room.order, log, index);
    ColdestFirstWithout(Without(room.order, index) + [index], log + [index], index);
  }

  lemma StepKeepsColdestFirst(order: seq<int>, log: seq<int>, op: Op, c: Config)
    requires ColdestFirst(order, log)
    ensures ColdestFirst(PageStep(order, op, c).order, log + Uses(order, op, c))
  {
    match op
    case Get(index, read) =>
      assert log + [] == log;
      ColdestFirstWithout(order, log, index);
      TouchKeepsColdestFirst(order, log, index);
    case Put(index, write) =>
      PutKeepsColdestFirst(order, log, index, write, c);
  }

  lemma {:induction false} RunKeepsColdestFirst(start: seq<int>, ops: seq<Op>, c: Config)
    requires Distinct(start)
    ensures ColdestFirst(PageRun(start, ops, c), UseLog(start, ops, c))
  {
    if ops == [] {
      OpensColdestFirst(start);
    } else {
      var earlier := ops[..|ops| - 1];
      RunKeepsColdestFirst(start, earlier, c);
      StepKeepsColdestFirst(PageRun(start, earlier, c), UseLog(start, earlier, c), ops[|ops| - 1], c);
    }
  }

  lemma {:induction false} VictimsOfStep(order: seq<int>, op: Op, c: Config)
    ensures var victims := PageStep(order, op, c).victims; victims == [] || victims == MakeRoom(order, c).victims
  {}

  lemma {:induction false} StepEvictsInTurn(order: seq<int>, log: seq<int>, op: Op, c: Config)
    requires ColdestFirst(order, log)
    ensures LeastRecentlyUsedInTurn(order, PageStep(order, op, c).victims, log, c.pinnedChunks)
  {
    VictimsOfStep(order, op, c);
    MakeRoomEvictsInTurn(order, log, c);
    NoVictims(order, log, c.pinnedChunks);
  }

  lemma {:induction false} NoVictims(order: seq<int>, log: seq<int>, pinned: int)
    ensures LeastRecentlyUsedInTurn(order, [], log, pinned)
  {}

  /** After any run, every victim of the next operation is the unpinned chunk used longest ago. */
  lemma VictimsAreLeastRecentlyUsed(start: seq<int>, ops: seq<Op>, op: Op, c: Config)
    requires Distinct(start)
    ensures var before := PageRun(start, ops, c);
            LeastRecentlyUsedInTurn(before, PageStep(before, op, c).victims, UseLog(start, ops, c), c.pinnedChunks)
  {
    RunKeepsColdestFirst(start, ops, c);
    StepEvictsInTurn(PageRun(start, ops, c), UseLog(start, ops, c), op, c);
  }

  /** A put accounts for every chunk: what it evicts, what it keeps, what it adds. */
  lemma PutContents(order: seq<int>, index: int, write: Write, c: Config)
    requires Distinct(order)
    ensures var e := PagePut(order, index, write, c);
            && Distinct(e.order)
            && (forall x :: x != index ==> (x in e.order <==> x in order && x !in e.victims))
            && (forall x :: x in e.victims ==> x in order && x >= c.pinnedChunks && x != index)
            && (index in e.order <==> index in order || e.outcome.Stored? || (e.outcome.Threw? && write.OpenFailed?))
            && |e.order| + |e.victims| == |order| + (if index in e.order && index !in order then 1 else 0)
            && (e.outcome.Refused? ==> |e.order| >= c.maxChunks && forall x :: x in e.order ==> x < c.pinnedChunks)
            && (e.victims != [] ==> index !in order && |order| >= c.maxChunks)
            && (index !in order && !e.outcome.Refused? ==> |e.order| <= c.maxChunks)
  {
    MakeRoomCounts(order, c);
    var room := RoomFor(order, index, c);
    DistinctWithout(room.order, index);
    DistinctAppend(Without(room.order, index), index);
    if index !in room.order { WithoutAppended(room.order, index); }
  }

  /** The store never grows past the larger of its size at open and its capacity. */
  lemma {:induction false} RunStaysBounded(start: seq<int>, ops: seq<Op>, c: Config)
    requires Distinct(start)
    ensures var order := PageRun(start, ops, c);
            Distinct(order) && |order| <= if |start| > c.maxChunks then |start| else c.maxChunks
    decreases |ops|
  {
    if ops != [] {
      var earlier, op := ops[..|ops| - 1], ops[|ops| - 1];
      RunStaysBounded(start, earlier, c);
      var before := PageRun(start, earlier, c);
      DistinctWithout(before, op.index);
      if op.Put? {
        PutContents(before, op.index, op.write, c);
      } else {
        DistinctAppend(Without(before, op.index), op.index);
      }
    }
  }

  /** A pinned chunk leaves only through its own index: a wrong-sized read of it. */
  lemma {:induction false} PinsSurvive(start: seq<int>, ops: seq<Op>, pin: int, c: Config)
    requires Distinct(start) && pin in start && pin < c.pinnedChunks
    requires forall k :: 0 <= k < |ops| ==> !(ops[k].Get? && ops[k].index == pin && ops[k].read == WrongSize(true))
    ensures pin in PageRun(start, ops, c)
    decreases |ops|
  {
    if ops != [] {
      var earlier, op := ops[..|ops| - 1], ops[|ops| - 1];
      PinsSurvive(start, earlier, pin, c);
      RunStaysBounded(start, earlier, c);
      if op.Put? { PutContents(PageRun(start, earlier, c), op.index, op.write, c); }
    }
  }
}
