/** The page store and the worker store are documented as identical. They are, except on
    I/O failures named here exactly. */
module DiscAgreement {
  import opened RecencyOrder
  import opened DiscStore
  import opened DiscLru

  function WorkerRun(order: seq<int>, ops: seq<Op>, c: Config): seq<int> {
    if ops == [] then order else WorkerStep(WorkerRun(order, ops[..|ops| - 1], c), ops[|ops| - 1], c).order
  }

  function PinnedCount(order: seq<int>, pinned: int): nat {
    if order == [] then 0 else (if order[0] < pinned then 1 else 0) + PinnedCount(order[1..], pinned)
  }

  lemma {:induction false} PinnedCountWithout(order: seq<int>, pinned: int, x: int)
    requires x >= pinned
    ensures PinnedCount(Without(order, x), pinned) == PinnedCount(order, pinned) <= |order|
  {
    if order != [] { PinnedCountWithout(order[1..], pinned, x); }
  }

  lemma {:induction false} AllPinned(order: seq<int>, pinned: int)
    requires forall x :: x in order ==> x < pinned
    ensures PinnedCount(order, pinned) == |order|
  {
    if order != [] {
      assert order[0] in order && forall x :: x in order[1..] ==> x in order;
      AllPinned(order[1..], pinned);
    }
  }

  /** A full store declines a new chunk exactly when its pins alone fill it. */
  lemma {:induction false} DeclinesWhenPinsFillIt(order: seq<int>, c: Config)
    ensures MakeRoom(order, c).ok <==> PinnedCount(order, c.pinnedChunks) < c.maxChunks
    decreases |order|
  {
    var victim := FirstUnpinned(order, c.pinnedChunks);
    PinnedCountWithout(order, c.pinnedChunks, c.pinnedChunks);
    if |order| >= c.maxChunks {
      if victim.None? {
        AllPinned(order, c.pinnedChunks);
      } else {
        PinnedCountWithout(order, c.pinnedChunks, victim.value);
        DeclinesWhenPinsFillIt(Without(order, victim.value), c);
      }
    }
  }

  /** What the client's `get` or `put` returns once the worker has replied. */
  function ClientOutcome(reply: Reply): Outcome {
    match reply
    case GetReply(buffer, _) => if buffer then Buffer else Null
    case PutReply(ok, _) => if ok then Stored else Refused
  }

  /** The failures that leave the two stores with different orders:
      a wrong-sized chunk that cannot be deleted, a chunk whose bytes fail to arrive
      while it is not the newest, and a new chunk whose file cannot be opened for writing. */
  predicate OrdersPart(order: seq<int>, op: Op, c: Config) {
    match op
    case Get(index, read) =>
      index in order && (read == WrongSize(false) || (read.BodyFailed? && order[|order| - 1] != index))
    case Put(index, write) =>
      write.OpenFailed? && index !in order && PinnedCount(order, c.pinnedChunks) < c.maxChunks
  }

  /** The failures the page throws and the worker reports quietly: bytes that fail to arrive,
      and any failure to write a chunk there was room for. */
  predicate AnswersPart(order: seq<int>, op: Op, c: Config) {
    match op
    case Get(index, read) => read.BodyFailed?
    case Put(index, write) => !write.Written? && (index in order || PinnedCount(order, c.pinnedChunks) < c.maxChunks)
  }

  predicate Parts(order: seq<int>, op: Op, c: Config) { OrdersPart(order, op, c) || AnswersPart(order, op, c) }

  lemma {:induction false} TouchChangesUnlessNewest(order: seq<int>, x: int)
    requires Distinct(order) && x in order
    ensures Touched(order, x) == order <==> order[|order| - 1] == x
  {
    var last := |order| - 1;
    assert Touched(order, x)[|Touched(order, x)| - 1] == x;
    if order[last] == x {
      assert x !in order[..last];
      WithoutAppended(order[..last], x);
      assert order == order[..last] + [x];
    }
  }

  /** One operation, from the same order: always the same victims, the same order after exactly
      outside the first kind of failure, and the same answer to the caller exactly outside the second. */
  lemma {:induction false} StoresAgreeExactly(order: seq<int>, op: Op, c: Config)
    requires Distinct(order)
    ensures var page, worker := PageStep(order, op, c), WorkerStep(order, op, c);
            && page.victims == worker.victims
            && (page.order == worker.order <==> !OrdersPart(order, op, c))
            && (page.outcome == ClientOutcome(worker.reply) <==> !AnswersPart(order, op, c))
  {
    match op
    case Get(index, read) =>
      if index in order { TouchChangesUnlessNewest(order, index); }
    case Put(index, write) => PutsAgreeExactly(order, index, write, c);
  }

  lemma {:induction false} PutsAgreeExactly(order: seq<int>, index: int, write: Write, c: Config)
    requires Distinct(order)
    ensures var op, page, worker := Put(index, write), PagePut(order, index, write, c), WorkerPut(order, index, write, c);
            && page.victims == worker.victims
            && (page.order == worker.order <==> !OrdersPart(order, op, c))
            && (page.outcome == ClientOutcome(worker.reply) <==> !AnswersPart(order, op, c))
  {
    DeclinesWhenPinsFillIt(order, c);
    var placed := Without(RoomFor(order, index, c).order, index) + [index];
    assert placed[|placed| - 1] == index && index in placed;
    assert index !in Without(placed, index);
  }

  /** What a caller is told, operation by operation. */
  function PageAnswers(start: seq<int>, ops: seq<Op>, c: Config): seq<Outcome> {
    if ops == [] then []
    else
      var earlier, op := ops[..|ops| - 1], ops[|ops| - 1];
      PageAnswers(start, earlier, c) + [PageStep(PageRun(start, earlier, c), op, c).outcome]
  }

  function WorkerAnswers(start: seq<int>, ops: seq<Op>, c: Config): seq<Outcome> {
    if ops == [] then []
    else
      var earlier, op := ops[..|ops| - 1], ops[|ops| - 1];
      WorkerAnswers(start, earlier, c) + [ClientOutcome(WorkerStep(WorkerRun(start, earlier, c), op, c).reply)]
  }

  /** No operation of a history parts the stores, seen from the page's run. */
  predicate NeverParts(start: seq<int>, ops: seq<Op>, c: Config) {
    ops == [] ||
    (NeverParts(start, ops[..|ops| - 1], c) && !Parts(PageRun(start, ops[..|ops| - 1], c), ops[|ops| - 1], c))
  }

  /** The two runs leave the same order after every operation. */
  predicate SameOrders(start: seq<int>, ops: seq<Op>, c: Config) {
    PageRun(start, ops, c) == WorkerRun(start, ops, c) && (ops == [] || SameOrders(start, ops[..|ops| - 1], c))
  }

  /** A shared history goes the same way in both stores, in every recency order and every
      answer, exactly when none of its operations is one of those failures. */
  lemma {:induction false} RunsAgreeExactly(start: seq<int>, ops: seq<Op>, c: Config)
    requires Distinct(start)
    ensures NeverParts(start, ops, c) <==>
            SameOrders(start, ops, c) && PageAnswers(start, ops, c) == WorkerAnswers(start, ops, c)
    ensures |PageAnswers(start, ops, c)| == |WorkerAnswers(start, ops, c)| == |ops|
    decreases |ops|
  {
    if ops != [] {
      var earlier, op := ops[..|ops| - 1], ops[|ops| - 1];
      RunsAgreeExactly(start, earlier, c);
      RunStaysBounded(start, earlier, c);
      StoresAgreeExactly(PageRun(start, earlier, c), op, c);
      LastDiffers(PageAnswers(start, earlier, c), WorkerAnswers(start, earlier, c),
                  PageStep(PageRun(start, earlier, c), op, c).outcome,
                  ClientOutcome(WorkerStep(WorkerRun(start, earlier, c), op, c).reply));
    }
  }

  lemma LastDiffers(a: seq<Outcome>, b: seq<Outcome>, x: Outcome, y: Outcome)
    requires |a| == |b|
    ensures a + [x] == b + [y] <==> a == b && x == y
  {
    if a + [x] == b + [y] {
      assert a == (a + [x])[..|a|] && b == (b + [y])[..|b|];
      assert x == (a + [x])[|a|] && y == (b + [y])[|b|];
    }
  }

  /** Each kind of failure really parts the stores. */
  lemma StoresCanPart()
    ensures var c := Config(4, 0);
            && PageStep([7, 8], Get(7, WrongSize(false)), c).order == [7, 8]
            && WorkerStep([7, 8], Get(7, WrongSize(false)), c).order == [8]
            && PageStep([7, 8], Get(7, BodyFailed), c).order == [8, 7]
            && WorkerStep([7, 8], Get(7, BodyFailed), c).order == [7, 8]
            && PageStep([7, 8], Put(9, OpenFailed), c).order == [7, 8, 9]
            && WorkerStep([7, 8], Put(9, OpenFailed), c).order == [7, 8]
            && PageStep([7, 8], Put(8, WriteFailed), c).outcome == Threw
            && ClientOutcome(WorkerStep([7, 8], Put(8, WriteFailed), c).reply) == Refused
  {
    assert Without([7, 8], 7) == [8] && Without([7, 8], 9) == [7, 8];
    WithoutAppended([7, 8], 9);
  }
}
