/** What the stores answer and keep, outcome by outcome, and how warming ends early. */
module DiscOutcomes {
  import opened RecencyOrder
  import opened DiscStore
  import opened DiscLru
  import opened DiscAgreement
  import opened DiscMirror
  import opened DiscPrewarm
  import opened DiscWarming

  /** A get from the page's store: what it answers, what leaves, and what becomes newest. */
  lemma {:induction false} PageGetExactly(order: seq<int>, index: int, read: Read)
    requires Distinct(order)
    ensures var e := PageGet(order, index, read);
            && (e.outcome.Buffer? <==> read.Hit?) && (e.outcome.Threw? <==> read.BodyFailed?)
            && (e.outcome.Null? <==> read.WrongSize? || read.Unreadable?)
            && e.victims == [] && Distinct(e.order)
            && (forall x :: x in e.order <==> x in order && (x != index || read != WrongSize(true)))
            && (index in order && (read.Hit? || read.BodyFailed?) ==> e.order[|e.order| - 1] == index)
            && (index !in order || read == WrongSize(false) || read.Unreadable? ==> e.order == order)
  {
    DistinctWithout(order, index);
    DistinctAppend(Without(order, index), index);
  }

  /** There is room for a chunk that is stored already, or while pins do not fill the store. */
  predicate HasRoom(order: seq<int>, index: int, c: Config) {
    index in order || PinnedCount(order, c.pinnedChunks) < c.maxChunks
  }

  /** A put: refused exactly without room, stored exactly when written, and the newest then. */
  lemma {:induction false} PagePutExactly(order: seq<int>, index: int, write: Write, c: Config)
    requires Distinct(order)
    ensures var e := PagePut(order, index, write, c);
            && (e.outcome.Refused? <==> !HasRoom(order, index, c))
            && (e.outcome.Stored? <==> HasRoom(order, index, c) && write.Written?)
            && (e.outcome.Threw? <==> HasRoom(order, index, c) && !write.Written?)
            && (e.outcome.Stored? ==> e.order != [] && e.order[|e.order| - 1] == index)
            && (index in order ==> e.victims == [])
  {
    DeclinesWhenPinsFillIt(order, c);
  }

  /** The worker's replies: bytes exactly for a hit, removal exactly for a wrong size, success exactly
      for a chunk written, and the chunks evicted unless the write failed. */
  lemma {:induction false} WorkerRepliesExactly(order: seq<int>, index: int, read: Read, write: Write, c: Config)
    requires Distinct(order)
    ensures var got, put := WorkerGet(order, index, read), WorkerPut(order, index, write, c);
            && got.reply == GetReply(read.Hit?, read.WrongSize?)
            && (forall x :: x in got.order <==> x in order && (x != index || !read.WrongSize?))
            && (got.order != order ==> (read.Hit? || read.WrongSize?) && index in order)
            && (read.Hit? && index in order ==> got.order[|got.order| - 1] == index)
            && put.reply.PutReply? && (put.reply.ok <==> HasRoom(order, index, c) && write.Written?)
            && put.reply.evicted == (if HasRoom(order, index, c) && !write.Written? then [] else put.victims)
            && (put.reply.ok ==> put.order != [] && put.order[|put.order| - 1] == index)
  {
    DeclinesWhenPinsFillIt(order, c);
  }

  // The mirror's channels.

  function Indexes(requests: seq<Request>): seq<int> {
    if requests == [] then [] else Indexes(requests[..|requests| - 1]) + [requests[|requests| - 1].index]
  }

  function AnswerIndexes(replies: seq<Answer>): seq<int> {
    if replies == [] then [] else AnswerIndexes(replies[..|replies| - 1]) + [replies[|replies| - 1].index]
  }

  /** The chunks called for, in order, and those whose reply has been delivered. */
  function Called(events: seq<Event>): seq<int> {
    if events == [] then []
    else
      var e := events[|events| - 1];
      Called(events[..|events| - 1]) + if e.Call? then [e.request.index] else []
  }

  function Delivered(s: State, events: seq<Event>, c: Config): seq<int> {
    if events == [] then []
    else
      var before, e := Run(s, events[..|events| - 1], c), events[|events| - 1];
      Delivered(s, events[..|events| - 1], c) + if e.Deliver? && before.replies != [] then [before.replies[0].index] else []
  }

  lemma {:induction false} IndexesSplit(a: seq<Request>, b: seq<Request>)
    ensures Indexes(a + b) == Indexes(a) + Indexes(b)
  {
    if b == [] {
      assert a + b == a;
    } else {
      assert (a + b)[..|a + b| - 1] == a + b[..|b| - 1];
      IndexesSplit(a, b[..|b| - 1]);
    }
  }

  lemma {:induction false} AnswersSplit(a: seq<Answer>, b: seq<Answer>)
    ensures AnswerIndexes(a + b) == AnswerIndexes(a) + AnswerIndexes(b)
  {
    if b == [] {
      assert a + b == a;
    } else {
      assert (a + b)[..|a + b| - 1] == a + b[..|b| - 1];
      AnswersSplit(a, b[..|b| - 1]);
    }
  }

  lemma {:induction false} FirstServed(requests: seq<Request>)
    requires requests != []
    ensures Indexes(requests) == [requests[0].index] + Indexes(requests[1..])
  {
    assert [requests[0]][..0] == [];
    assert requests == [requests[0]] + requests[1..];
    IndexesSplit([requests[0]], requests[1..]);
  }

  lemma {:induction false} FirstDelivered(replies: seq<Answer>)
    requires replies != []
    ensures AnswerIndexes(replies) == [replies[0].index] + AnswerIndexes(replies[1..])
  {
    assert [replies[0]][..0] == [];
    assert replies == [replies[0]] + replies[1..];
    AnswersSplit([replies[0]], replies[1..]);
  }

  /** The chunks on their way: replies first, then requests. */
  function OnTheirWay(s: State): seq<int> { AnswerIndexes(s.replies) + Indexes(s.requests) }

  lemma {:induction false} CallJoins(s: State, request: Request, c: Config)
    ensures OnTheirWay(Step(s, Call(request), c)) == OnTheirWay(s) + [request.index]
  {
    IndexesSplit(s.requests, [request]);
    assert [request][..0] == [];
  }

  lemma {:induction false} WorkKeeps(s: State, read: Read, write: Write, c: Config)
    ensures OnTheirWay(Step(s, Work(read, write), c)) == OnTheirWay(s)
  {
    if s.requests != [] {
      FirstServed(s.requests);
      var answer := Serve(s.worker, s.requests[0], read, write, c).1;
      AnswersSplit(s.replies, [answer]);
      assert [answer][..0] == [];
    }
  }

  lemma {:induction false} DeliveryLeaves(s: State, c: Config)
    requires s.replies != []
    ensures [s.replies[0].index] + OnTheirWay(Step(s, Deliver, c)) == OnTheirWay(s)
  {
    FirstDelivered(s.replies);
  }

  /** Every call is answered once and in order: the chunks called for are those delivered, those
      on their way back and those still to be served, in that order. */
  lemma {:induction false} CallsAnsweredInOrder(onDisk: seq<int>, events: seq<Event>, c: Config)
    ensures Called(events) == Delivered(Open(onDisk), events, c) + OnTheirWay(Run(Open(onDisk), events, c))
  {
    if events != [] {
      var front, e := events[..|events| - 1], events[|events| - 1];
      var s, done := Run(Open(onDisk), front, c), Delivered(Open(onDisk), front, c);
      CallsAnsweredInOrder(onDisk, front, c);
      assert done + [] == done && Called(front) + [] == Called(front);
      match e
      case Call(request) =>
        CallJoins(s, request, c);
        assert done + OnTheirWay(s) + [request.index] == done + (OnTheirWay(s) + [request.index]);
      case Work(read, write) => WorkKeeps(s, read, write, c);
      case Deliver =>
        if s.replies != [] {
          DeliveryLeaves(s, c);
          var left := OnTheirWay(Step(s, Deliver, c));
          assert done + ([s.replies[0].index] + left) == done + [s.replies[0].index] + left;
        }
    }
  }

  // Plans, and warming that ends early.

  /** What a list of values keeps: its safe integers. */
  lemma {:induction false} KeptExactly(s: seq<Value>, x: int)
    ensures x in Kept(s) <==> Whole(x) in s && -9007199254740991 <= x <= 9007199254740991
  {
    if s != [] {
      KeptExactly(s[..|s| - 1], x);
      assert s == s[..|s| - 1] + [s[|s| - 1]];
    }
  }

  /** Where a chunk is first touched. */
  function FirstAt(s: seq<int>, x: int): (at: nat)
    ensures at <= |s| && (x in s ==> at < |s| && s[at] == x) && forall k :: 0 <= k < at ==> s[k] != x
  {
    if s == [] || s[0] == x then 0
    else
      assert s == [s[0]] + s[1..];
      1 + FirstAt(s[1..], x)
  }

  lemma {:induction false} FirstAtFront(s: seq<int>, x: int)
    requires s != [] && x in s[..|s| - 1]
    ensures FirstAt(s, x) == FirstAt(s[..|s| - 1], x)
  {
    var front := s[..|s| - 1];
    assert x in s by { assert front[FirstAt(front, x)] == s[FirstAt(front, x)]; }
    var a, b := FirstAt(s, x), FirstAt(front, x);
    assert s[b] == front[b] == x;
    assert a < |front| ==> front[a] == s[a];
  }

  /** First touches stand in the order of the touches. */
  lemma {:induction false} TouchesInOrder(s: seq<int>, i: nat, j: nat)
    requires i < j < |FirstTouches(s)|
    ensures FirstAt(s, FirstTouches(s)[i]) < FirstAt(s, FirstTouches(s)[j])
    decreases |s|
  {
    var front, x := s[..|s| - 1], s[|s| - 1];
    var earlier := FirstTouches(front);
    assert earlier[i] in earlier;
    FirstAtFront(s, earlier[i]);
    if j < |earlier| {
      TouchesInOrder(front, i, j);
      assert earlier[j] in earlier;
      FirstAtFront(s, earlier[j]);
    } else {
      assert s == front + [x];
      FirstAtLast(front, x);
      TouchedBefore(front, earlier[i]);
    }
  }

  lemma {:induction false} FirstAtLast(front: seq<int>, x: int)
    requires x !in front
    ensures FirstAt(front + [x], x) == |front|
  {
    if front != [] {
      assert (front + [x])[1..] == front[1..] + [x];
      FirstAtLast(front[1..], x);
    }
  }

  lemma {:induction false} TouchedBefore(front: seq<int>, y: int)
    requires y in front
    ensures FirstAt(front, y) < |front|
  {}

  /** A plan's two forms, chunk by chunk. */
  lemma {:induction false} PlanExactly(available: int, chunks: int, measured: seq<Value>, k: nat)
    ensures var usable, plan := FirstTouches(InRange(Kept(measured), available)), Plan(available, chunks, measured);
            && (usable != [] ==>
                  && |plan| == (if chunks <= 0 then 0 else if chunks < |usable| then chunks else |usable|)
                  && (k < |plan| ==> plan[k] == usable[k]))
            && (usable == [] ==>
                  && |plan| == (if chunks <= 0 || available <= 0 then 0 else if chunks < available then chunks else available)
                  && (k < |plan| ==> plan[k] == k))
  {
    UsableTouches(measured, available);
  }

  /** Warming goes no further than an abort, a failed fetch or a page store's failed write, and
      what came before is as if the plan had ended there. */
  lemma {:induction false} WarmingStopsThere(order: seq<int>, plan: seq<int>, fetches: seq<Fetch>, more: seq<int>,
                                             last: Fetch, others: seq<Fetch>, c: Config)
    requires |fetches| == |plan| && AllFetched(fetches) && more != [] && |others| + 1 == |more|
    ensures var whole, done := Warmed(order, plan + more, fetches + [last] + others, c), Warmed(order, plan, fetches, c);
            && (last.Aborted? ==> whole == done)
            && (last.FetchFailed? && more[0] !in done.0 ==> whole == done)
            && (last.Fetched? && !last.write.Written? && more[0] !in done.0 && PagePut(done.0, more[0], last.write, c).outcome.Threw?
                ==> whole == (PagePut(done.0, more[0], last.write, c).order, done.1))
    decreases |plan|
  {
    var all, every := plan + more, fetches + [last] + others;
    if plan == [] {
      assert all == more && every[0] == last;
    } else {
      assert all[0] == plan[0] && all[1..] == plan[1..] + more;
      assert every[0] == fetches[0] && every[1..] == fetches[1..] + [last] + others;
      var next := if plan[0] in order then order else PagePut(order, plan[0], Written, c).order;
      WarmingStopsThere(next, plan[1..], fetches[1..], more, last, others, c);
    }
  }

  /** The number reported is the number of puts, as the plan's own count has them. */
  lemma {:induction false} WarmedCountsPuts(order: seq<int>, plan: seq<int>, fetches: seq<Fetch>, c: Config)
    requires |fetches| == |plan| && AllFetched(fetches)
    ensures Warmed(order, plan, fetches, c).1 == TurnsPut(order, plan, c)
    decreases |plan|
  {
    if plan != [] { WarmedCountsPuts(WarmOne(order, plan[0], c), plan[1..], fetches[1..], c); }
  }

  /** How many chunks of a plan are not stored at their turn. */
  function TurnsPut(order: seq<int>, plan: seq<int>, c: Config): nat
    decreases |plan|
  {
    if plan == [] then 0
    else (if plan[0] in order then 0 else 1) + TurnsPut(WarmOne(order, plan[0], c), plan[1..], c)
  }
}
