/** Which chunks of a disc are fetched ahead of play, how a boot is measured, and what
    warming a store with that plan leaves in it. */
module DiscPrewarm {
  import opened RecencyOrder
  import opened DiscStore
  import opened DiscLru
  import opened DiscAgreement
  import opened DiscMirror

  const MAX_SAFE := 0x1F_FFFF_FFFF_FFFF

  /** An entry of a chunk list, or an index a core reports: anything JavaScript can hold. */
  datatype Value = Whole(n: int) | Other

  /** `Number.isSafeInteger`. */
  predicate Safe(v: Value) { v.Whole? && -MAX_SAFE <= v.n <= MAX_SAFE }

  function Kept(s: seq<Value>): (r: seq<int>)
    ensures |r| <= |s|
  {
    if s == [] then [] else Kept(s[..|s| - 1]) + if Safe(s[|s| - 1]) then [s[|s| - 1].n] else []
  }

  lemma {:induction false} KeptIsSafe(s: seq<Value>, k: nat)
    requires k < |Kept(s)|
    ensures Safe(Whole(Kept(s)[k]))
  {
    if k < |Kept(s[..|s| - 1])| { KeptIsSafe(s[..|s| - 1], k); }
  }

  function Wholes(s: seq<int>): (r: seq<Value>)
    ensures |r| == |s| && forall k :: 0 <= k < |s| ==> r[k] == Whole(s[k])
  {
    seq(|s|, k requires 0 <= k < |s| => Whole(s[k]))
  }

  lemma {:induction false} KeptSnoc(s: seq<Value>, v: Value)
    ensures Kept(s + [v]) == Kept(s) + if Safe(v) then [v.n] else []
  {
    assert (s + [v])[..|s|] == s;
  }

  lemma {:induction false} WholesAreKept(s: seq<int>)
    requires forall k :: 0 <= k < |s| ==> Safe(Whole(s[k]))
    ensures Kept(Wholes(s)) == s
  {
    if s != [] {
      var n := |s| - 1;
      WholesAreKept(s[..n]);
      assert Wholes(s)[..n] == Wholes(s[..n]);
      assert s[..n] + [s[n]] == s;
    }
  }

  /** First occurrences, in order: what a `Set` filled by iteration lists. */
  function FirstTouches(s: seq<int>): (r: seq<int>)
    ensures |r| <= |s| && forall x :: x in r <==> x in s
  {
    if s == [] then []
    else
      assert forall x :: x in s <==> x in s[..|s| - 1] || x == s[|s| - 1];
      var earlier := FirstTouches(s[..|s| - 1]);
      if s[|s| - 1] in earlier then earlier else earlier + [s[|s| - 1]]
  }

  function InRange(s: seq<int>, available: int): (r: seq<int>)
    ensures forall x :: x in r <==> x in s && 0 <= x < available
  {
    if s == [] then []
    else
      assert forall x :: x in s <==> x in s[..|s| - 1] || x == s[|s| - 1];
      InRange(s[..|s| - 1], available) + if 0 <= s[|s| - 1] < available then [s[|s| - 1]] else []
  }

  lemma OneMore(s: seq<int>, x: int, available: int)
    ensures InRange(s + [x], available) == InRange(s, available) + if 0 <= x < available then [x] else []
    ensures FirstTouches(s + [x]) == if x in FirstTouches(s) then FirstTouches(s) else FirstTouches(s) + [x]
    ensures FirstTouches(InRange(s + [x], available)) ==
            if 0 <= x < available && x !in FirstTouches(InRange(s, available))
            then FirstTouches(InRange(s, available)) + [x] else FirstTouches(InRange(s, available))
  {
    assert (s + [x])[..|s|] == s;
    var kept := InRange(s, available);
    assert (kept + [x])[..|kept|] == kept && kept + [] == kept;
  }

  function Prefix(s: seq<int>, budget: int): seq<int> {
    if budget <= 0 then [] else if budget < |s| then s[..budget] else s
  }

  function Opening(count: int): seq<int> {
    seq(if count < 0 then 0 else count, k => k)
  }

  /** The first touches of the disc's own chunks. */
  function Usable(measured: seq<Value>, available: int): seq<int> {
    if measured == [] then []
    else
      var seen, v := Usable(measured[..|measured| - 1], available), measured[|measured| - 1];
      if Safe(v) && 0 <= v.n < available && v.n !in seen then seen + [v.n] else seen
  }

  lemma {:induction false} UsableTouches(s: seq<Value>, available: int)
    ensures Usable(s, available) == FirstTouches(InRange(Kept(s), available))
  {
    if s != [] {
      var front, v := s[..|s| - 1], s[|s| - 1];
      UsableTouches(front, available);
      assert Kept(front) + [] == Kept(front);
      if Safe(v) { OneMore(Kept(front), v.n, available); }
    }
  }

  /** The plan, in terms of what it keeps of the measured list. */
  function Plan(available: int, chunks: int, measured: seq<Value>): seq<int> {
    var usable := Usable(measured, available);
    if usable != [] then Prefix(usable, chunks)
    else Opening(if chunks < available then chunks else available)
  }

  method BootChunkOrder(available: int, chunks: int, chunkList: seq<Value>) returns (order: seq<int>)
    ensures order == Plan(available, chunks, chunkList)
  {
    if |chunkList| != 0 {
      var seen := [];
      for k := 0 to |chunkList|
        invariant seen == Usable(chunkList[..k], available)
      {
        var value := chunkList[k];
        assert chunkList[..k + 1][..k] == chunkList[..k];
        if Safe(value) && value.n >= 0 && value.n < available && value.n !in seen { seen := seen + [value.n]; }
      }
      assert chunkList[..|chunkList|] == chunkList;
      if |seen| != 0 {
        var budget := if chunks < 0 then 0 else chunks;
        return seen[..if budget < |seen| then budget else |seen|];
      }
    }
    var count := if chunks < available then chunks else available;
    order := seq(if count < 0 then 0 else count, k => k);
  }

  lemma {:induction false} FirstTouchesDistinct(s: seq<int>)
    ensures Distinct(FirstTouches(s))
  {
    if s != [] { FirstTouchesDistinct(s[..|s| - 1]); }
  }

  lemma {:induction false} DistinctIsItsFirstTouches(s: seq<int>)
    requires Distinct(s)
    ensures FirstTouches(s) == s
  {
    if s != [] {
      DistinctIsItsFirstTouches(s[..|s| - 1]);
      assert s[|s| - 1] !in s[..|s| - 1];
      assert s[..|s| - 1] + [s[|s| - 1]] == s;
    }
  }

  lemma {:induction false} AllInRange(s: seq<int>, available: int)
    requires forall k :: 0 <= k < |s| ==> 0 <= s[k] < available
    ensures InRange(s, available) == s
  {
    if s != [] {
      AllInRange(s[..|s| - 1], available);
      assert s[..|s| - 1] + [s[|s| - 1]] == s;
    }
  }

  /** No plan repeats a chunk, leaves the disc or exceeds its budget. */
  lemma PlanIsSound(available: int, chunks: int, measured: seq<Value>)
    ensures var plan := Plan(available, chunks, measured);
            && Distinct(plan)
            && (forall x :: x in plan ==> 0 <= x < available)
            && |plan| <= (if chunks < 0 then 0 else chunks)
  {
    var usable := Usable(measured, available);
    UsableTouches(measured, available);
    FirstTouchesDistinct(InRange(Kept(measured), available));
    assert forall x :: x in Prefix(usable, chunks) ==> x in usable;
  }

  /** Records first touches until its list is full. */
  class BootChunkRecorder {
    var order: seq<int>
    const limit: int
    ghost var history: seq<Value>

    ghost predicate Valid()
      reads this
    {
      order == Recorded(history, limit)
    }

    constructor (limit: int)
      ensures Valid() && history == [] && this.limit == limit
    {
      order, history := [], [];
      this.limit := limit;
    }

    method Record(index: Value)
      requires Valid()
      modifies this`order, this`history
      ensures Valid() && history == old(history) + [index]
    {
      RecordedSnoc(history, index, limit);
      history := history + [index];
      if !Safe(index) || index.n in order || |order| >= limit { return; }
      order := order + [index.n];
    }
  }

  /** What a recorder holds after a history of reads. */
  function Recorded(history: seq<Value>, limit: int): seq<int> {
    Prefix(FirstTouches(Kept(history)), limit)
  }

  lemma {:induction false} RecordedSnoc(history: seq<Value>, v: Value, limit: int)
    ensures var order := Recorded(history, limit);
            Recorded(history + [v], limit) == if !Safe(v) || v.n in order || |order| >= limit then order else order + [v.n]
  {
    var kept := Kept(history);
    KeptSnoc(history, v);
    assert kept + [] == kept;
    if Safe(v) {
      OneMore(kept, v.n, 0);
      PrefixSnoc(FirstTouches(kept), v.n, limit);
    }
  }

  lemma PrefixSnoc(s: seq<int>, x: int, limit: int)
    ensures Prefix(s + [x], limit) == if |Prefix(s, limit)| >= limit then Prefix(s, limit) else s + [x]
    ensures |Prefix(s, limit)| < limit ==> Prefix(s, limit) == s
  {}

  lemma {:induction false} InRangeSplit(a: seq<int>, b: seq<int>, available: int)
    ensures InRange(a + b, available) == InRange(a, available) + InRange(b, available)
  {
    if b == [] {
      assert a + b == a;
    } else {
      assert (a + b)[..|a + b| - 1] == a + b[..|b| - 1];
      InRangeSplit(a, b[..|b| - 1], available);
    }
  }

  lemma {:induction false} TouchesInRange(s: seq<int>, available: int)
    ensures FirstTouches(InRange(s, available)) == InRange(FirstTouches(s), available)
  {
    if s != [] {
      var n := |s| - 1;
      assert s[..n] + [s[n]] == s;
      TouchesInRange(s[..n], available);
      OneMore(s[..n], s[n], available);
      OneMore(FirstTouches(s[..n]), s[n], available);
    }
  }

  /** The chunks of the disc a recording holds are the first of those the boot touched. */
  lemma {:induction false} RecordedOnDisc(history: seq<Value>, limit: int, available: int) returns (left: seq<int>)
    ensures var all, held := InRange(FirstTouches(Kept(history)), available), InRange(Recorded(history, limit), available);
            all == held + left && FirstTouches(held) == held
  {
    var touches, recorded := FirstTouches(Kept(history)), Recorded(history, limit);
    left := InRange(touches[|recorded|..], available);
    assert touches == recorded + touches[|recorded|..];
    InRangeSplit(recorded, touches[|recorded|..], available);
    FirstTouchesDistinct(Kept(history));
    DistinctIsItsFirstTouches(recorded);
    TouchesInRange(recorded, available);
  }

  lemma {:induction false} RecordedIsKept(history: seq<Value>, limit: int)
    ensures Kept(Wholes(Recorded(history, limit))) == Recorded(history, limit)
  {
    var recorded := Recorded(history, limit);
    forall k | 0 <= k < |recorded| ensures Safe(Whole(recorded[k])) {
      assert recorded[k] in FirstTouches(Kept(history));
      var i :| 0 <= i < |Kept(history)| && Kept(history)[i] == recorded[k];
      KeptIsSafe(history, i);
    }
    WholesAreKept(recorded);
  }

  /** A plan built from a recorded boot is the plan its raw reads give exactly when the
      recording kept all the disc's chunks the boot touched, or as many as are budgeted, or
      kept none and the boot's first touches happen to be the opening chunks warmed instead. */
  lemma {:induction false} RecordedBootIsReplayed(history: seq<Value>, limit: int, available: int, chunks: int)
    ensures var all, held := InRange(FirstTouches(Kept(history)), available), InRange(Recorded(history, limit), available);
            Plan(available, chunks, Wholes(Recorded(history, limit))) == Plan(available, chunks, history) <==>
              || |held| == |all|
              || chunks <= |held|
              || (held == [] && Prefix(all, chunks) == Opening(if chunks < available then chunks else available))
  {
    var left := RecordedOnDisc(history, limit, available);
    RecordedIsKept(history, limit);
    UsableTouches(history, available);
    UsableTouches(Wholes(Recorded(history, limit)), available);
    TouchesInRange(Kept(history), available);
    PrefixesAgree(InRange(Recorded(history, limit), available), left, chunks);
  }

  lemma PrefixesAgree(held: seq<int>, left: seq<int>, chunks: int)
    ensures Prefix(held, chunks) == Prefix(held + left, chunks) <==> left == [] || chunks <= |held|
    ensures left == [] ==> held + left == held
  {
    if left != [] && chunks > |held| { assert |Prefix(held + left, chunks)| > |held|; }
  }

  /** A boot that stays on the disc is replayed by any budget within the recorder's limit. */
  lemma {:induction false} MeasuredBootIsReplayed(history: seq<Value>, limit: int, available: int, chunks: int)
    requires chunks <= limit
    requires forall k :: 0 <= k < |history| ==> Safe(history[k]) && 0 <= history[k].n < available
    ensures Plan(available, chunks, Wholes(Recorded(history, limit))) == Plan(available, chunks, history)
    ensures history != [] ==> Plan(available, chunks, history) == Prefix(FirstTouches(Kept(history)), chunks)
  {
    var touches := FirstTouches(Kept(history));
    TouchesOnDisc(history, available);
    AllInRange(touches, available);
    AllInRange(Recorded(history, limit), available);
    RecordedBootIsReplayed(history, limit, available, chunks);
    UsableTouches(history, available);
    TouchesInRange(Kept(history), available);
  }

  lemma {:induction false} TouchesOnDisc(history: seq<Value>, available: int)
    requires forall k :: 0 <= k < |history| ==> Safe(history[k]) && 0 <= history[k].n < available
    ensures var touches := FirstTouches(Kept(history));
            (forall k :: 0 <= k < |touches| ==> 0 <= touches[k] < available) && (history != [] ==> touches != [])
  {
    var touches := FirstTouches(Kept(history));
    KeptOnDisc(history, available);
    forall k | 0 <= k < |touches| ensures 0 <= touches[k] < available {
      assert touches[k] in touches;
      assert touches[k] in Kept(history);
    }
    if history != [] { assert Kept(history)[0] in touches; }
  }

  lemma {:induction false} KeptOnDisc(history: seq<Value>, available: int)
    requires forall k :: 0 <= k < |history| ==> Safe(history[k]) && 0 <= history[k].n < available
    ensures |Kept(history)| == |history|
    ensures forall k :: 0 <= k < |history| ==> 0 <= Kept(history)[k] < available
  {
    if history != [] { KeptOnDisc(history[..|history| - 1], available); }
  }

  datatype Fetch = Fetched(write: Write) | FetchFailed | Aborted

  /** Warming a store with a plan: the order it leaves, and the number it claims to have warmed. */
  function Warmed(order: seq<int>, plan: seq<int>, fetches: seq<Fetch>, c: Config): (seq<int>, nat)
    requires |fetches| == |plan|
    decreases |plan|
  {
    if plan == [] || fetches[0].Aborted? then (order, 0)
    else if plan[0] in order then Warmed(order, plan[1..], fetches[1..], c)
    else if fetches[0].FetchFailed? then (order, 0)
    else
      var e := PagePut(order, plan[0], fetches[0].write, c);
      if e.outcome.Threw? then (e.order, 0)
      else
        var rest := Warmed(e.order, plan[1..], fetches[1..], c);
        (rest.0, 1 + rest.1)
  }

  lemma FirstOfRest<T>(s: seq<T>, k: nat)
    requires k < |s|
    ensures s[k..][0] == s[k] && s[k..][1..] == s[k + 1..]
  {}

  method PrewarmDiscRanges(cache: PageStore, wanted: seq<int>, fetches: seq<Fetch>) returns (warmed: nat)
    requires |fetches| == |wanted|
    modifies cache`stored
    ensures (cache.stored, warmed) == Warmed(old(cache.stored), wanted, fetches, cache.config)
  {
    warmed := 0;
    for k := 0 to |wanted|
      invariant var (all, left) := (Warmed(old(cache.stored), wanted, fetches, cache.config),
                                    Warmed(cache.stored, wanted[k..], fetches[k..], cache.config));
                all == (left.0, warmed + left.1)
    {
      FirstOfRest(wanted, k);
      FirstOfRest(fetches, k);
      if fetches[k].Aborted? { return; }
      if wanted[k] in cache.stored { continue; }
      if fetches[k].FetchFailed? { return; }
      var outcome, _ := cache.PutChunk(wanted[k], fetches[k].write);
      if outcome.Threw? { return; }
      warmed := warmed + 1;
    }
  }

  /** The same over the worker's store, which the page sees through its mirror. */
  function WorkerWarmed(order: seq<int>, mirror: set<int>, plan: seq<int>, fetches: seq<Fetch>, c: Config)
    : (seq<int>, set<int>, nat)
    requires |fetches| == |plan|
    decreases |plan|
  {
    if plan == [] || fetches[0].Aborted? then (order, mirror, 0)
    else if plan[0] in mirror then WorkerWarmed(order, mirror, plan[1..], fetches[1..], c)
    else if fetches[0].FetchFailed? then (order, mirror, 0)
    else
      var e := WorkerPut(order, plan[0], fetches[0].write, c);
      var rest := WorkerWarmed(e.order, MirrorAfter(mirror, plan[0], e.reply), plan[1..], fetches[1..], c);
      (rest.0, rest.1, 1 + rest.2)
  }

  /** The client's `put`: a message to the worker, and the mirror moved by its reply. */
  method PutThroughWorker(cache: WorkerStore, mirror: ClientMirror, index: int, write: Write) returns (ok: bool)
    modifies cache`stored, mirror`stored
    ensures var e := WorkerPut(old(cache.stored), index, write, cache.config);
            && cache.stored == e.order && mirror.stored == MirrorAfter(old(mirror.stored), index, e.reply)
            && ok == e.reply.ok
  {
    var reply, _ := cache.PutChunk(index, write);
    ok := mirror.PutResolved(index, reply);
  }

  method PrewarmThroughWorker(cache: WorkerStore, mirror: ClientMirror, wanted: seq<int>, fetches: seq<Fetch>)
    returns (warmed: nat)
    requires |fetches| == |wanted|
    modifies cache`stored, mirror`stored
    ensures (cache.stored, mirror.stored, warmed)
            == WorkerWarmed(old(cache.stored), old(mirror.stored), wanted, fetches, cache.config)
  {
    warmed := 0;
    ghost var whole := WorkerWarmed(cache.stored, mirror.stored, wanted, fetches, cache.config);
    assert wanted[0..] == wanted && fetches[0..] == fetches;
    for k := 0 to |wanted|
      invariant Continues(whole, cache.stored, mirror.stored, wanted[k..], fetches[k..], warmed, cache.config)
    {
      FirstOfRest(wanted, k);
      FirstOfRest(fetches, k);
      ContinuesTo(whole, cache.stored, mirror.stored, wanted[k..], fetches[k..], warmed, cache.config);
      if fetches[k].Aborted? { return; }
      if wanted[k] in mirror.stored { continue; }
      if fetches[k].FetchFailed? { return; }
      ContinuesPut(whole, cache.stored, mirror.stored, wanted[k..], fetches[k..], warmed, cache.config);
      var _ := PutThroughWorker(cache, mirror, wanted[k], fetches[k].write);
      warmed := warmed + 1;
    }
  }

  /** What is left to warm completes the whole. */
  ghost predicate Continues(whole: (seq<int>, set<int>, nat), order: seq<int>, mirror: set<int>,
                            plan: seq<int>, fetches: seq<Fetch>, warmed: nat, c: Config)
    requires |fetches| == |plan|
  {
    var left := WorkerWarmed(order, mirror, plan, fetches, c);
    whole == (left.0, left.1, warmed + left.2)
  }

  lemma {:induction false} ContinuesTo(whole: (seq<int>, set<int>, nat), order: seq<int>, mirror: set<int>,
                                       plan: seq<int>, fetches: seq<Fetch>, warmed: nat, c: Config)
    requires |fetches| == |plan| && plan != [] && Continues(whole, order, mirror, plan, fetches, warmed, c)
    ensures fetches[0].Aborted? || (plan[0] !in mirror && fetches[0].FetchFailed?) ==> whole == (order, mirror, warmed)
    ensures !fetches[0].Aborted? && plan[0] in mirror ==>
              Continues(whole, order, mirror, plan[1..], fetches[1..], warmed, c)
  {}

  lemma {:induction false} ContinuesPut(whole: (seq<int>, set<int>, nat), order: seq<int>, mirror: set<int>,
                                        plan: seq<int>, fetches: seq<Fetch>, warmed: nat, c: Config)
    requires |fetches| == |plan| && plan != [] && plan[0] !in mirror && fetches[0].Fetched?
    requires Continues(whole, order, mirror, plan, fetches, warmed, c)
    ensures var e := WorkerPut(order, plan[0], fetches[0].write, c);
            Continues(whole, e.order, MirrorAfter(mirror, plan[0], e.reply), plan[1..], fetches[1..], warmed + 1, c)
  {}

  /** While no write fails, a plan inside the pinned region is warmed alike through the worker:
      same chunks, same count, whatever fetch fails or is aborted. */
  lemma {:induction false} PinnedPlansWarmAlike(order: seq<int>, mirror: set<int>, plan: seq<int>, fetches: seq<Fetch>, c: Config)
    requires Distinct(order) && |fetches| == |plan|
    requires forall k :: 0 <= k < |plan| ==> plan[k] < c.pinnedChunks && (plan[k] in mirror <==> plan[k] in order)
    requires forall k :: 0 <= k < |fetches| ==> fetches[k].Fetched? ==> fetches[k].write.Written?
    ensures var page, worker := Warmed(order, plan, fetches, c), WorkerWarmed(order, mirror, plan, fetches, c);
            worker.0 == page.0 && worker.2 == page.1
    decreases |plan|
  {
    if plan != [] && !fetches[0].Aborted? {
      if plan[0] in order {
        PinnedPlansWarmAlike(order, mirror, plan[1..], fetches[1..], c);
      } else if fetches[0].Fetched? {
        var e, w := PagePut(order, plan[0], Written, c), WorkerPut(order, plan[0], Written, c);
        var after := MirrorAfter(mirror, plan[0], w.reply);
        PutContents(order, plan[0], Written, c);
        forall k | 0 <= k < |plan| ensures plan[k] in after <==> plan[k] in e.order {
          MirrorOfPut(order, mirror, plan[0], plan[k], c);
        }
        PinnedPlansWarmAlike(e.order, after, plan[1..], fetches[1..], c);
      }
    }
  }

  lemma MirrorOfPut(order: seq<int>, mirror: set<int>, index: int, y: int, c: Config)
    requires Distinct(order) && y < c.pinnedChunks && index !in order && index !in mirror
    requires y in mirror <==> y in order
    ensures y in MirrorAfter(mirror, index, WorkerPut(order, index, Written, c).reply)
            <==> y in PagePut(order, index, Written, c).order
  {
    PutContents(order, index, Written, c);
  }

  /** A write that fails parts them: over the page's store warming stops, through the worker it
      goes on and counts the chunk it did not store. */
  lemma FailedWritePartsWarming()
    ensures var plan, fetches, c := [0, 1], [Fetched(WriteFailed), Fetched(Written)], Config(4, 2);
            Warmed([], plan, fetches, c) == ([], 0) && WorkerWarmed([], {}, plan, fetches, c) == ([1], {1}, 2)
  {
    var plan, fetches, c := [0, 1], [Fetched(WriteFailed), Fetched(Written)], Config(4, 2);
    assert Without([0], 0) == [] && Without([], 0) == [] && Without([], 1) == [];
    assert WorkerPut([], 0, WriteFailed, c) == WorkerEffect([], [], PutReply(false, []));
    assert WorkerPut([], 1, Written, c) == WorkerEffect([1], [], PutReply(true, []));
    assert plan[1..] == [1] && fetches[1..] == [Fetched(Written)];
    assert plan[1..][1..] == [] && fetches[1..][1..] == [];
    assert MirrorAfter({}, 1, PutReply(true, [])) == {1};
    assert WorkerWarmed([], {}, [1], [Fetched(Written)], c) == ([1], {1}, 1);
  }

  function Missing(plan: seq<int>, order: seq<int>): seq<int> {
    if plan == [] then []
    else (if plan[0] in order then [] else [plan[0]]) + Missing(plan[1..], order)
  }

  lemma {:induction false} MissingAfterPut(plan: seq<int>, order: seq<int>, after: seq<int>)
    requires forall k :: 0 <= k < |plan| ==> (plan[k] in order <==> plan[k] in after)
    ensures Missing(plan, order) == Missing(plan, after)
  {
    if plan != [] {
      MissingAfterPut(plan[1..], order, after);
    }
  }

  lemma {:induction false} PinnedCountOf(order: seq<int>, pinned: int, x: int)
    requires x < pinned && x !in order
    ensures PinnedCount(order + [x], pinned) == PinnedCount(order, pinned) + 1
  {
    if order != [] {
      assert (order + [x])[1..] == order[1..] + [x];
      PinnedCountOf(order[1..], pinned, x);
    } else {
      assert [x][1..] == [];
    }
  }

  lemma {:induction false} PinnedCountAfterRoom(order: seq<int>, c: Config)
    ensures PinnedCount(MakeRoom(order, c).order, c.pinnedChunks) == PinnedCount(order, c.pinnedChunks)
    decreases |order|
  {
    var victim := FirstUnpinned(order, c.pinnedChunks);
    if |order| >= c.maxChunks && victim.Some? {
      PinnedCountWithout(order, c.pinnedChunks, victim.value);
      PinnedCountAfterRoom(Without(order, victim.value), c);
    }
  }

  ghost predicate AllFetched(fetches: seq<Fetch>) {
    forall k :: 0 <= k < |fetches| ==> fetches[k] == Fetched(Written)
  }

  /** A new pinned chunk goes in exactly when the pins leave it room, and no pinned chunk leaves. */
  lemma PinnedPut(order: seq<int>, x: int, c: Config)
    requires Distinct(order) && x !in order && x < c.pinnedChunks
    ensures var e := PagePut(order, x, Written, c);
            && Distinct(e.order) && !e.outcome.Threw?
            && (e.outcome.Stored? <==> PinnedCount(order, c.pinnedChunks) < c.maxChunks)
            && (x in e.order <==> e.outcome.Stored?)
            && (forall y :: y < c.pinnedChunks && y != x ==> (y in e.order <==> y in order))
            && PinnedCount(e.order, c.pinnedChunks)
               == PinnedCount(order, c.pinnedChunks) + (if e.outcome.Stored? then 1 else 0)
  {
    PutContents(order, x, Written, c);
    DeclinesWhenPinsFillIt(order, c);
    PinnedCountAfterRoom(order, c);
    var room := MakeRoom(order, c);
    MakeRoomCounts(order, c);
    if room.ok { PinnedCountOf(room.order, c.pinnedChunks, x); }
  }

  ghost predicate Holds(order: seq<int>, plan: seq<int>) {
    forall k :: 0 <= k < |plan| ==> plan[k] in order
  }

  lemma {:induction false} FirstOfPlan(plan: seq<int>, final: seq<int>)
    requires Distinct(plan) && plan != []
    ensures var x, rest := plan[0], plan[1..];
            && Distinct(rest) && x !in rest && (forall y :: y in plan <==> y == x || y in rest)
            && (forall k :: 0 <= k < |rest| ==> rest[k] == plan[k + 1])
            && (Holds(final, plan) <==> x in final && Holds(final, rest))
  {
    var x, rest := plan[0], plan[1..];
    assert plan == [x] + rest;
    assert forall k :: 0 <= k < |rest| ==> rest[k] == plan[k + 1];
  }

  /** A plan inside the pinned region ends wholly in the store exactly when the pins already
      there and the missing part of the plan fit its capacity together. */
  lemma {:induction false} PinnedPlanIsWarmedExactly(order: seq<int>, plan: seq<int>, fetches: seq<Fetch>, c: Config)
    requires Distinct(order) && Distinct(plan) && |fetches| == |plan| && AllFetched(fetches)
    requires forall k :: 0 <= k < |plan| ==> plan[k] < c.pinnedChunks
    ensures var final := Warmed(order, plan, fetches, c).0;
            && (forall y :: y < c.pinnedChunks && y !in plan ==> (y in final <==> y in order))
            && (Holds(final, plan) <==>
                Missing(plan, order) == []
                || PinnedCount(order, c.pinnedChunks) + |Missing(plan, order)| <= c.maxChunks)
    decreases |plan|
  {
    if plan != [] {
      var x, rest := plan[0], plan[1..];
      FirstOfPlan(plan, Warmed(order, plan, fetches, c).0);
      if x in order {
        PinnedPlanIsWarmedExactly(order, rest, fetches[1..], c);
      } else {
        PinnedPut(order, x, c);
        var e := PagePut(order, x, Written, c);
        MissingAfterPut(rest, order, e.order);
        PinnedPlanIsWarmedExactly(e.order, rest, fetches[1..], c);
      }
    }
  }

  /** The default plan, the disc's opening chunks, is always warmed whole
      by a store with room for as many chunks as it pins. */
  lemma OpeningPlanIsWarmed(order: seq<int>, available: int, c: Config, fetches: seq<Fetch>)
    requires Distinct(order) && (forall x :: x in order ==> x >= 0) && c.pinnedChunks <= c.maxChunks
    requires |fetches| == |Plan(available, c.pinnedChunks, [])| && AllFetched(fetches)
    ensures forall x :: 0 <= x < c.pinnedChunks && x < available ==>
              x in Warmed(order, Plan(available, c.pinnedChunks, []), fetches, c).0
  {
    var plan := Plan(available, c.pinnedChunks, []);
    PlanIsSound(available, c.pinnedChunks, []);
    PinnedPlanIsWarmedExactly(order, plan, fetches, c);
    if c.pinnedChunks >= 0 { PinnedRegionBound(order, plan, c.pinnedChunks); }
    forall x | 0 <= x < c.pinnedChunks && x < available ensures x in Warmed(order, plan, fetches, c).0 {
      assert plan[x] == x;
    }
  }

  function Below(pinned: nat): (r: set<int>)
    ensures |r| == pinned && forall x :: x in r <==> 0 <= x < pinned
  {
    if pinned == 0 then {} else Below(pinned - 1) + {pinned - 1}
  }

  /** Pins held and pins missing are different indices below the pin line. */
  lemma PinnedRegionBound(order: seq<int>, plan: seq<int>, pinned: nat)
    requires Distinct(order) && (forall x :: x in order ==> x >= 0)
    requires Distinct(plan) && (forall x :: x in plan ==> 0 <= x < pinned)
    ensures Missing(plan, order) == [] || PinnedCount(order, pinned) + |Missing(plan, order)| <= pinned
  {
    var held := PinnedMembers(order, pinned);
    var wanted := MissingMembers(plan, order);
    if Missing(plan, order) != [] {
      forall x ensures !(x in held && x in wanted) {}
      forall x | x in held + wanted ensures x in Below(pinned) {}
      Fits(held + wanted, Below(pinned));
    }
  }

  lemma {:induction false} Fits<T>(a: set<T>, b: set<T>)
    requires a <= b
    ensures |a| <= |b|
  {
    if a != {} {
      var x :| x in a;
      Fits(a - {x}, b - {x});
    }
  }

  lemma {:induction false} PinnedMembers(order: seq<int>, pinned: int) returns (held: set<int>)
    requires Distinct(order)
    ensures |held| == PinnedCount(order, pinned) && forall x :: x in held <==> x in order && x < pinned
  {
    held := {};
    if order != [] {
      assert forall k :: 0 <= k < |order[1..]| ==> order[1..][k] == order[k + 1];
      assert order == [order[0]] + order[1..] && order[0] !in order[1..];
      held := PinnedMembers(order[1..], pinned);
      if order[0] < pinned { held := held + {order[0]}; }
    }
  }

  lemma {:induction false} MissingMembers(plan: seq<int>, order: seq<int>) returns (wanted: set<int>)
    requires Distinct(plan)
    ensures |wanted| == |Missing(plan, order)| && forall x :: x in wanted <==> x in plan && x !in order
  {
    wanted := {};
    if plan != [] {
      assert forall k :: 0 <= k < |plan[1..]| ==> plan[1..][k] == plan[k + 1];
      assert plan == [plan[0]] + plan[1..] && plan[0] !in plan[1..];
      wanted := MissingMembers(plan[1..], order);
      if plan[0] !in order { wanted := wanted + {plan[0]}; }
    }
  }
}
