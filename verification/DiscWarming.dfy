/** Warming a store with any plan, exactly: a measured plan's chunks lie anywhere on the disc,
    and warming skips the stored ones without making them any newer. */
module DiscWarming {
  import opened Wrappers
  import opened RecencyOrder
  import opened DiscStore
  import opened DiscLru
  import opened DiscAgreement
  import opened DiscPrewarm

  /** The chunks eviction may take, coldest first. */
  function Unpinned(order: seq<int>, pinned: int): seq<int> {
    if order == [] then []
    else (if order[0] < pinned then [] else [order[0]]) + Unpinned(order[1..], pinned)
  }

  /** The place of a chunk among others, their number when it is not there. */
  function Place(s: seq<int>, x: int): (at: nat)
    ensures at <= |s| && (at < |s| ==> s[at] == x)
  {
    if s == [] || s[0] == x then 0 else 1 + Place(s[1..], x)
  }

  /** How many chunks have been evicted after `puts` new ones, the first of which makes up for a
      store above its capacity at open. */
  function Gone(puts: nat, size: nat, c: Config): nat {
    if puts == 0 || size + puts <= c.maxChunks then 0 else size + puts - c.maxChunks
  }

  /** At a turn with `puts` new chunks before it, a chunk is passed over when it is stored and not evicted yet. */
  predicate Passed(order: seq<int>, x: int, puts: nat, c: Config) {
    x in order && (x < c.pinnedChunks || Place(Unpinned(order, c.pinnedChunks), x) >= Gone(puts, |order|, c))
  }

  /** How many chunks of a plan are put: those not passed over at their turn. */
  function Puts(order: seq<int>, plan: seq<int>, c: Config): (n: nat)
    ensures n <= |plan|
  {
    if plan == [] then 0
    else
      var n := Puts(order, plan[..|plan| - 1], c);
      if Passed(order, plan[|plan| - 1], n, c) then n else n + 1
  }

  /** The condition: evictions stop short of the coldest chunk passed over, and of the chunks put. */
  ghost predicate Spared(order: seq<int>, plan: seq<int>, c: Config) {
    var gone := Gone(Puts(order, plan, c), |order|, c);
    && gone <= |Unpinned(order, c.pinnedChunks)|
    && forall k :: 0 <= k < |plan| && plan[k] >= c.pinnedChunks && Passed(order, plan[k], Puts(order, plan[..k], c), c) ==>
         Place(Unpinned(order, c.pinnedChunks), plan[k]) >= gone
  }

  function WarmOne(order: seq<int>, x: int, c: Config): seq<int> {
    if x in order then order else PagePut(order, x, Written, c).order
  }

  function WarmAll(order: seq<int>, plan: seq<int>, c: Config): seq<int> {
    if plan == [] then order else WarmOne(WarmAll(order, plan[..|plan| - 1], c), plan[|plan| - 1], c)
  }

  lemma {:induction false} WarmFirst(order: seq<int>, plan: seq<int>, c: Config)
    requires plan != []
    ensures WarmAll(order, plan, c) == WarmAll(WarmOne(order, plan[0], c), plan[1..], c)
    decreases |plan|
  {
    if |plan| > 1 {
      WarmFirst(order, plan[..|plan| - 1], c);
      assert plan[..|plan| - 1][1..] == plan[1..][..|plan| - 2];
    } else {
      assert plan[..0] == [] && plan[1..] == [];
    }
  }

  lemma {:induction false} WarmedIsWarmAll(order: seq<int>, plan: seq<int>, fetches: seq<Fetch>, c: Config)
    requires |fetches| == |plan| && AllFetched(fetches)
    ensures Warmed(order, plan, fetches, c).0 == WarmAll(order, plan, c)
    decreases |plan|
  {
    if plan != [] {
      WarmFirst(order, plan, c);
      WarmedIsWarmAll(WarmOne(order, plan[0], c), plan[1..], fetches[1..], c);
    }
  }

  // What the unpinned chunks are.

  lemma {:induction false} UnpinnedMember(order: seq<int>, pinned: int, x: int)
    ensures x in Unpinned(order, pinned) <==> x in order && x >= pinned
  {
    if order != [] {
      UnpinnedMember(order[1..], pinned, x);
      assert order == [order[0]] + order[1..];
    }
  }

  lemma {:induction false} UnpinnedDistinct(order: seq<int>, pinned: int)
    requires Distinct(order)
    ensures Distinct(Unpinned(order, pinned))
  {
    if order != [] {
      var x, rest := order[0], order[1..];
      assert forall k :: 0 <= k < |rest| ==> rest[k] == order[k + 1];
      UnpinnedDistinct(rest, pinned);
      UnpinnedMember(rest, pinned, x);
      assert x !in rest;
    }
  }

  lemma {:induction false} UnpinnedCount(order: seq<int>, pinned: int)
    ensures |order| == PinnedCount(order, pinned) + |Unpinned(order, pinned)|
  {
    if order != [] { UnpinnedCount(order[1..], pinned); }
  }

  lemma {:induction false} UnpinnedAppend(order: seq<int>, pinned: int, x: int)
    ensures Unpinned(order + [x], pinned) == Unpinned(order, pinned) + if x < pinned then [] else [x]
  {
    if order == [] {
      assert order + [x] == [x] && [x][1..] == [];
    } else {
      var first := if order[0] < pinned then [] else [order[0]];
      assert (order + [x])[1..] == order[1..] + [x];
      UnpinnedAppend(order[1..], pinned, x);
      assert Unpinned(order + [x], pinned) == first + Unpinned(order[1..] + [x], pinned);
    }
  }

  /** The next victim is the first of them, and the others stay in order. */
  lemma {:induction false} VictimIsFirst(order: seq<int>, pinned: int)
    requires Distinct(order)
    ensures var unpinned, victim := Unpinned(order, pinned), FirstUnpinned(order, pinned);
            && (victim.None? <==> unpinned == [])
            && (victim.Some? ==> victim.value == unpinned[0] && Unpinned(Without(order, victim.value), pinned) == unpinned[1..])
  {
    if order != [] {
      var x, rest := order[0], order[1..];
      assert forall k :: 0 <= k < |rest| ==> rest[k] == order[k + 1];
      if x < pinned { VictimIsFirst(rest, pinned); } else { assert x !in rest; }
    }
  }

  /** Making room takes the coldest unpinned chunks, as many as needed, or gives up for want of them. */
  lemma {:induction false} RoomTakesTheColdest(order: seq<int>, c: Config)
    requires Distinct(order)
    ensures var unpinned, room := Unpinned(order, c.pinnedChunks), MakeRoom(order, c);
            var need := Gone(1, |order|, c);
            && (room.ok <==> need <= |unpinned|)
            && (room.ok ==> |room.order| == |order| - need && Unpinned(room.order, c.pinnedChunks) == unpinned[need..])
    decreases |order|
  {
    var unpinned := Unpinned(order, c.pinnedChunks);
    VictimIsFirst(order, c.pinnedChunks);
    if |order| < c.maxChunks {
      assert unpinned[0..] == unpinned;
    } else if unpinned != [] {
      var less := Without(order, unpinned[0]);
      DistinctWithout(order, unpinned[0]);
      VictimIsStored(order, c.pinnedChunks);
      OneVictim(order, unpinned[0], c);
      RoomTakesTheColdest(less, c);
      var need := Gone(1, |less|, c);
      assert Gone(1, |order|, c) == need + 1;
      if need < |unpinned| { assert unpinned[1..][need..] == unpinned[need + 1..]; }
    }
  }

  lemma {:induction false} VictimIsStored(order: seq<int>, pinned: int)
    requires Unpinned(order, pinned) != []
    ensures Unpinned(order, pinned)[0] in order
  {
    UnpinnedMember(order, pinned, Unpinned(order, pinned)[0]);
  }

  lemma {:induction false} OneVictim(order: seq<int>, victim: int, c: Config)
    requires |order| >= c.maxChunks && FirstUnpinned(order, c.pinnedChunks) == Some(victim)
    ensures MakeRoom(order, c).ok == MakeRoom(Without(order, victim), c).ok
    ensures MakeRoom(order, c).order == MakeRoom(Without(order, victim), c).order
  {}

  lemma {:induction false} PlaceOfMember(s: seq<int>, x: int, from: nat)
    requires Distinct(s) && from <= |s|
    ensures x in s[from..] <==> x in s && Place(s, x) >= from
  {
    if s != [] {
      var rest := s[1..];
      assert forall k :: 0 <= k < |rest| ==> rest[k] == s[k + 1];
      assert s == [s[0]] + rest;
      if from == 0 {
        assert s[0..] == s;
      } else {
        assert s[from..] == rest[from - 1..];
        PlaceOfMember(rest, x, from - 1);
        if x == s[0] { assert x !in rest; }
      }
    }
  }

  lemma {:induction false} PlaceAt(s: seq<int>, k: nat)
    requires Distinct(s) && k < |s|
    ensures Place(s, s[k]) == k
  {
    if k > 0 {
      assert forall i :: 0 <= i < |s[1..]| ==> s[1..][i] == s[i + 1];
      PlaceAt(s[1..], k - 1);
    }
  }

  /** A new chunk put: what the unpinned chunks and the size become, when there is room and when not. */
  lemma {:induction false} PutTakesTheColdest(w: seq<int>, x: int, c: Config)
    requires Distinct(w) && x !in w
    ensures var unpinned, after, need := Unpinned(w, c.pinnedChunks), WarmOne(w, x, c), Gone(1, |w|, c);
            && Distinct(after)
            && (need <= |unpinned| ==>
                  && |after| == |w| - need + 1 && x in after
                  && Unpinned(after, c.pinnedChunks) == unpinned[need..] + if x < c.pinnedChunks then [] else [x])
            && (need > |unpinned| ==> x !in after)
  {
    RoomTakesTheColdest(w, c);
    PutContents(w, x, Written, c);
    var room := MakeRoom(w, c);
    MakeRoomCounts(w, c);
    if room.ok {
      assert x !in room.order;
      assert WarmOne(w, x, c) == room.order + [x];
      UnpinnedAppend(room.order, c.pinnedChunks, x);
    }
  }

  lemma {:induction false} PutKeepsPins(w: seq<int>, x: int, c: Config, y: int)
    requires Distinct(w) && y != x
    ensures y < c.pinnedChunks ==> (y in WarmOne(w, x, c) <==> y in w)
    ensures y !in w ==> y !in WarmOne(w, x, c)
  {
    if x !in w { PutContents(w, x, Written, c); }
  }

  // A run of warming, followed turn by turn.

  /** The unpinned chunks put so far. */
  function PutChunks(order: seq<int>, plan: seq<int>, c: Config): seq<int> {
    if plan == [] then []
    else
      var front, x := plan[..|plan| - 1], plan[|plan| - 1];
      PutChunks(order, front, c)
      + if x < c.pinnedChunks || Passed(order, x, Puts(order, front, c), c) then [] else [x]
  }

  lemma {:induction false} PutAreOfPlan(order: seq<int>, plan: seq<int>, c: Config, y: int)
    requires y in PutChunks(order, plan, c)
    ensures y in plan && y >= c.pinnedChunks
  {
    var front, x := plan[..|plan| - 1], plan[|plan| - 1];
    assert plan == front + [x];
    if y in PutChunks(order, front, c) { PutAreOfPlan(order, front, c, y); }
  }

  lemma {:induction false} PutExactly(order: seq<int>, plan: seq<int>, c: Config, k: nat)
    requires Distinct(plan) && k < |plan|
    ensures plan[k] in PutChunks(order, plan, c) <==>
            plan[k] >= c.pinnedChunks && !Passed(order, plan[k], Puts(order, plan[..k], c), c)
    decreases |plan|
  {
    var front, x := plan[..|plan| - 1], plan[|plan| - 1];
    if k < |front| {
      PutExactly(order, front, c, k);
      assert front[..k] == plan[..k] && plan[k] != x;
    } else {
      if x in PutChunks(order, front, c) {
        PutAreOfPlan(order, front, c, x);
        assert false;
      }
    }
  }

  /** While evictions have taken no chunk just put: the unpinned chunks are those left of the
      first ones, then those put, and the size adds up. */
  predicate Lines(order: seq<int>, plan: seq<int>, c: Config) {
    var w, n := WarmAll(order, plan, c), Puts(order, plan, c);
    var gone, first := Gone(n, |order|, c), Unpinned(order, c.pinnedChunks);
    && gone <= |first| && |w| == |order| + n - gone
    && Unpinned(w, c.pinnedChunks) == first[gone..] + PutChunks(order, plan, c)
  }

  /** And the pins are those of store and plan. */
  ghost predicate Tracks(order: seq<int>, plan: seq<int>, c: Config) {
    && Distinct(WarmAll(order, plan, c)) && Lines(order, plan, c)
    && forall y :: y < c.pinnedChunks ==> (y in WarmAll(order, plan, c) <==> y in order || y in plan)
  }

  lemma {:induction false} NextGone(n: nat, size: nat, c: Config)
    ensures Gone(n, size, c) <= Gone(n + 1, size, c)
    ensures Gone(n, size, c) <= size + n ==>
              Gone(n + 1, size, c) == Gone(n, size, c) + Gone(1, size + n - Gone(n, size, c), c)
  {}

  /** At its turn a chunk is stored exactly when it counts as passed over. */
  lemma {:induction false} StoredIsPassed(order: seq<int>, front: seq<int>, x: int, c: Config)
    requires Distinct(order) && Tracks(order, front, c) && x !in front
    ensures x in WarmAll(order, front, c) <==> Passed(order, x, Puts(order, front, c), c)
  {
    if x >= c.pinnedChunks {
      var w, first := WarmAll(order, front, c), Unpinned(order, c.pinnedChunks);
      var gone := Gone(Puts(order, front, c), |order|, c);
      UnpinnedMember(w, c.pinnedChunks, x);
      UnpinnedMember(order, c.pinnedChunks, x);
      UnpinnedDistinct(order, c.pinnedChunks);
      PlaceOfMember(first, x, gone);
      if x in PutChunks(order, front, c) { PutAreOfPlan(order, front, c, x); }
      assert x in first[gone..] + PutChunks(order, front, c) <==> x in first[gone..] || x in PutChunks(order, front, c);
    }
  }

  lemma {:induction false} LastIsNew(plan: seq<int>)
    requires Distinct(plan) && plan != []
    ensures Distinct(plan[..|plan| - 1]) && plan[|plan| - 1] !in plan[..|plan| - 1]
    ensures plan == plan[..|plan| - 1] + [plan[|plan| - 1]]
  {}

  lemma {:induction false} TracksOn(order: seq<int>, plan: seq<int>, c: Config)
    requires Distinct(order) && Distinct(plan) && plan != [] && Tracks(order, plan[..|plan| - 1], c)
    requires Gone(Puts(order, plan, c), |order|, c) <= |Unpinned(order, c.pinnedChunks)|
    ensures Tracks(order, plan, c)
  {
    var front, x := plan[..|plan| - 1], plan[|plan| - 1];
    LastIsNew(plan);
    StoredIsPassed(order, front, x, c);
    LinesOn(order, plan, c);
    forall y | y < c.pinnedChunks ensures y in WarmAll(order, plan, c) <==> y in order || y in plan {
      PinsTracked(order, plan, c, y);
    }
  }

  lemma {:induction false} LinesOn(order: seq<int>, plan: seq<int>, c: Config)
    requires plan != [] && Lines(order, plan[..|plan| - 1], c) && Distinct(WarmAll(order, plan[..|plan| - 1], c))
    requires Gone(Puts(order, plan, c), |order|, c) <= |Unpinned(order, c.pinnedChunks)|
    requires var front, x := plan[..|plan| - 1], plan[|plan| - 1];
             x in WarmAll(order, front, c) <==> Passed(order, x, Puts(order, front, c), c)
    ensures Lines(order, plan, c) && Distinct(WarmAll(order, plan, c))
  {
    var front, x := plan[..|plan| - 1], plan[|plan| - 1];
    if x in WarmAll(order, front, c) {
      assert PutChunks(order, front, c) + [] == PutChunks(order, front, c);
    } else {
      PutTracks(order, front, x, c);
    }
  }

  lemma {:induction false} PinsTracked(order: seq<int>, plan: seq<int>, c: Config, y: int)
    requires Distinct(order) && Distinct(plan) && plan != [] && Tracks(order, plan[..|plan| - 1], c)
    requires Gone(Puts(order, plan, c), |order|, c) <= |Unpinned(order, c.pinnedChunks)|
    requires y < c.pinnedChunks
    ensures y in WarmAll(order, plan, c) <==> y in order || y in plan
  {
    var front, x := plan[..|plan| - 1], plan[|plan| - 1];
    LastIsNew(plan);
    StoredIsPassed(order, front, x, c);
    if x !in WarmAll(order, front, c) {
      if y == x { PutTracks(order, front, x, c); } else { PutKeepsPins(WarmAll(order, front, c), x, c, y); }
    }
  }

  /** A new chunk put while the turns so far are tracked. */
  lemma {:induction false} PutTracks(order: seq<int>, front: seq<int>, x: int, c: Config)
    requires Lines(order, front, c) && Distinct(WarmAll(order, front, c)) && x !in WarmAll(order, front, c)
    requires Gone(Puts(order, front, c) + 1, |order|, c) <= |Unpinned(order, c.pinnedChunks)|
    ensures var after, gone := WarmOne(WarmAll(order, front, c), x, c), Gone(Puts(order, front, c) + 1, |order|, c);
            && Distinct(after) && x in after && |after| == |order| + Puts(order, front, c) + 1 - gone
            && Unpinned(after, c.pinnedChunks)
               == Unpinned(order, c.pinnedChunks)[gone..] + (PutChunks(order, front, c) + if x < c.pinnedChunks then [] else [x])
  {
    var w, n := WarmAll(order, front, c), Puts(order, front, c);
    NextGone(n, |order|, c);
    PutOnTracked(w, x, Unpinned(order, c.pinnedChunks), Gone(n, |order|, c), PutChunks(order, front, c), c);
  }

  lemma {:induction false} PutOnTracked(w: seq<int>, x: int, first: seq<int>, gone: nat, put: seq<int>, c: Config)
    requires Distinct(w) && x !in w && gone + Gone(1, |w|, c) <= |first|
    requires Unpinned(w, c.pinnedChunks) == first[gone..] + put
    ensures var after, need := WarmOne(w, x, c), Gone(1, |w|, c);
            && Distinct(after) && x in after && |after| == |w| - need + 1
            && Unpinned(after, c.pinnedChunks) == first[gone + need..] + (put + if x < c.pinnedChunks then [] else [x])
  {
    PutTakesTheColdest(w, x, c);
    DropFront(first, gone, Gone(1, |w|, c), put, if x < c.pinnedChunks then [] else [x]);
  }

  lemma {:induction false} DropFront(s: seq<int>, gone: nat, need: nat, put: seq<int>, more: seq<int>)
    requires gone + need <= |s|
    ensures (s[gone..] + put)[need..] + more == s[gone + need..] + (put + more)
  {
    assert s[gone..][need..] == s[gone + need..];
    assert (s[gone..] + put)[need..] == s[gone..][need..] + put;
  }

  lemma {:induction false} WarmTracks(order: seq<int>, plan: seq<int>, c: Config)
    requires Distinct(order) && Distinct(plan)
    requires Gone(Puts(order, plan, c), |order|, c) <= |Unpinned(order, c.pinnedChunks)|
    ensures Tracks(order, plan, c)
    decreases |plan|
  {
    if plan == [] {
      var first := Unpinned(order, c.pinnedChunks);
      assert first[0..] + [] == first;
    } else {
      LastIsNew(plan);
      NextGone(Puts(order, plan[..|plan| - 1], c), |order|, c);
      WarmTracks(order, plan[..|plan| - 1], c);
      TracksOn(order, plan, c);
    }
  }

  /** Too many evictions lose a chunk of the plan, and nothing brings it back. */
  lemma {:induction false} WarmLoses(order: seq<int>, plan: seq<int>, c: Config) returns (k: nat)
    requires Distinct(order) && Distinct(plan)
    requires Gone(Puts(order, plan, c), |order|, c) > |Unpinned(order, c.pinnedChunks)|
    ensures k < |plan| && plan[k] !in WarmAll(order, plan, c)
    decreases |plan|
  {
    var front, x := plan[..|plan| - 1], plan[|plan| - 1];
    var w := WarmAll(order, front, c);
    LastIsNew(plan);
    WarmDistinct(order, front, c);
    if Gone(Puts(order, front, c), |order|, c) > |Unpinned(order, c.pinnedChunks)| {
      k := WarmLoses(order, front, c);
      PutKeepsPins(w, x, c, plan[k]);
    } else {
      WarmTracks(order, front, c);
      StoredIsPassed(order, front, x, c);
      NextGone(Puts(order, front, c), |order|, c);
      PutTakesTheColdest(w, x, c);
      if Gone(1, |w|, c) > |Unpinned(w, c.pinnedChunks)| {
        k := |plan| - 1;
      } else {
        k := PutTakesPut(order, front, x, c);
      }
    }
  }

  lemma {:induction false} WarmDistinct(order: seq<int>, plan: seq<int>, c: Config)
    requires Distinct(order)
    ensures Distinct(WarmAll(order, plan, c))
    decreases |plan|
  {
    if plan != [] {
      var w, x := WarmAll(order, plan[..|plan| - 1], c), plan[|plan| - 1];
      WarmDistinct(order, plan[..|plan| - 1], c);
      if x !in w { PutTakesTheColdest(w, x, c); }
    }
  }

  lemma {:induction false} PutTakesPut(order: seq<int>, front: seq<int>, x: int, c: Config) returns (k: nat)
    requires Distinct(order) && Tracks(order, front, c) && x !in front && x !in WarmAll(order, front, c)
    requires var w := WarmAll(order, front, c);
             var left := |Unpinned(order, c.pinnedChunks)| - Gone(Puts(order, front, c), |order|, c);
             left < Gone(1, |w|, c) <= |Unpinned(w, c.pinnedChunks)|
    ensures k < |front| && front[k] !in WarmOne(WarmAll(order, front, c), x, c)
  {
    var w, put := WarmAll(order, front, c), PutChunks(order, front, c);
    var unpinned, need := Unpinned(w, c.pinnedChunks), Gone(1, |w|, c);
    var left := |unpinned| - |put|;
    var y := unpinned[left];
    assert y == put[0];
    PutAreOfPlan(order, front, c, y);
    k :| 0 <= k < |front| && front[k] == y;
    UnpinnedDistinct(w, c.pinnedChunks);
    PutTakesTheColdest(w, x, c);
    var after := WarmOne(w, x, c);
    UnpinnedMember(after, c.pinnedChunks, y);
    PlaceAt(unpinned, left);
    PlaceOfMember(unpinned, y, need);
  }

  /** Any plan, whatever of it is stored already, ends wholly in the store exactly when
      evictions stop short of the coldest chunk passed over and of the chunks put. */
  lemma {:induction false} PlanIsWarmedExactly(order: seq<int>, plan: seq<int>, fetches: seq<Fetch>, c: Config)
    requires Distinct(order) && Distinct(plan) && |fetches| == |plan| && AllFetched(fetches)
    ensures Holds(Warmed(order, plan, fetches, c).0, plan) <==> Spared(order, plan, c)
  {
    WarmedIsWarmAll(order, plan, fetches, c);
    var w, gone, first := WarmAll(order, plan, c), Gone(Puts(order, plan, c), |order|, c), Unpinned(order, c.pinnedChunks);
    if gone > |first| {
      var k := WarmLoses(order, plan, c);
    } else {
      WarmTracks(order, plan, c);
      forall k | 0 <= k < |plan|
        ensures plan[k] in w <==>
                plan[k] >= c.pinnedChunks && Passed(order, plan[k], Puts(order, plan[..k], c), c) ==> Place(first, plan[k]) >= gone
      {
        ChunkIsSparedExactly(order, plan, k, c);
      }
    }
  }

  lemma {:induction false} ChunkIsSparedExactly(order: seq<int>, plan: seq<int>, k: nat, c: Config)
    requires Distinct(order) && Distinct(plan) && k < |plan| && Tracks(order, plan, c)
    ensures plan[k] in WarmAll(order, plan, c) <==>
            plan[k] >= c.pinnedChunks && Passed(order, plan[k], Puts(order, plan[..k], c), c) ==>
              Place(Unpinned(order, c.pinnedChunks), plan[k]) >= Gone(Puts(order, plan, c), |order|, c)
  {
    var x, w, first := plan[k], WarmAll(order, plan, c), Unpinned(order, c.pinnedChunks);
    var gone, put := Gone(Puts(order, plan, c), |order|, c), PutChunks(order, plan, c);
    if x >= c.pinnedChunks {
      PutExactly(order, plan, c, k);
      UnpinnedMember(w, c.pinnedChunks, x);
      UnpinnedMember(order, c.pinnedChunks, x);
      UnpinnedDistinct(order, c.pinnedChunks);
      PlaceOfMember(first, x, gone);
      assert x in first[gone..] + put <==> x in first[gone..] || x in put;
    }
  }

  // What that comes to in the plainest cases.

  lemma {:induction false} NonePassed(order: seq<int>, plan: seq<int>, c: Config)
    requires forall k :: 0 <= k < |plan| ==> plan[k] !in order
    ensures Puts(order, plan, c) == |plan|
  {
    if plan != [] { NonePassed(order, plan[..|plan| - 1], c); }
  }

  /** A plan none of which is stored ends wholly in the store exactly when it fits beside the pins held. */
  lemma {:induction false} NewPlanIsWarmedExactly(order: seq<int>, plan: seq<int>, fetches: seq<Fetch>, c: Config)
    requires Distinct(order) && Distinct(plan) && |fetches| == |plan| && AllFetched(fetches)
    requires forall k :: 0 <= k < |plan| ==> plan[k] !in order
    ensures Holds(Warmed(order, plan, fetches, c).0, plan) <==>
            plan == [] || PinnedCount(order, c.pinnedChunks) + |plan| <= c.maxChunks
  {
    PlanIsWarmedExactly(order, plan, fetches, c);
    NonePassed(order, plan, c);
    UnpinnedCount(order, c.pinnedChunks);
  }

  /** A boot recorded within the recorder's limit and replayed into an empty store is wholly
      stored, first touches up to the budget, exactly when the store has room for that many. */
  lemma {:induction false} RecordedBootIsWarmedExactly(
    history: seq<Value>, limit: int, available: int, chunks: int, maxChunks: int, fetches: seq<Fetch>)
    requires chunks <= limit && history != []
    requires forall k :: 0 <= k < |history| ==> Safe(history[k]) && 0 <= history[k].n < available
    requires |fetches| == |Plan(available, chunks, Wholes(Recorded(history, limit)))| && AllFetched(fetches)
    ensures var touched := Prefix(FirstTouches(Kept(history)), chunks);
            Plan(available, chunks, Wholes(Recorded(history, limit))) == touched &&
            (Holds(Warmed([], touched, fetches, Config(maxChunks, chunks)).0, touched) <==>
               touched == [] || |touched| <= maxChunks)
  {
    MeasuredBootIsReplayed(history, limit, available, chunks);
    PlanIsSound(available, chunks, history);
    NewPlanIsWarmedExactly([], Prefix(FirstTouches(Kept(history)), chunks), fetches, Config(maxChunks, chunks));
  }

  /** Warming can evict a chunk of its own plan: stored, it was passed over and left the coldest. */
  lemma {:induction false} WarmingEvictsItsOwnChunk(x: int, y: int, z: int, pin: int)
    requires pin < 2 <= x && 2 <= y && 2 <= z && x != y && y != z && x != z
    ensures Warmed([x, pin, z], [x, y], [Fetched(Written), Fetched(Written)], Config(3, 2)) == ([pin, z, y], 1)
  {
    var order, plan, fetches, c := [x, pin, z], [x, y], [Fetched(Written), Fetched(Written)], Config(3, 2);
    assert plan[1..] == [y] && fetches[1..] == [Fetched(Written)] && order[1..] == [pin, z];
    PutAfterColdest(x, y, z, pin);
    assert Warmed(order, [y], [Fetched(Written)], c) == ([pin, z, y], 1) by {
      assert [y][1..] == [] && [Fetched(Written)][1..] == [];
    }
  }

  lemma {:induction false} PutAfterColdest(x: int, y: int, z: int, pin: int)
    requires pin < 2 <= x && 2 <= y && 2 <= z && x != y && y != z && x != z
    ensures PagePut([x, pin, z], y, Written, Config(3, 2)) == Effect([pin, z, y], [x], Stored)
  {
    var order, c := [x, pin, z], Config(3, 2);
    assert order[1..] == [pin, z] && y !in order && x !in [pin, z] && y !in [pin, z];
    assert Without(order, x) == [pin, z] && Without([pin, z], y) == [pin, z];
    assert FirstUnpinned(order, 2) == Some(x);
    assert MakeRoom([pin, z], c) == Room([pin, z], [], true);
    assert MakeRoom(order, c) == Room([pin, z], [x], true);
  }

  /** And any chunks of the disc, listed once each, are a measured plan. */
  lemma {:induction false} AnyListIsAPlan(list: seq<int>, available: int)
    requires Distinct(list) && list != [] && available <= MAX_SAFE
    requires forall k :: 0 <= k < |list| ==> 0 <= list[k] < available
    ensures Plan(available, |list|, Wholes(list)) == list
  {
    WholesAreKept(list);
    UsableTouches(Wholes(list), available);
    AllInRange(list, available);
    DistinctIsItsFirstTouches(list);
  }
}
