/** Two stores with the same pins and capacities `small <= large`, fed the same reads and
    writes: the larger one always holds what the smaller one holds, in the same order. */
module DiscInclusion {
  import opened Wrappers
  import opened RecencyOrder
  import opened DiscStore
  import opened DiscLru

  datatype Access = Read(index: int) | Write(index: int)

  /** The operation an access turns into when nothing fails: a read hits exactly what is stored. */
  function Faithful(order: seq<int>, a: Access): Op {
    match a
    case Read(index) => Get(index, if index in order then Hit else Unreadable)
    case Write(index) => Put(index, Written)
  }

  function Serve(order: seq<int>, a: Access, c: Config): seq<int> {
    PageStep(order, Faithful(order, a), c).order
  }

  /** The order after a history of accesses, starting from an empty store. */
  function After(history: seq<Access>, c: Config): seq<int> {
    if history == [] then []
    else Serve(After(history[..|history| - 1], c), history[|history| - 1], c)
  }

  function Hits(history: seq<Access>, c: Config): nat {
    if history == [] then 0
    else
      var earlier, a := history[..|history| - 1], history[|history| - 1];
      Hits(earlier, c) + if a.Read? && a.index in After(earlier, c) then 1 else 0
  }

  /** The relation between the two stores that every access keeps. */
  ghost predicate Included(a: seq<int>, b: seq<int>, small: int, large: int) {
    && Distinct(a) && Distinct(b)
    && Subsequence(a, b)
    && (|a| <= small || a == []) && (|b| <= large || b == [])
    && |b| - |a| <= large - small
  }

  /** The smaller store's victim is the larger one's, or the larger one's was not in the smaller. */
  lemma {:induction false} SharedVictim(a: seq<int>, b: seq<int>, pinned: int)
    requires Subsequence(a, b) && Distinct(b)
    ensures var va, vb := FirstUnpinned(a, pinned), FirstUnpinned(b, pinned);
            && (va.Some? ==> vb.Some?)
            && (vb.Some? ==> vb.value !in a || va == vb)
  {
    SubsequenceMembers(a, b);
    if a != [] {
      var rest := b[1..];
      assert forall k :: 0 <= k < |rest| ==> rest[k] == b[k + 1];
      assert b[0] !in rest && a == [a[0]] + a[1..];
      if a[0] == b[0] {
        SharedVictim(a[1..], rest, pinned);
      } else {
        SubsequenceMembers(a, rest);
        SharedVictim(a, rest, pinned);
      }
    }
  }

  /** A store within its capacity evicts at most once per put. */
  lemma OneEviction(order: seq<int>, c: Config)
    requires Distinct(order) && (|order| <= c.maxChunks || order == [])
    ensures MakeRoom(order, c) ==
            if |order| < c.maxChunks then Room(order, [], true)
            else match FirstUnpinned(order, c.pinnedChunks)
              case None => Room(order, [], false)
              case Some(v) => Room(Without(order, v), [v], true)
  {
    var victim := FirstUnpinned(order, c.pinnedChunks);
    if |order| >= c.maxChunks && victim.Some? { DistinctWithout(order, victim.value); }
  }

  lemma EvictionKeepsSubsequence(a: seq<int>, b: seq<int>, pinned: int)
    requires Subsequence(a, b) && Distinct(b)
    ensures var va, vb := FirstUnpinned(a, pinned), FirstUnpinned(b, pinned);
            && (vb.Some? && va.Some? ==> Subsequence(Without(a, va.value), Without(b, vb.value)))
            && (vb.Some? && va.None? ==> Subsequence(a, Without(b, vb.value)))
            && (va.Some? ==> Subsequence(Without(a, va.value), b))
  {
    SharedVictim(a, b, pinned);
    var va, vb := FirstUnpinned(a, pinned), FirstUnpinned(b, pinned);
    if vb.Some? {
      SubsequenceWithout(a, b, vb.value);
      if va.Some? {
        SubsequenceWithout(a, b, va.value);
        if va != vb { SubsequenceWithout(Without(a, va.value), b, vb.value); }
      }
    }
  }

  lemma TouchKeepsIncluded(a: seq<int>, b: seq<int>, x: int, small: int, large: int)
    requires Included(a, b, small, large)
    ensures Included(Touched(a, x), Touched(b, x), small, large)
  {
    SubsequenceMembers(a, b);
    SubsequenceWithout(a, b, x);
    SubsequenceAppend(Without(a, x), Without(b, x), x);
    DistinctWithout(a, x);
    DistinctWithout(b, x);
    DistinctAppend(Without(a, x), x);
    DistinctAppend(Without(b, x), x);
  }

  /** A put of a chunk neither store, or only the larger one, holds: room first. */
  lemma {:induction false} RoomKeepsIncluded(a: seq<int>, b: seq<int>, small: Config, large: Config)
    requires Included(a, b, small.maxChunks, large.maxChunks)
    requires small.maxChunks <= large.maxChunks && small.pinnedChunks == large.pinnedChunks
    ensures var ra, rb := MakeRoom(a, small), MakeRoom(b, large);
            && Subsequence(ra.order, rb.order) && Subsequence(ra.order, b)
            && (ra.ok ==> rb.ok)
            && |rb.order| + (if rb.ok then 1 else 0) - (|ra.order| + (if ra.ok then 1 else 0))
               <= large.maxChunks - small.maxChunks
            && |b| - (|ra.order| + (if ra.ok then 1 else 0)) <= large.maxChunks - small.maxChunks
  {
    SubsequenceMembers(a, b);
    OneEviction(a, small);
    OneEviction(b, large);
    EvictionKeepsSubsequence(a, b, small.pinnedChunks);
    SharedVictim(a, b, small.pinnedChunks);
    var va, vb := FirstUnpinned(a, small.pinnedChunks), FirstUnpinned(b, large.pinnedChunks);
    if va.Some? { DistinctWithout(a, va.value); }
    if vb.Some? { DistinctWithout(b, vb.value); }
  }

  lemma WriteKeepsIncluded(a: seq<int>, b: seq<int>, x: int, small: Config, large: Config)
    requires Included(a, b, small.maxChunks, large.maxChunks)
    requires small.maxChunks <= large.maxChunks && small.pinnedChunks == large.pinnedChunks
    ensures Included(Serve(a, Write(x), small), Serve(b, Write(x), large), small.maxChunks, large.maxChunks)
  {
    SubsequenceMembers(a, b);
    PutContents(a, x, Written, small);
    PutContents(b, x, Written, large);
    if x in a {
      TouchKeepsIncluded(a, b, x, small.maxChunks, large.maxChunks);
    } else {
      RoomKeepsIncluded(a, b, small, large);
      var ra, rb := MakeRoom(a, small), if x in b then Room(b, [], true) else MakeRoom(b, large);
      MakeRoomCounts(a, small);
      MakeRoomCounts(b, large);
      SubsequenceWithout(ra.order, rb.order, x);
      SubsequenceAppend(ra.order, Without(rb.order, x), x);
    }
  }

  /** LRU inclusion with pins, at every point of every history. */
  lemma {:induction false} LargerStoreIncludesSmaller(history: seq<Access>, small: Config, large: Config)
    requires small.maxChunks <= large.maxChunks && small.pinnedChunks == large.pinnedChunks
    ensures var a, b := After(history, small), After(history, large);
            Subsequence(a, b) && |b| <= |a| + (large.maxChunks - small.maxChunks)
    ensures Included(After(history, small), After(history, large), small.maxChunks, large.maxChunks)
  {
    if history != [] {
      var earlier, access := history[..|history| - 1], history[|history| - 1];
      LargerStoreIncludesSmaller(earlier, small, large);
      var a, b := After(earlier, small), After(earlier, large);
      match access
      case Read(x) => TouchKeepsIncluded(a, b, x, small.maxChunks, large.maxChunks);
      case Write(x) => WriteKeepsIncluded(a, b, x, small, large);
    }
  }

  /** More capacity never loses a hit: no history shows Belady's anomaly. */
  lemma {:induction false} MoreCapacityNeverFewerHits(history: seq<Access>, small: Config, large: Config)
    requires small.maxChunks <= large.maxChunks && small.pinnedChunks == large.pinnedChunks
    ensures Hits(history, small) <= Hits(history, large)
  {
    if history != [] {
      var earlier := history[..|history| - 1];
      MoreCapacityNeverFewerHits(earlier, small, large);
      LargerStoreIncludesSmaller(earlier, small, large);
      SubsequenceMembers(After(earlier, small), After(earlier, large));
    }
  }
}
