/** The JavaScript `Map` a chunk store keeps, seen as the sequence of its keys.
    A `Map` iterates in insertion order, so the sequence is the recency order: the
    coldest chunk first, the most recently used one last. */
module RecencyOrder {

  ghost predicate Distinct<T>(s: seq<T>) {
    forall i, j :: 0 <= i < j < |s| ==> s[i] != s[j]
  }

  /** `stored.delete(x)`. */
  function Without(s: seq<int>, x: int): (r: seq<int>)
    ensures forall y :: y in r <==> y in s && y != x
    ensures |r| <= |s| && (x in s ==> |r| < |s|) && (x !in s ==> r == s)
  {
    if s == [] then []
    else if s[0] == x then Without(s[1..], x)
    else [s[0]] + Without(s[1..], x)
  }

  /** `touch(x)`: a stored chunk is re-keyed, so it becomes the newest. */
  function Touched(s: seq<int>, x: int): seq<int> {
    if x in s then Without(s, x) + [x] else s
  }

  /** The order-preserving embedding of `a` in `b`. */
  predicate Subsequence(a: seq<int>, b: seq<int>) {
    a == [] ||
    (b != [] && if a[0] == b[0] then Subsequence(a[1..], b[1..]) else Subsequence(a, b[1..]))
  }

  lemma {:induction false} DistinctWithout(s: seq<int>, x: int)
    requires Distinct(s)
    ensures Distinct(Without(s, x))
    ensures x in s ==> |Without(s, x)| == |s| - 1
  {
    if s != [] {
      var rest := s[1..];
      assert forall k :: 0 <= k < |rest| ==> rest[k] == s[k + 1];
      assert s[0] !in rest;
      DistinctWithout(rest, x);
      if s[0] != x { assert s[0] !in Without(rest, x); }
    }
  }

  lemma DistinctAppend(s: seq<int>, x: int)
    requires Distinct(s) && x !in s
    ensures Distinct(s + [x])
  {}

  lemma {:induction false} SubsequenceMembers(a: seq<int>, b: seq<int>)
    requires Subsequence(a, b)
    ensures |a| <= |b|
    ensures forall x :: x in a ==> x in b
  {
    if a != [] {
      if a[0] == b[0] { SubsequenceMembers(a[1..], b[1..]); } else { SubsequenceMembers(a, b[1..]); }
      assert a == [a[0]] + a[1..] && b == [b[0]] + b[1..];
    }
  }

  lemma {:induction false} SubsequenceTail(a: seq<int>, b: seq<int>)
    requires a != [] && Subsequence(a, b)
    ensures Subsequence(a[1..], b)
    decreases |b|, 0
  {
    if a[0] == b[0] {
      SubsequenceSkip(a[1..], b[1..], b[0]);
      assert [b[0]] + b[1..] == b;
    } else {
      SubsequenceTail(a, b[1..]);
      SubsequenceSkip(a[1..], b[1..], b[0]);
      assert [b[0]] + b[1..] == b;
    }
  }

  lemma {:induction false} SubsequenceSkip(a: seq<int>, b: seq<int>, x: int)
    requires Subsequence(a, b)
    ensures Subsequence(a, [x] + b)
    decreases |b|, 1
  {
    assert ([x] + b)[1..] == b;
    if a != [] && a[0] == x { SubsequenceTail(a, b); }
  }

  lemma {:induction false} SubsequenceAppend(a: seq<int>, b: seq<int>, x: int)
    requires Subsequence(a, b)
    ensures Subsequence(a, b + [x])
    ensures Subsequence(a + [x], b + [x])
  {
    if b == [] {
      assert a + [x] == [x] && b + [x] == [x];
    } else {
      assert (b + [x])[1..] == b[1..] + [x];
      if a == [] {
        SubsequenceAppend(a, b[1..], x);
        assert a + [x] == [x];
        if b[0] == x { assert [x][1..] == []; }
      } else {
        assert (a + [x])[1..] == a[1..] + [x];
        if a[0] == b[0] { SubsequenceAppend(a[1..], b[1..], x); } else { SubsequenceAppend(a, b[1..], x); }
      }
    }
  }

  /** Dropping a chunk from both orders, or a chunk the shorter one lacks from the longer. */
  lemma {:induction false} SubsequenceWithout(a: seq<int>, b: seq<int>, x: int)
    requires Subsequence(a, b)
    ensures Subsequence(Without(a, x), Without(b, x))
    ensures x !in a ==> Subsequence(a, Without(b, x))
    ensures Subsequence(Without(a, x), b)
    decreases |a| + |b|
  {
    if a != [] {
      assert a == [a[0]] + a[1..] && b == [b[0]] + b[1..];
      if a[0] == b[0] {
        SubsequenceWithout(a[1..], b[1..], x);
        if a[0] == x {
          SubsequenceSkip(Without(a[1..], x), b[1..], x);
        }
      } else {
        SubsequenceWithout(a, b[1..], x);
        if b[0] != x {
          SubsequenceSkip(Without(a, x), Without(b[1..], x), b[0]);
        }
        SubsequenceSkip(Without(a, x), b[1..], b[0]);
      }
    }
  }
}
