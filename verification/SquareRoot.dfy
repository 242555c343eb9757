/** `Math.sqrt` and `Math.hypot` over the reals: any function returning the nonnegative root. */
module SquareRoot {
  predicate IsRoot(r: real, v: real) { r >= 0.0 && r * r == v }

  /** A square, by name: reasoning about it goes through the lemmas below. */
  function Sq(a: real): (r: real)
    ensures r >= 0.0
  {
    a * a
  }

  ghost predicate IsSqrt(f: real -> real) {
    forall v: real :: v >= 0.0 ==> IsRoot(f(v), v)
  }

  /** Roots compare as their squares do. */
  lemma RootOrder(r: real, s: real, v: real, w: real)
    requires IsRoot(r, v) && IsRoot(s, w)
    ensures r <= s <==> v <= w
    ensures r == s <==> v == w
  {
    if r < s { SquareIncreases(r, s); }
    if s < r { SquareIncreases(s, r); }
  }

  lemma SquareIncreases(r: real, s: real)
    requires 0.0 <= r < s
    ensures r * r < s * s
  {
    var gap, sum := s - r, s + r;
    assert gap * sum > 0.0;
    assert gap * sum == s * s - r * r;
  }

  lemma SqEven(a: real)
    ensures Sq(-a) == Sq(a)
  {}

  lemma SqIncreases(r: real, s: real)
    requires 0.0 <= r < s
    ensures Sq(r) < Sq(s)
  {
    SquareIncreases(r, s);
  }

  lemma SqDifference(a: real, b: real)
    ensures Sq(a - b) == Sq(a) - 2.0 * (a * b) + Sq(b)
  {}

  lemma SqProduct(a: real, b: real)
    ensures Sq(a * b) == Sq(a) * Sq(b)
  {}

  lemma ProductOfNonNegatives(a: real, b: real)
    requires a >= 0.0 && b >= 0.0
    ensures a * b >= 0.0
  {}
}
