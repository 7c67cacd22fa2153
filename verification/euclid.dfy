/** Euclidean distance between embedding vectors.

    The square root of `np.linalg.norm` has no counterpart over Dafny's reals,
    so the distance is characterised instead: `d` is the distance between `a`
    and `b` when it is non-negative and its square is the sum of the squared
    component differences.
 */
module Euclid {

  type Vector = seq<real>

  /** Sum of squared component differences of two equal-length vectors. */
  function SquaredDistance(a: Vector, b: Vector): (r: real)
    requires |a| == |b|
    ensures r >= 0.0
    decreases |a|
  {
    if |a| == 0 then 0.0
    else
      var d := a[0] - b[0];
      d * d + SquaredDistance(a[1..], b[1..])
  }

  /** `d` is the Euclidean distance between `a` and `b`. */
  predicate IsDistance(d: real, a: Vector, b: Vector) {
    |a| == |b| && d >= 0.0 && d * d == SquaredDistance(a, b)
  }

  lemma {:induction false} SquaredDistanceSymmetric(a: Vector, b: Vector)
    requires |a| == |b|
    ensures SquaredDistance(a, b) == SquaredDistance(b, a)
    decreases |a|
  {
    if |a| > 0 {
      SquaredDistanceSymmetric(a[1..], b[1..]);
      assert (a[0] - b[0]) * (a[0] - b[0]) == (b[0] - a[0]) * (b[0] - a[0]);
    }
  }

  lemma {:induction false} SquaredDistanceZeroIff(a: Vector, b: Vector)
    requires |a| == |b|
    ensures SquaredDistance(a, b) == 0.0 <==> a == b
    decreases |a|
  {
    if |a| > 0 {
      SquaredDistanceZeroIff(a[1..], b[1..]);
      var d := a[0] - b[0];
      var rest := SquaredDistance(a[1..], b[1..]);
      assert a == [a[0]] + a[1..] && b == [b[0]] + b[1..];
      if SquaredDistance(a, b) == 0.0 {
        SquareSumZero(d, rest, SquaredDistance(a, b));
      }
    }
  }

  /** A sum of a square and a non-negative real is zero only if both parts are. */
  lemma SquareSumZero(d: real, r: real, s: real)
    requires s == d * d + r && r >= 0.0 && s == 0.0
    ensures d == 0.0 && r == 0.0
  {
    assert d * d >= 0.0;
    assert d * d == 0.0;
    SquareZero(d);
  }

  lemma SquareZero(d: real)
    requires d * d == 0.0
    ensures d == 0.0
  {
    if d >= 0.0 {
      NonNegativeRootUnique(d, 0.0);
    } else {
      assert (-d) * (-d) == d * d;
      NonNegativeRootUnique(-d, 0.0);
    }
  }

  /** Two non-negative reals with the same square are equal. */
  lemma NonNegativeRootUnique(x: real, y: real)
    requires x >= 0.0 && y >= 0.0 && x * x == y * y
    ensures x == y
  {
    assert (x - y) * (x + y) == 0.0;
    if x + y == 0.0 {
    } else {
      assert x - y == 0.0;
    }
  }

  /** The distance between two vectors is determined by them. */
  lemma DistanceUnique(d1: real, d2: real, a: Vector, b: Vector)
    requires IsDistance(d1, a, b) && IsDistance(d2, a, b)
    ensures d1 == d2
  {
    NonNegativeRootUnique(d1, d2);
  }

  /** Swapping the arguments does not change the distance. */
  lemma DistanceSymmetric(d: real, a: Vector, b: Vector)
    requires IsDistance(d, a, b)
    ensures IsDistance(d, b, a)
  {
    SquaredDistanceSymmetric(a, b);
  }

  /** A distance is zero exactly when the vectors are identical. */
  lemma DistanceZeroIffIdentical(d: real, a: Vector, b: Vector)
    requires IsDistance(d, a, b)
    ensures d == 0.0 <==> a == b
  {
    SquaredDistanceZeroIff(a, b);
    if a == b {
      SquareZero(d);
    }
  }

  /** Every vector is at distance zero from itself, and at no other distance. */
  lemma DistanceToItself(d: real, a: Vector)
    ensures IsDistance(d, a, a) <==> d == 0.0
  {
    SquaredDistanceZeroIff(a, a);
    if IsDistance(d, a, a) {
      DistanceZeroIffIdentical(d, a, a);
    }
  }
}
