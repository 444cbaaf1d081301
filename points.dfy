/**
 * The vector arithmetic of `Point` (include/point.hpp).
 *
 * A point is its coordinate vector.  The copying operators (`+ - * /`) are functions on
 * `seq<real>`; the compound assignments (`+= -= /=`) change a `Point` object in place; the
 * accumulating loops (`operator*(Point)`, `dist_sqr`, `length_sqr`) are methods proved
 * against recursive sums.  Every binary operator iterates over the dimension of its left
 * operand, so the right operand must have at least as many coordinates.
 */
module Points {

  type Coords = seq<real>

  /** A polygonal curve: its vertices in order. */
  type Curve = seq<Coords>

  /** `p + q` */
  function Add(p: Coords, q: Coords): (r: Coords)
    requires |q| >= |p|
    ensures |r| == |p|
    ensures forall i :: 0 <= i < |p| ==> r[i] == p[i] + q[i]
  {
    seq(|p|, i requires 0 <= i < |p| => p[i] + q[i])
  }

  /** `p - q` */
  function Sub(p: Coords, q: Coords): (r: Coords)
    requires |q| >= |p|
    ensures |r| == |p|
    ensures forall i :: 0 <= i < |p| ==> r[i] == p[i] - q[i]
  {
    seq(|p|, i requires 0 <= i < |p| => p[i] - q[i])
  }

  /** `p * mult` (scalar) */
  function Scale(p: Coords, mult: real): (r: Coords)
    ensures |r| == |p|
    ensures forall i :: 0 <= i < |p| ==> r[i] == p[i] * mult
  {
    seq(|p|, i requires 0 <= i < |p| => p[i] * mult)
  }

  /** `p / dist`; the C++ code divides by zero into IEEE infinities, the model excludes it. */
  function Divide(p: Coords, dist: real): (r: Coords)
    requires dist != 0.0
    ensures |r| == |p|
    ensures forall i :: 0 <= i < |p| ==> r[i] == p[i] / dist
  {
    seq(|p|, i requires 0 <= i < |p| => p[i] / dist)
  }

  /** The sum `p[0]*q[0] + ... + p[|p|-1]*q[|p|-1]` computed by `operator*(const Point&)`. */
  function Inner(p: Coords, q: Coords): real
    requires |q| >= |p|
  {
    if |p| == 0 then 0.0 else Inner(p[..|p| - 1], q) + p[|p| - 1] * q[|p| - 1]
  }

  /** The sum of squared coordinates computed by `length_sqr`. */
  function SqLength(p: Coords): real
  {
    if |p| == 0 then 0.0 else SqLength(p[..|p| - 1]) + p[|p| - 1] * p[|p| - 1]
  }

  /** The sum of squared coordinate differences computed by `dist_sqr`. */
  function SqDist(p: Coords, q: Coords): real
    requires |q| >= |p|
  {
    if |p| == 0 then 0.0
    else
      var d := p[|p| - 1] - q[|p| - 1];
      SqDist(p[..|p| - 1], q) + d * d
  }

  // ---------------------------------------------------------------------------------
  // Properties of the value operations.

  /** `(p + q) - q == p` coordinate-wise over the reals. */
  lemma AddSubCancel(p: Coords, q: Coords)
    requires |q| >= |p|
    ensures Sub(Add(p, q), q) == p
  {
  }

  /** Scaling and dividing keep the dimension; dividing by `d` is scaling by `1/d`. */
  lemma DivideIsScale(p: Coords, d: real)
    requires d != 0.0
    ensures Divide(p, d) == Scale(p, 1.0 / d)
  {
    forall i | 0 <= i < |p|
      ensures Divide(p, d)[i] == Scale(p, 1.0 / d)[i]
    {
      assert p[i] / d == p[i] * (1.0 / d);
    }
  }

  /** `dist_sqr` is never negative. */
  lemma {:induction false} SqDistNonNegative(p: Coords, q: Coords)
    requires |q| >= |p|
    ensures SqDist(p, q) >= 0.0
  {
    if |p| > 0 {
      SqDistNonNegative(p[..|p| - 1], q);
      var d := p[|p| - 1] - q[|p| - 1];
      assert d * d >= 0.0;
    }
  }

  lemma {:induction false} SqLengthNonNegative(p: Coords)
    ensures SqLength(p) >= 0.0
  {
    if |p| > 0 {
      SqLengthNonNegative(p[..|p| - 1]);
    }
  }

  /** `Inner` only looks at the first `|p|` coordinates of `q`. */
  lemma {:induction false} InnerPrefix(p: Coords, q: Coords, q': Coords)
    requires |q| >= |p| && |q'| >= |p|
    requires q[..|p|] == q'[..|p|]
    ensures Inner(p, q) == Inner(p, q')
  {
    if |p| > 0 {
      var n := |p| - 1;
      assert q[..n] == q'[..n] by {
        assert q[..n] == q[..|p|][..n] && q'[..n] == q'[..|p|][..n];
      }
      InnerPrefix(p[..n], q, q');
      assert q[n] == q[..|p|][n] == q'[..|p|][n] == q'[n];
    }
  }

  /** `SqDist` only looks at the first `|p|` coordinates of `q`. */
  lemma {:induction false} SqDistPrefix(p: Coords, q: Coords, q': Coords)
    requires |q| >= |p| && |q'| >= |p|
    requires q[..|p|] == q'[..|p|]
    ensures SqDist(p, q) == SqDist(p, q')
  {
    if |p| > 0 {
      var n := |p| - 1;
      assert q[..n] == q'[..n] by {
        assert q[..n] == q[..|p|][..n] && q'[..n] == q'[..|p|][..n];
      }
      SqDistPrefix(p[..n], q, q');
      assert q[n] == q[..|p|][n] == q'[..|p|][n] == q'[n];
    }
  }

  /** The dot product is commutative. */
  lemma {:induction false} InnerCommutes(p: Coords, q: Coords)
    requires |p| == |q|
    ensures Inner(p, q) == Inner(q, p)
  {
    if |p| > 0 {
      var n := |p| - 1;
      InnerCommutes(p[..n], q[..n]);
      InnerPrefix(p[..n], q, q[..n]);
      InnerPrefix(q[..n], p, p[..n]);
    }
  }

  /** `length_sqr` equals the dot product of a point with itself. */
  lemma {:induction false} SqLengthIsInner(p: Coords)
    ensures SqLength(p) == Inner(p, p)
  {
    if |p| > 0 {
      var n := |p| - 1;
      SqLengthIsInner(p[..n]);
      InnerPrefix(p[..n], p, p[..n]);
    }
  }

  /** `dist_sqr` is symmetric. */
  lemma {:induction false} SqDistSymmetric(p: Coords, q: Coords)
    requires |p| == |q|
    ensures SqDist(p, q) == SqDist(q, p)
  {
    if |p| > 0 {
      var n := |p| - 1;
      SqDistSymmetric(p[..n], q[..n]);
      SqDistPrefix(p[..n], q, q[..n]);
      SqDistPrefix(q[..n], p, p[..n]);
      var d := p[n] - q[n];
      assert d * d == (q[n] - p[n]) * (q[n] - p[n]);
    }
  }

  /** `dist_sqr` of a point and itself is 0. */
  lemma {:induction false} SqDistSelf(p: Coords)
    ensures SqDist(p, p) == 0.0
  {
    if |p| > 0 {
      var n := |p| - 1;
      SqDistSelf(p[..n]);
      SqDistPrefix(p[..n], p, p[..n]);
    }
  }

  /** `dist_sqr(p, q)` is the squared length of `p - q`. */
  lemma {:induction false} SqDistIsSqLengthOfDifference(p: Coords, q: Coords)
    requires |q| >= |p|
    ensures SqDist(p, q) == SqLength(Sub(p, q))
  {
    if |p| > 0 {
      var n := |p| - 1;
      SqDistIsSqLengthOfDifference(p[..n], q);
      assert Sub(p, q)[..n] == Sub(p[..n], q);
    }
  }

  /** Scaling by `c` scales the squared length by `c*c`. */
  lemma {:induction false} SqLengthScale(p: Coords, c: real)
    ensures SqLength(Scale(p, c)) == c * c * SqLength(p)
  {
    SqLengthScaleBy(p, c, c * c);
  }

  /** `SqLengthScale` with the square of the factor named `k`. */
  lemma {:induction false} SqLengthScaleBy(p: Coords, c: real, k: real)
    requires k == c * c
    ensures SqLength(Scale(p, c)) == k * SqLength(p)
  {
    if |p| > 0 {
      var n := |p| - 1;
      SqLengthScaleBy(p[..n], c, k);
      ScaleStep(p, c, k);
    }
  }

  /** One step of `SqLengthScaleBy`: from the prefix without the last coordinate to the whole point. */
  lemma {:induction false} ScaleStep(p: Coords, c: real, k: real)
    requires |p| > 0 && k == c * c
    requires SqLength(Scale(p[..|p| - 1], c)) == k * SqLength(p[..|p| - 1])
    ensures SqLength(Scale(p, c)) == k * SqLength(p)
  {
    var n := |p| - 1;
    SqLengthLast(p);
    ScaledLast(p, c);
    ScaleSquare(p[n], c, k, SqLength(p[..n]), SqLength(p), SqLength(Scale(p[..n], c)), SqLength(Scale(p, c)));
  }

  /** `SqLength` adds the square of the last coordinate to the squared length of the rest. */
  lemma SqLengthLast(p: Coords)
    requires |p| > 0
    ensures SqLength(p) == SqLength(p[..|p| - 1]) + p[|p| - 1] * p[|p| - 1]
  {
  }

  /** The squared length of a scaled point, split at its last coordinate. */
  lemma {:induction false} ScaledLast(p: Coords, c: real)
    requires |p| > 0
    ensures SqLength(Scale(p, c)) == SqLength(Scale(p[..|p| - 1], c)) + (p[|p| - 1] * c) * (p[|p| - 1] * c)
  {
    ScalePrefix(p, c, |p| - 1);
    SqLengthLast(Scale(p, c));
  }

  /** Scaling commutes with taking a prefix. */
  lemma ScalePrefix(p: Coords, c: real, n: nat)
    requires n <= |p|
    ensures Scale(p, c)[..n] == Scale(p[..n], c)
  {
    var s, t := Scale(p, c)[..n], Scale(p[..n], c);
    assert |s| == |t| == n;
    forall i | 0 <= i < n ensures s[i] == t[i] {
      assert s[i] == p[i] * c && t[i] == p[..n][i] * c;
    }
  }

  /** The algebra of one step of `SqLengthScale`. */
  lemma ScaleSquare(x: real, c: real, k: real, rest: real, total: real, scaledRest: real, scaled: real)
    requires k == c * c && total == rest + x * x
    requires scaledRest == k * rest
    requires scaled == scaledRest + (x * c) * (x * c)
    ensures scaled == k * total
  {
  }

  // ---------------------------------------------------------------------------------
  // The object with its in-place operators and accumulating loops.

  class Point {
    var coordinates: Coords

    constructor (coords: Coords)
      ensures coordinates == coords
    {
      coordinates := coords;
    }

    /** `operator+=`; `other` may be this very point (`p += p`). */
    method AddAssign(other: Point)
      requires |other.coordinates| >= |coordinates|
      modifies this
      ensures coordinates == Add(old(coordinates), old(other.coordinates))
    {
      var i := 0;
      while i < |coordinates|
        invariant 0 <= i <= |coordinates| == |old(coordinates)|
        invariant |other.coordinates| >= |coordinates|
        invariant forall k :: 0 <= k < i ==> coordinates[k] == old(coordinates)[k] + old(other.coordinates)[k]
        invariant forall k :: i <= k < |coordinates| ==> coordinates[k] == old(coordinates)[k]
        invariant other != this ==> other.coordinates == old(other.coordinates)
      {
        coordinates := coordinates[i := coordinates[i] + other.coordinates[i]];
        i := i + 1;
      }
    }

    /** `operator-=`; `other` may be this very point. */
    method SubAssign(other: Point)
      requires |other.coordinates| >= |coordinates|
      modifies this
      ensures coordinates == Sub(old(coordinates), old(other.coordinates))
    {
      var i := 0;
      while i < |coordinates|
        invariant 0 <= i <= |coordinates| == |old(coordinates)|
        invariant |other.coordinates| >= |coordinates|
        invariant forall k :: 0 <= k < i ==> coordinates[k] == old(coordinates)[k] - old(other.coordinates)[k]
        invariant forall k :: i <= k < |coordinates| ==> coordinates[k] == old(coordinates)[k]
        invariant other != this ==> other.coordinates == old(other.coordinates)
      {
        coordinates := coordinates[i := coordinates[i] - other.coordinates[i]];
        i := i + 1;
      }
    }

    /** `operator/=` */
    method DivAssign(distance: real)
      requires distance != 0.0
      modifies this
      ensures coordinates == Divide(old(coordinates), distance)
    {
      var i := 0;
      while i < |coordinates|
        invariant 0 <= i <= |coordinates| == |old(coordinates)|
        invariant forall k :: 0 <= k < i ==> coordinates[k] == old(coordinates)[k] / distance
        invariant forall k :: i <= k < |coordinates| ==> coordinates[k] == old(coordinates)[k]
      {
        coordinates := coordinates[i := coordinates[i] / distance];
        i := i + 1;
      }
    }

    /** `operator*(const Point&)`: the dot product. */
    method Dot(other: Point) returns (r: real)
      requires |other.coordinates| >= |coordinates|
      ensures r == Inner(coordinates, other.coordinates)
    {
      r := 0.0;
      var i := 0;
      while i < |coordinates|
        invariant 0 <= i <= |coordinates|
        invariant r == Inner(coordinates[..i], other.coordinates)
      {
        assert coordinates[..i + 1][..i] == coordinates[..i];
        r := r + coordinates[i] * other.coordinates[i];
        i := i + 1;
      }
      assert coordinates[..i] == coordinates;
    }

    /** `dist_sqr` */
    method DistSqr(other: Point) returns (r: real)
      requires |other.coordinates| >= |coordinates|
      ensures r == SqDist(coordinates, other.coordinates)
      ensures r >= 0.0
    {
      r := 0.0;
      var i := 0;
      while i < |coordinates|
        invariant 0 <= i <= |coordinates|
        invariant r == SqDist(coordinates[..i], other.coordinates)
      {
        assert coordinates[..i + 1][..i] == coordinates[..i];
        var distsigned := coordinates[i] - other.coordinates[i];
        r := r + distsigned * distsigned;
        i := i + 1;
      }
      assert coordinates[..i] == coordinates;
      SqDistNonNegative(coordinates, other.coordinates);
    }

    /** `length_sqr` */
    method LengthSqr() returns (r: real)
      ensures r == SqLength(coordinates)
      ensures r == Inner(coordinates, coordinates)
    {
      r := 0.0;
      var i := 0;
      while i < |coordinates|
        invariant 0 <= i <= |coordinates|
        invariant r == SqLength(coordinates[..i])
      {
        assert coordinates[..i + 1][..i] == coordinates[..i];
        r := r + coordinates[i] * coordinates[i];
        i := i + 1;
      }
      assert coordinates[..i] == coordinates;
      SqLengthIsInner(coordinates);
    }
  }
}
