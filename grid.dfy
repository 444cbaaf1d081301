/**
 * `include/grid.hpp`: `Grid::build_cube_grid`, the points of a cube grid around a point
 * `p`.  Each axis holds `2h` evenly spaced coordinates, `h` below zero and `h` from zero
 * up, and the points are all `d`-tuples of axis coordinates shifted by `p`, enumerated by
 * a mixed-radix counter ("odometer") whose first digit runs fastest.
 */
module CubeGrid {

  import opened Points
  import opened Arith

  /** `std::ceil(edge_length / width)`: the number of grid steps on each side of zero. */
  function HalfCount(edgeLength: real, width: real): (h: nat)
    requires width > 0.0 && edgeLength >= 0.0
    ensures (h as real) - 1.0 < edgeLength / width <= h as real
  {
    var x := edgeLength / width;
    if x.Floor as real == x then x.Floor else x.Floor + 1
  }

  /** The intended axis coordinate at position `k`: `(k - h) * width`, from `-h * width` up to `(h - 1) * width`. */
  function AxisValue(h: nat, width: real, k: nat): real
  {
    ((k as int - h) as real) * width
  }

  /**
   * The axis coordinate as written: below position `h` the step count `h - k` is a
   * `size_t`, and its negation wraps around to `2^64 - (h - k)` before it is multiplied.
   */
  function AxisValueAsWritten(h: nat, width: real, k: nat): real
  {
    if k < h then (SizeSub(0, h - k) as real) * width else ((k - h) as real) * width
  }

  /** The axis loop as written: the lower half is filled with the wrapped negation. */
  method AxisAsWritten(h: nat, width: real) returns (axis: array<real>)
    ensures fresh(axis) && axis.Length == 2 * h
    ensures forall k :: 0 <= k < 2 * h ==> axis[k] == AxisValueAsWritten(h, width, k)
  {
    axis := new real[2 * h];
    var i := 0;
    while i < h
      invariant i <= h
      invariant forall k :: (0 <= k < i || h <= k < h + i) ==> axis[k] == AxisValueAsWritten(h, width, k)
    {
      axis[i] := (SizeSub(0, h - i) as real) * width;
      axis[h + i] := (i as real) * width;
      assert axis[i] == AxisValueAsWritten(h, width, i);
      assert axis[h + i] == AxisValueAsWritten(h, width, h + i);
      i := i + 1;
    }
  }

  /** The axis loop as intended: `2h` coordinates spaced `width` apart, `h` of them negative. */
  method Axis(h: nat, width: real) returns (axis: array<real>)
    ensures fresh(axis) && axis.Length == 2 * h
    ensures forall k :: 0 <= k < 2 * h ==> axis[k] == AxisValue(h, width, k)
  {
    axis := new real[2 * h];
    var i := 0;
    while i < h
      invariant i <= h
      invariant forall k :: (0 <= k < i || h <= k < h + i) ==> axis[k] == AxisValue(h, width, k)
    {
      axis[i] := -((h - i) as real) * width;
      axis[h + i] := (i as real) * width;
      assert axis[i] == AxisValue(h, width, i);
      assert axis[h + i] == AxisValue(h, width, h + i);
      i := i + 1;
    }
  }

  /**
   * The wrapped negation puts the lowest axis coordinate far above zero instead of below
   * it: with `h >= 1` and a positive width the written axis starts above its middle entry
   * 0, where the intended one starts at `-h * width`.
   */
  lemma AxisNegationWraps(h: nat, width: real)
    requires 1 <= h < SizeMax && width > 0.0
    ensures AxisValueAsWritten(h, width, 0) == ((SizeMax - h) as real) * width
    ensures AxisValueAsWritten(h, width, h) == 0.0 < AxisValueAsWritten(h, width, 0)
    ensures AxisValue(h, width, 0) == -(h as real) * width < 0.0
  {
    assert SizeSub(0, h) == SizeMax - h;
  }

  /** The intended axis is strictly increasing: each coordinate is `width` above the previous one. */
  lemma AxisIncreasing(h: nat, width: real, k: nat)
    requires width > 0.0
    ensures AxisValue(h, width, k + 1) == AxisValue(h, width, k) + width
  {
  }

  /** The number a digit list stands for, the first digit the least significant, in base `b`. */
  function Value(c: seq<nat>, b: nat): nat
  {
    if |c| == 0 then 0 else c[0] + b * Value(c[1..], b)
  }

  /** Every digit is below the base. */
  predicate Digits(c: seq<nat>, b: nat)
  {
    forall t :: 0 <= t < |c| ==> c[t] < b
  }

  function Zeros(k: nat): (r: seq<nat>)
    ensures |r| == k && forall t :: 0 <= t < k ==> r[t] == 0
  {
    seq(k, t => 0)
  }

  /** One odometer step: the first digit below `b - 1` is incremented and every digit before it reset to 0. */
  function Next(c: seq<nat>, b: nat): (r: seq<nat>)
    ensures |r| == |c|
  {
    if |c| == 0 then []
    else if c[0] + 1 < b then [c[0] + 1] + c[1..]
    else [0] + Next(c[1..], b)
  }

  /** A digit list is below `b` to the power of its length. */
  lemma {:induction false} ValueBound(c: seq<nat>, b: nat)
    requires Digits(c, b)
    ensures Value(c, b) < Pow(b, |c|)
  {
    if |c| > 0 {
      ValueBound(c[1..], b);
      var v, q := Value(c[1..], b), Pow(b, |c| - 1);
      assert Value(c, b) == c[0] + b * v && Pow(b, |c|) == b * q;
      MulLe(b, v + 1, q);
      MulSucc(b, v);
    }
  }

  /**
   * A carry step: a first digit at its largest with a successor in range resets to 0 and
   * the rest of the list, also with a successor in range, takes the step.
   */
  lemma CarryStep(c: seq<nat>, b: nat)
    requires |c| >= 1 && Digits(c, b) && c[0] + 1 >= b && Value(c, b) + 1 < Pow(b, |c|)
    ensures Next(c, b) == [0] + Next(c[1..], b)
    ensures Value(c[1..], b) + 1 < Pow(b, |c| - 1)
  {
    var v, q := Value(c[1..], b), Pow(b, |c| - 1);
    assert Value(c, b) == (b - 1) + b * v && Pow(b, |c|) == b * q;
    MulSucc(b, v);
    MulLtCancel(b, v + 1, q);
  }

  /** An odometer step adds one to the value and keeps every digit below the base. */
  lemma {:induction false} NextValue(c: seq<nat>, b: nat)
    requires Digits(c, b) && Value(c, b) + 1 < Pow(b, |c|)
    ensures Digits(Next(c, b), b) && Value(Next(c, b), b) == Value(c, b) + 1
  {
    if |c| > 0 && c[0] + 1 >= b {
      CarryStep(c, b);
      var v := Value(c[1..], b);
      NextValue(c[1..], b);
      var r := Next(c, b);
      assert r == [0] + Next(c[1..], b) && r[1..] == Next(c[1..], b);
      assert Value(r, b) == b * (v + 1);
      MulSucc(b, v);
    } else if |c| > 0 {
      var r := Next(c, b);
      assert r[0] == c[0] + 1 && r[1..] == c[1..];
    }
  }

  /** Equal values of digit lists of one length are equal lists: the representation is unique. */
  lemma {:induction false} ValueInjective(c1: seq<nat>, c2: seq<nat>, b: nat)
    requires Digits(c1, b) && Digits(c2, b) && |c1| == |c2| && Value(c1, b) == Value(c2, b)
    ensures c1 == c2
  {
    if |c1| > 0 {
      var v1, v2 := Value(c1[1..], b), Value(c2[1..], b);
      assert Value(c1, b) == c1[0] + b * v1 && Value(c2, b) == c2[0] + b * v2;
      if v1 < v2 {
        MulSucc(b, v1);
        MulLe(b, v1 + 1, v2);
        assert false;
      } else if v2 < v1 {
        MulSucc(b, v2);
        MulLe(b, v2 + 1, v1);
        assert false;
      }
      ValueInjective(c1[1..], c2[1..], b);
      assert c1 == [c1[0]] + c1[1..] && c2 == [c2[0]] + c2[1..];
    }
  }

  /** The counter after `i` odometer steps from all zeros. */
  function Counter(i: nat, b: nat, k: nat): (c: seq<nat>)
    ensures |c| == k
  {
    if i == 0 then Zeros(k) else Next(Counter(i - 1, b, k), b)
  }

  /** The counter after `i` steps, below `b^k`, is the base-`b` representation of `i`. */
  lemma {:induction false} CounterValue(i: nat, b: nat, k: nat)
    requires i < Pow(b, k)
    ensures Digits(Counter(i, b, k), b) && Value(Counter(i, b, k), b) == i
  {
    if i == 0 {
      ZerosValue(k, b);
    } else {
      CounterValue(i - 1, b, k);
      NextValue(Counter(i - 1, b, k), b);
    }
  }

  lemma {:induction false} ZerosValue(k: nat, b: nat)
    requires Pow(b, k) >= 1
    ensures Digits(Zeros(k), b) && Value(Zeros(k), b) == 0
  {
    if k > 0 {
      assert Zeros(k)[1..] == Zeros(k - 1);
      assert Pow(b, k) == b * Pow(b, k - 1);
      ZerosValue(k - 1, b);
    }
  }

  /**
   * The odometer enumerates every digit tuple exactly once: the steps `0..b^k-1` give
   * pairwise different counters, and every tuple of `k` digits below `b` is the counter
   * after as many steps as its value.
   */
  lemma EveryTupleOnce(b: nat, k: nat)
    ensures forall i, j :: 0 <= i < j < Pow(b, k) ==> Counter(i, b, k) != Counter(j, b, k)
    ensures forall c :: |c| == k && Digits(c, b) ==> Value(c, b) < Pow(b, k) && Counter(Value(c, b), b, k) == c
  {
    forall i, j | 0 <= i < j < Pow(b, k)
      ensures Counter(i, b, k) != Counter(j, b, k)
    {
      CounterValue(i, b, k);
      CounterValue(j, b, k);
    }
    forall c | |c| == k && Digits(c, b)
      ensures Value(c, b) < Pow(b, k) && Counter(Value(c, b), b, k) == c
    {
      ValueBound(c, b);
      CounterValue(Value(c, b), b, k);
      ValueInjective(Counter(Value(c, b), b, k), c, b);
    }
  }

  /**
   * The carry loop after `j` digits: they were all at their largest and are now 0, the
   * rest of the counter is untouched, and a digit to increment is still ahead.
   */
  ghost predicate CarryState(counter: seq<nat>, c0: seq<nat>, b: nat, j: nat)
  {
    j < |c0| && |counter| == |c0| && counter == Zeros(j) + c0[j..] &&
    Next(c0, b) == Zeros(j) + Next(c0[j..], b) &&
    Digits(c0[j..], b) && Value(c0[j..], b) + 1 < Pow(b, |c0| - j)
  }

  lemma CarryStart(c0: seq<nat>, b: nat)
    requires Digits(c0, b) && Value(c0, b) + 1 < Pow(b, |c0|)
    ensures CarryState(c0, c0, b, 0)
  {
    assert Zeros(0) + c0[0..] == c0 && Zeros(0) + Next(c0[0..], b) == Next(c0, b);
  }

  /** A digit at its largest: it becomes 0 and the carry moves on. */
  lemma CarryMove(counter: seq<nat>, c0: seq<nat>, b: nat, j: nat)
    requires CarryState(counter, c0, b, j) && counter[j] + 1 >= b
    ensures CarryState(counter[j := 0], c0, b, j + 1)
  {
    var rest := c0[j..];
    assert counter[j] == rest[0];
    CarryStep(rest, b);
    assert rest[1..] == c0[j + 1..];
    assert Zeros(j) + [0] == Zeros(j + 1);
    assert Zeros(j) + Next(rest, b) == Zeros(j + 1) + Next(c0[j + 1..], b);
    assert counter[j := 0] == Zeros(j + 1) + c0[j + 1..];
  }

  /** A digit below its largest: incrementing it completes the step. */
  lemma CarryStop(counter: seq<nat>, c0: seq<nat>, b: nat, j: nat)
    requires CarryState(counter, c0, b, j) && counter[j] + 1 < b
    ensures counter[j := counter[j] + 1] == Next(c0, b)
  {
    var rest := c0[j..];
    assert counter[j] == rest[0];
    assert Next(rest, b) == [rest[0] + 1] + rest[1..];
  }

  /**
   * The odometer step of point `i` of `n`: its guard, a comma expression, tests only
   * `i < n - 1`, so the step runs on every point but the last and stops by `break`; it
   * never reads past the counter because a counter below `n - 1` has a digit to increment.
   */
  method Advance(counter: array<nat>, b: nat, i: nat, n: nat)
    requires n == Pow(b, counter.Length) && i < n
    requires Digits(counter[..], b) && Value(counter[..], b) == i
    modifies counter
    ensures i < n - 1 ==> counter[..] == Next(old(counter[..]), b)
    ensures i == n - 1 ==> counter[..] == old(counter[..])
  {
    ghost var c0 := counter[..];
    ghost var stepping := i < n - 1;
    if stepping {
      CarryStart(c0, b);
    }
    var j := 0;
    while i < n - 1
      invariant stepping == (i < n - 1)
      invariant if stepping then CarryState(counter[..], c0, b, j) else counter[..] == c0
      decreases counter.Length - j
    {
      var stop := CarryDigit(counter, c0, b, j);
      if stop {
        break;
      }
      j := j + 1;
    }
  }

  /** One digit of the step: increment it if it is below its largest, else clear it and carry on. */
  method CarryDigit(counter: array<nat>, ghost c0: seq<nat>, b: nat, j: nat) returns (stop: bool)
    requires CarryState(counter[..], c0, b, j)
    modifies counter
    ensures stop == (old(counter[j]) + 1 < b)
    ensures stop ==> counter[..] == Next(c0, b)
    ensures !stop ==> CarryState(counter[..], c0, b, j + 1)
  {
    ghost var current := counter[..];
    stop := counter[j] + 1 < b;
    if stop {
      CarryStop(current, c0, b, j);
      counter[j] := counter[j] + 1;
      assert counter[..] == current[j := current[j] + 1];
    } else {
      CarryMove(current, c0, b, j);
      counter[j] := 0;
      assert counter[..] == current[j := 0];
    }
  }

  /** The grid point a counter selects: each coordinate from the axis, shifted by `p`. */
  function GridPoint(h: nat, width: real, p: Coords, c: seq<nat>): (q: Coords)
    requires |c| == |p|
    ensures |q| == |p| && forall j :: 0 <= j < |p| ==> q[j] == AxisValue(h, width, c[j]) + p[j]
  {
    Add(seq(|c|, j requires 0 <= j < |c| => AxisValue(h, width, c[j])), p)
  }

  /** The coordinates of one grid point: `P[i][j] = coord1d[counter[j]]`, then `P[i] += p`. */
  method PointAt(counter: array<nat>, axis: array<real>, p: Coords, ghost h: nat, ghost width: real)
    returns (q: Coords)
    requires counter.Length == |p| && axis.Length == 2 * h
    requires forall k :: 0 <= k < 2 * h ==> axis[k] == AxisValue(h, width, k)
    requires Digits(counter[..], 2 * h)
    ensures q == GridPoint(h, width, p, counter[..])
  {
    var coords: seq<real> := [];
    var j := 0;
    while j < counter.Length
      invariant j <= counter.Length && |coords| == j
      invariant forall t :: 0 <= t < j ==> coords[t] == AxisValue(h, width, counter[t])
    {
      coords := coords + [axis[counter[j]]];
      j := j + 1;
    }
    q := Add(coords, p);
  }

  /** The axis holds the intended coordinates. */
  ghost predicate AxisHolds(axis: seq<real>, h: nat, width: real)
  {
    |axis| == 2 * h && forall k :: 0 <= k < 2 * h ==> axis[k] == AxisValue(h, width, k)
  }

  /** The first `i` grid points are in place: point `k` is the one the counter after `k` steps selects. */
  ghost predicate Emitted(points: seq<Coords>, i: nat, h: nat, width: real, p: Coords)
  {
    i <= |points| && forall k :: 0 <= k < i ==> points[k] == GridPoint(h, width, p, Counter(k, 2 * h, |p|))
  }

  /**
   * `build_cube_grid`: `(2h)^d` points, point `i` lying at the axis coordinates the
   * counter after `i` odometer steps selects, shifted by `p`.  By `EveryTupleOnce` these
   * are all tuples of axis coordinates, each once.
   */
  method BuildCubeGrid(p: Coords, width: real, edgeLength: real) returns (points: array<Coords>)
    requires width > 0.0 && edgeLength >= 0.0
    ensures fresh(points)
    ensures points.Length == Pow(2 * HalfCount(edgeLength, width), |p|)
    ensures Emitted(points[..], points.Length, HalfCount(edgeLength, width), width, p)
  {
    var h := HalfCount(edgeLength, width);
    var b := 2 * h;
    var n := Pow(b, |p|);
    var axis := Axis(h, width);
    points := new Coords[n];
    var counter := new nat[|p|](_ => 0);
    assert counter[..] == Counter(0, b, |p|);
    var i := 0;
    while i < n
      invariant i <= n && points.Length == n && counter.Length == |p| && AxisHolds(axis[..], h, width)
      invariant i < n ==> counter[..] == Counter(i, b, |p|)
      invariant Emitted(points[..], i, h, width, p)
    {
      CounterValue(i, b, |p|);
      var q := PointAt(counter, axis, p, h, width);
      points[i] := q;
      Advance(counter, b, i, n);
      i := i + 1;
    }
  }
}
