/**
 * The Fréchet distance routines of src/frechet.cpp.
 *
 * The routines only ever look at the two curves through their lengths and the squared
 * distance `curve1[i].dist_sqr(curve2[j])` of pairs of points, so they are modelled on a
 * `CurvePair` that carries exactly that; `PairOf` builds it from two curves of `Points`.
 * Distances are compared squared, as the C++ code does; the final `sqrt` is not modelled,
 * so the discrete distance and the greedy bound below are squared values.  The bisection
 * (`_distance`) works on plain distances, and the free intervals `intersection_interval`
 * reports for a distance are supplied by an oracle (`FreeSpace`).
 */
module Frechet {

  import opened Points
  import opened ExtReals
  import opened Arith
  import opened Intervals

  /**
   * Two curves of `len1` and `len2` points, seen through the squared distances of their
   * points: `dsq(i, j)` is `curve1[i].dist_sqr(curve2[j])`.
   */
  datatype CurvePair = CurvePair(len1: nat, len2: nat, dsq: (nat, nat) -> real) {

    /** Both curves have a point. */
    predicate Valid()
    {
      len1 >= 1 && len2 >= 1
    }

    /** Squared distances are never negative. */
    predicate NonNegative()
    {
      forall i, j :: 0 <= i < len1 && 0 <= j < len2 ==> dsq(i, j) >= 0.0
    }

    /** `curve1[i].dist_sqr(curve2[j])` */
    function D(i: nat, j: nat): real
      requires i < len1 && j < len2
    {
      dsq(i, j)
    }
  }

  /** Every point of `c` has `d` coordinates. */
  predicate HasDim(c: Curve, d: nat)
  {
    forall i :: 0 <= i < |c| ==> |c[i]| == d
  }

  /** Two non-empty curves whose points all have the same dimension. */
  predicate Comparable(c1: Curve, c2: Curve)
  {
    |c1| >= 1 && |c2| >= 1 && HasDim(c1, |c1[0]|) && HasDim(c2, |c1[0]|)
  }

  /** The pairwise squared distances of two curves of points. */
  function PairOf(c1: Curve, c2: Curve): (p: CurvePair)
    ensures p.len1 == |c1| && p.len2 == |c2|
    ensures forall i, j :: 0 <= i < |c1| && 0 <= j < |c2| && |c1[i]| == |c2[j]| ==>
      p.dsq(i, j) == SqDist(c1[i], c2[j])
  {
    CurvePair(|c1|, |c2|, (i: nat, j: nat) =>
      if i < |c1| && j < |c2| && |c1[i]| <= |c2[j]| then SqDist(c1[i], c2[j]) else 0.0)
  }

  /** Two comparable curves make a valid pair, and `dist_sqr` is never negative. */
  lemma PairOfValid(c1: Curve, c2: Curve)
    requires Comparable(c1, c2)
    ensures PairOf(c1, c2).Valid() && PairOf(c1, c2).NonNegative()
  {
    forall i, j | 0 <= i < |c1| && 0 <= j < |c2|
      ensures PairOf(c1, c2).dsq(i, j) >= 0.0
    {
      SqDistNonNegative(c1[i], c2[j]);
    }
  }

  /** `q` holds the distances of `p` with the curves swapped: the same two curves in the other order. */
  predicate Transposed(p: CurvePair, q: CurvePair)
  {
    q.len1 == p.len2 && q.len2 == p.len1 &&
    forall i, j :: 0 <= i < p.len1 && 0 <= j < p.len2 ==> q.dsq(j, i) == p.dsq(i, j)
  }

  /** Passing two curves in the other order transposes their distances. */
  lemma {:induction false} PairOfTransposed(c1: Curve, c2: Curve)
    requires Comparable(c1, c2)
    ensures Transposed(PairOf(c1, c2), PairOf(c2, c1))
  {
    forall i, j | 0 <= i < |c1| && 0 <= j < |c2|
      ensures PairOf(c2, c1).dsq(j, i) == PairOf(c1, c2).dsq(i, j)
    {
      SqDistSymmetric(c1[i], c2[j]);
    }
  }

  // =================================================================================
  // Discrete Fréchet distance: `Discrete::_dp` and `Discrete::distance`.

  /**
   * The squared discrete Fréchet distance of the prefixes of `i + 1` and `j + 1` points,
   * by the recurrence `_dp` evaluates.
   */
  function PrefixDist(p: CurvePair, i: nat, j: nat): real
    requires i < p.len1 && j < p.len2
    decreases i + j
  {
    if i == 0 && j == 0 then p.D(0, 0)
    else if j == 0 then RMax(PrefixDist(p, i - 1, 0), p.D(i, 0))
    else if i == 0 then RMax(PrefixDist(p, 0, j - 1), p.D(0, j))
    else
      RMax(RMin(RMin(PrefixDist(p, i - 1, j), PrefixDist(p, i - 1, j - 1)),
                PrefixDist(p, i, j - 1)),
           p.D(i, j))
  }

  /** The squared discrete Fréchet distance of the two whole curves. */
  function DiscreteDist(p: CurvePair): real
    requires p.Valid()
  {
    PrefixDist(p, p.len1 - 1, p.len2 - 1)
  }

  /** Every coupling of the prefixes pairs their first and their last points. */
  lemma {:induction false} PrefixDistCoversEnds(p: CurvePair, i: nat, j: nat)
    requires i < p.len1 && j < p.len2
    ensures PrefixDist(p, i, j) >= p.D(i, j)
    ensures PrefixDist(p, i, j) >= p.D(0, 0)
    decreases i + j
  {
    forall i': nat, j': nat | i' <= i && j' <= j && i' + j' < i + j
      ensures PrefixDist(p, i', j') >= p.D(0, 0)
    {
      PrefixDistCoversEnds(p, i', j');
    }
  }


  /** The prefix distance does not depend on the order of the curves. */
  lemma {:induction false} PrefixDistSymmetric(p: CurvePair, q: CurvePair, i: nat, j: nat)
    requires Transposed(p, q) && i < p.len1 && j < p.len2
    ensures PrefixDist(p, i, j) == PrefixDist(q, j, i)
    decreases i + j
  {
    forall i': nat, j': nat | i' <= i && j' <= j && i' + j' < i + j
      ensures PrefixDist(p, i', j') == PrefixDist(q, j', i')
    {
      PrefixDistSymmetric(p, q, i', j');
    }
    if i > 0 && j > 0 {
      SymmetricStep(p, q, i, j);
    }
  }

  /** The inductive step of `PrefixDistSymmetric` at an interior cell. */
  lemma SymmetricStep(p: CurvePair, q: CurvePair, i: nat, j: nat)
    requires Transposed(p, q) && 0 < i < p.len1 && 0 < j < p.len2
    requires PrefixDist(p, i - 1, j) == PrefixDist(q, j, i - 1)
    requires PrefixDist(p, i - 1, j - 1) == PrefixDist(q, j - 1, i - 1)
    requires PrefixDist(p, i, j - 1) == PrefixDist(q, j - 1, i)
    ensures PrefixDist(p, i, j) == PrefixDist(q, j, i)
  {
    var x, y, z := PrefixDist(p, i - 1, j), PrefixDist(p, i - 1, j - 1), PrefixDist(p, i, j - 1);
    assert PrefixDist(q, j, i) == RMax(RMin(RMin(z, y), x), p.D(i, j));
    assert RMin(RMin(x, y), z) == RMin(RMin(z, y), x);
  }

  /** The discrete Fréchet distance of two curves does not depend on their order. */
  lemma DiscreteDistSymmetric(c1: Curve, c2: Curve)
    requires Comparable(c1, c2)
    ensures PairOf(c1, c2).Valid() && PairOf(c2, c1).Valid()
    ensures DiscreteDist(PairOf(c1, c2)) == DiscreteDist(PairOf(c2, c1))
  {
    PairOfTransposed(c1, c2);
    PrefixDistSymmetric(PairOf(c1, c2), PairOf(c2, c1), |c1| - 1, |c2| - 1);
  }

  /**
   * One step of a coupling (advance the first curve, the second, or both) raises the
   * prefix distance to at most the larger of its old value and the new pair's distance.
   */
  lemma StepBound(p: CurvePair, i: nat, j: nat, i': nat, j': nat)
    requires i' < p.len1 && j' < p.len2
    requires (i', j') == (i + 1, j) || (i', j') == (i, j + 1) || (i', j') == (i + 1, j + 1)
    ensures PrefixDist(p, i', j') <= RMax(PrefixDist(p, i, j), p.D(i', j'))
  {
  }

  /** The memo table holds `-1` ("not yet computed") or the correct prefix distance. */
  ghost predicate MemoSound(a: array2<real>, p: CurvePair)
    reads a
  {
    a.Length0 == p.len1 && a.Length1 == p.len2 &&
    forall x, y :: 0 <= x < a.Length0 && 0 <= y < a.Length1 && a[x, y] > -1.0 ==>
      a[x, y] == PrefixDist(p, x, y)
  }

  /**
   * `_dp`: the memoised recursion.  Only interior cells (`i > 0 && j > 0`) are stored; the
   * first row and column are recomputed on every visit, as in the C++ code.  The `-1`
   * sentinel is sound because squared distances are never negative.
   */
  method Dp(a: array2<real>, i: nat, j: nat, p: CurvePair) returns (r: real)
    requires p.Valid() && p.NonNegative() && i < p.len1 && j < p.len2
    requires MemoSound(a, p)
    modifies a
    ensures MemoSound(a, p)
    ensures r == PrefixDist(p, i, j)
    decreases i + j, 1
  {
    if a[i, j] > -1.0 {
      r := a[i, j];
    } else if i == 0 && j == 0 {
      r := p.D(i, j);
    } else if i > 0 && j == 0 {
      var x := Dp(a, i - 1, 0, p);
      r := RMax(x, p.D(i, j));
    } else if i == 0 && j > 0 {
      var x := Dp(a, 0, j - 1, p);
      r := RMax(x, p.D(i, j));
    } else {
      r := DpInterior(a, i, j, p);
    }
  }

  /** The interior case of `_dp`: combine the three predecessors and store the result. */
  method DpInterior(a: array2<real>, i: nat, j: nat, p: CurvePair) returns (r: real)
    requires p.Valid() && p.NonNegative() && 0 < i < p.len1 && 0 < j < p.len2
    requires MemoSound(a, p)
    modifies a
    ensures MemoSound(a, p)
    ensures r == PrefixDist(p, i, j)
    decreases i + j, 0
  {
    var x := Dp(a, i - 1, j, p);
    var y := Dp(a, i - 1, j - 1, p);
    var z := Dp(a, i, j - 1, p);
    r := RMax(RMin(RMin(x, y), z), p.D(i, j));
    PrefixDistInterior(p, i, j, x, y, z);
    Memoise(a, i, j, p, r);
  }

  /** An interior cell combines its three predecessors as the recurrence says. */
  lemma PrefixDistInterior(p: CurvePair, i: nat, j: nat, x: real, y: real, z: real)
    requires 0 < i < p.len1 && 0 < j < p.len2
    requires x == PrefixDist(p, i - 1, j) && y == PrefixDist(p, i - 1, j - 1) && z == PrefixDist(p, i, j - 1)
    ensures PrefixDist(p, i, j) == RMax(RMin(RMin(x, y), z), p.D(i, j))
  {
  }

  /** Stores a computed prefix distance in the table. */
  method Memoise(a: array2<real>, i: nat, j: nat, p: CurvePair, r: real)
    requires p.Valid() && p.NonNegative() && i < p.len1 && j < p.len2
    requires MemoSound(a, p) && r == PrefixDist(p, i, j)
    modifies a
    ensures MemoSound(a, p)
  {
    PrefixDistCoversEnds(p, i, j);
    a[i, j] := r;
  }

  /** `Discrete::distance` (squared): a fresh table of `-1` entries, then `_dp` at the far corner. */
  method DiscreteDistance(p: CurvePair) returns (r: real)
    requires p.Valid() && p.NonNegative()
    ensures r == DiscreteDist(p)
    ensures r >= p.D(0, 0) && r >= p.D(p.len1 - 1, p.len2 - 1)
  {
    var a := NewMemo(p);
    r := Dp(a, p.len1 - 1, p.len2 - 1, p);
    PrefixDistCoversEnds(p, p.len1 - 1, p.len2 - 1);
  }

  /** The table of `distance`: every entry `-1`, so nothing is memoised yet. */
  method NewMemo(p: CurvePair) returns (a: array2<real>)
    ensures fresh(a) && MemoSound(a, p)
    ensures forall x, y :: 0 <= x < a.Length0 && 0 <= y < a.Length1 ==> a[x, y] == -1.0
  {
    a := new real[p.len1, p.len2]((x, y) => -1.0);
  }

  // ---------------------------------------------------------------------------------
  // The values the unit tests expect, on one-dimensional curves.

  /** A one-dimensional curve through the given values. */
  function Line(xs: seq<real>): (c: Curve)
    ensures |c| == |xs|
    ensures forall i :: 0 <= i < |xs| ==> c[i] == [xs[i]]
  {
    seq(|xs|, i requires 0 <= i < |xs| => [xs[i]])
  }

  /** On one-dimensional curves the squared distance is the squared difference. */
  lemma LineDist(xs: seq<real>, ys: seq<real>)
    requires |xs| >= 1 && |ys| >= 1
    ensures Comparable(Line(xs), Line(ys)) && PairOf(Line(xs), Line(ys)).Valid()
    ensures forall i, j :: 0 <= i < |xs| && 0 <= j < |ys| ==>
      PairOf(Line(xs), Line(ys)).dsq(i, j) == (xs[i] - ys[j]) * (xs[i] - ys[j])
  {
    PairOfValid(Line(xs), Line(ys));
    forall i, j | 0 <= i < |xs| && 0 <= j < |ys|
      ensures PairOf(Line(xs), Line(ys)).dsq(i, j) == (xs[i] - ys[j]) * (xs[i] - ys[j])
    {
      var p, q := Line(xs)[i], Line(ys)[j];
      assert p == [xs[i]] && q == [ys[j]];
      assert SqDist(p[..0], q) == 0.0;
      assert SqDist(p, q) == (p[0] - q[0]) * (p[0] - q[0]);
    }
  }

  /** `[0, 1, 0, 1]` against `[0, 0.75, 0.25, 1]`: distance 0.25, squared 0.0625. */
  lemma ZigzagExample()
    ensures PairOf(Line([0.0, 1.0, 0.0, 1.0]), Line([0.0, 0.75, 0.25, 1.0])).Valid()
    ensures DiscreteDist(PairOf(Line([0.0, 1.0, 0.0, 1.0]), Line([0.0, 0.75, 0.25, 1.0]))) == 0.0625
  {
    var xs, ys := [0.0, 1.0, 0.0, 1.0], [0.0, 0.75, 0.25, 1.0];
    LineDist(xs, ys);
    var p := PairOf(Line(xs), Line(ys));
    assert PrefixDist(p, 0, 0) == 0.0;
    assert PrefixDist(p, 0, 1) == 0.5625;
    assert PrefixDist(p, 0, 2) == 0.5625;
    assert PrefixDist(p, 0, 3) == 1.0;
    assert PrefixDist(p, 1, 0) == 1.0;
    assert PrefixDist(p, 1, 1) == 0.0625;
    assert PrefixDist(p, 1, 2) == 0.5625;
    assert PrefixDist(p, 1, 3) == 0.5625;
    assert PrefixDist(p, 2, 0) == 1.0;
    assert PrefixDist(p, 2, 1) == 0.5625;
    assert PrefixDist(p, 2, 2) == 0.0625;
    assert PrefixDist(p, 2, 3) == 1.0;
    assert PrefixDist(p, 3, 0) == 1.0;
    assert PrefixDist(p, 3, 1) == 0.5625;
    assert PrefixDist(p, 3, 2) == 0.5625;
    assert PrefixDist(p, 3, 3) == 0.0625;
  }

  /** `[0, 1, 0, 1]` against the segment `[0, 1]`: distance 1. */
  lemma SegmentExample()
    ensures PairOf(Line([0.0, 1.0, 0.0, 1.0]), Line([0.0, 1.0])).Valid()
    ensures DiscreteDist(PairOf(Line([0.0, 1.0, 0.0, 1.0]), Line([0.0, 1.0]))) == 1.0
  {
    var xs, ys := [0.0, 1.0, 0.0, 1.0], [0.0, 1.0];
    LineDist(xs, ys);
    var p := PairOf(Line(xs), Line(ys));
    assert PrefixDist(p, 0, 0) == 0.0;
    assert PrefixDist(p, 0, 1) == 1.0;
    assert PrefixDist(p, 1, 0) == 1.0;
    assert PrefixDist(p, 1, 1) == 0.0;
    assert PrefixDist(p, 2, 0) == 1.0;
    assert PrefixDist(p, 2, 1) == 1.0;
    assert PrefixDist(p, 3, 0) == 1.0;
    assert PrefixDist(p, 3, 1) == 1.0;
  }

  /** `[0, 5e5, 1e6]` against `[0, 1e6]`: distance 5e5, squared 2.5e11. */
  lemma LongSegmentExample()
    ensures PairOf(Line([0.0, 500000.0, 1000000.0]), Line([0.0, 1000000.0])).Valid()
    ensures DiscreteDist(PairOf(Line([0.0, 500000.0, 1000000.0]), Line([0.0, 1000000.0]))) == 250000000000.0
  {
    var xs, ys := [0.0, 500000.0, 1000000.0], [0.0, 1000000.0];
    LineDist(xs, ys);
    var p := PairOf(Line(xs), Line(ys));
    assert PrefixDist(p, 0, 0) == 0.0;
    assert PrefixDist(p, 0, 1) == 1000000000000.0;
    assert PrefixDist(p, 1, 0) == 250000000000.0;
    assert PrefixDist(p, 1, 1) == 250000000000.0;
    assert PrefixDist(p, 2, 0) == 1000000000000.0;
    assert PrefixDist(p, 2, 1) == 250000000000.0;
  }

  // =================================================================================
  // `Continuous::_greedyUpperBound`: a greedy coupling of the two curves.

  /** Every pair of the walk indexes both curves. */
  predicate InRange(p: CurvePair, w: seq<(nat, nat)>)
  {
    forall k :: 0 <= k < |w| ==> w[k].0 < p.len1 && w[k].1 < p.len2
  }

  /**
   * One step of the greedy walk from `(i, j)`: while both curves have a next point it moves
   * to the closest of the three neighbours (first curve, second curve, both; ties in that
   * order); afterwards it walks the remaining points of whichever curve is left.
   */
  function Next(p: CurvePair, i: nat, j: nat): (n: (nat, nat))
    requires i < p.len1 && j < p.len2
    requires i < p.len1 - 1 || j < p.len2 - 1
    ensures n.0 < p.len1 && n.1 < p.len2
    ensures n == (i + 1, j) || n == (i, j + 1) || n == (i + 1, j + 1)
  {
    if i < p.len1 - 1 && j < p.len2 - 1 then
      var d1, d2, d3 := p.D(i + 1, j), p.D(i, j + 1), p.D(i + 1, j + 1);
      if d1 <= d2 && d1 <= d3 then (i + 1, j)
      else if d2 <= d1 && d2 <= d3 then (i, j + 1)
      else (i + 1, j + 1)
    else if i < p.len1 - 1 then (i + 1, j)
    else (i, j + 1)
  }

  /** The pairs the greedy walk visits from `(i, j)`, up to and including the last pair. */
  function Walk(p: CurvePair, i: nat, j: nat): (w: seq<(nat, nat)>)
    requires i < p.len1 && j < p.len2
    ensures |w| >= 1 && w[0] == (i, j) && w[|w| - 1] == (p.len1 - 1, p.len2 - 1)
    ensures InRange(p, w)
    decreases p.len1 + p.len2 - i - j
  {
    if i == p.len1 - 1 && j == p.len2 - 1 then [(i, j)]
    else
      var n := Next(p, i, j);
      [(i, j)] + Walk(p, n.0, n.1)
  }

  /** A coupling: consecutive pairs advance the first curve, the second curve, or both. */
  predicate Monotone(w: seq<(nat, nat)>)
  {
    forall k :: 0 <= k < |w| - 1 ==> Step(w[k], w[k + 1])
  }

  /** Pair `b` follows pair `a` by advancing the first curve, the second, or both. */
  predicate Step(a: (nat, nat), b: (nat, nat))
  {
    b == (a.0 + 1, a.1) || b == (a.0, a.1 + 1) || b == (a.0 + 1, a.1 + 1)
  }

  /** A step in front of a coupling gives a coupling. */
  lemma MonotoneCons(a: (nat, nat), w: seq<(nat, nat)>)
    requires |w| >= 1 && Step(a, w[0]) && Monotone(w)
    ensures Monotone([a] + w)
  {
    var v := [a] + w;
    forall k | 0 <= k < |v| - 1
      ensures Step(v[k], v[k + 1])
    {
      if k > 0 {
        assert v[k] == w[k - 1] && v[k + 1] == w[k];
      }
    }
  }

  /** The greedy walk is a coupling of the two curves. */
  lemma {:induction false} WalkMonotone(p: CurvePair, i: nat, j: nat)
    requires i < p.len1 && j < p.len2
    ensures Monotone(Walk(p, i, j))
    decreases p.len1 + p.len2 - i - j
  {
    if !(i == p.len1 - 1 && j == p.len2 - 1) {
      var n := Next(p, i, j);
      WalkMonotone(p, n.0, n.1);
      MonotoneCons((i, j), Walk(p, n.0, n.1));
    }
  }

  /**
   * The largest squared distance of the first `k` pairs of `w`, and 0 for none
   * (`result = 0`); a pair outside the curves contributes nothing.
   */
  function Bottleneck(p: CurvePair, w: seq<(nat, nat)>, k: nat): (r: real)
    requires k <= |w|
    ensures r >= 0.0
  {
    if k == 0 then 0.0
    else
      var q := w[k - 1];
      if q.0 < p.len1 && q.1 < p.len2 then RMax(Bottleneck(p, w, k - 1), p.D(q.0, q.1))
      else Bottleneck(p, w, k - 1)
  }

  /** The bottleneck of the first `k` pairs is at least the distance of each of them. */
  lemma {:induction false} BottleneckCovers(p: CurvePair, w: seq<(nat, nat)>, k: nat, m: nat)
    requires m < k <= |w| && w[m].0 < p.len1 && w[m].1 < p.len2
    ensures Bottleneck(p, w, k) >= p.D(w[m].0, w[m].1)
  {
    if m < k - 1 {
      BottleneckCovers(p, w, k - 1, m);
    }
  }

  /**
   * Along the greedy walk `w`, the prefix distance at any visited pair, together with the
   * walk's bottleneck, bounds the discrete Fréchet distance: a coupling's bottleneck is
   * never below the optimum.
   */
  lemma {:induction false} WalkBoundsPrefixDist(p: CurvePair, k: nat)
    requires p.Valid()
    requires k < |Walk(p, 0, 0)|
    ensures var w := Walk(p, 0, 0);
      RMax(PrefixDist(p, w[k].0, w[k].1), Bottleneck(p, w, |w|)) >= DiscreteDist(p)
    decreases |Walk(p, 0, 0)| - k
  {
    var w := Walk(p, 0, 0);
    if k < |w| - 1 {
      WalkBoundsPrefixDist(p, k + 1);
      WalkMonotone(p, 0, 0);
      assert Step(w[k], w[k + 1]);
      StepBound(p, w[k].0, w[k].1, w[k + 1].0, w[k + 1].1);
      BottleneckCovers(p, w, |w|, k + 1);
    }
  }

  /** The value the corrected greedy bound computes: the walk's bottleneck, final pair included. */
  function GreedyBound(p: CurvePair): real
    requires p.Valid()
  {
    var w := Walk(p, 0, 0);
    Bottleneck(p, w, |w|)
  }

  /**
   * The value `_greedyUpperBound` computes as written: the loops stop before visiting the
   * final pair, so its distance is never taken into the maximum.
   */
  function GreedyBoundAsWritten(p: CurvePair): real
    requires p.Valid()
  {
    var w := Walk(p, 0, 0);
    Bottleneck(p, w, |w| - 1)
  }

  /**
   * The corrected greedy bound is an upper bound of the squared discrete distance, which
   * bounds the continuous one, and it is never below the lower bound of `distance`.
   */
  lemma GreedyBoundIsUpperBound(p: CurvePair)
    requires p.Valid()
    ensures GreedyBound(p) >= DiscreteDist(p)
    ensures GreedyBound(p) >= RMax(p.D(0, 0), p.D(p.len1 - 1, p.len2 - 1))
  {
    var w := Walk(p, 0, 0);
    WalkBoundsPrefixDist(p, 0);
    BottleneckCovers(p, w, |w|, 0);
    BottleneckCovers(p, w, |w|, |w| - 1);
  }

  /**
   * The bound as written can fall below the lower bound `max(dist(first), dist(last))`:
   * for `[0, 10]` against `[0, 0]` the walk visits `(0,0), (0,1)` and stops, so the upper
   * bound is 0 while the lower bound is 10 (squared: 100).
   */
  lemma GreedyAsWrittenBelowLowerBound()
    ensures PairOf(Line([0.0, 10.0]), Line([0.0, 0.0])).Valid()
    ensures GreedyBoundAsWritten(PairOf(Line([0.0, 10.0]), Line([0.0, 0.0]))) == 0.0
    ensures PairOf(Line([0.0, 10.0]), Line([0.0, 0.0])).D(1, 1) == 100.0
  {
    var xs, ys := [0.0, 10.0], [0.0, 0.0];
    LineDist(xs, ys);
    var p := PairOf(Line(xs), Line(ys));
    assert Next(p, 0, 0) == (0, 1);
    assert Next(p, 0, 1) == (1, 1);
    assert Walk(p, 1, 1) == [(1, 1)];
    assert Walk(p, 0, 1) == [(0, 1), (1, 1)];
    var w := Walk(p, 0, 0);
    assert w == [(0, 0), (0, 1), (1, 1)];
    assert Bottleneck(p, w, 1) == 0.0;
    assert Bottleneck(p, w, 2) == 0.0;
  }

  /** The walk `w` from position `k` on is the greedy walk from `(i, j)`. */
  ghost predicate Suffix(p: CurvePair, w: seq<(nat, nat)>, k: nat, i: nat, j: nat)
    requires i < p.len1 && j < p.len2
  {
    k < |w| && w[k..] == Walk(p, i, j)
  }

  /**
   * `_greedyUpperBound` (squared, before the final `sqrt`), as written: the maximum over
   * every visited pair except the final one.  `i` and `j` never decrease and `i + j` grows
   * by at least one per step.
   */
  method GreedyUpperBoundAsWritten(p: CurvePair) returns (r: real)
    requires p.Valid()
    ensures r == GreedyBoundAsWritten(p)
  {
    ghost var w := Walk(p, 0, 0);
    var i, j;
    ghost var k;
    i, j, k, r := GreedyHead(p, w);
    i, k, r := GreedyTail1(p, w, k, i, j, r);
    r := GreedyTail2(p, w, k, i, j, r);
    GreedyBoundOfWalk(p, w);
  }

  lemma GreedyBoundOfWalk(p: CurvePair, w: seq<(nat, nat)>)
    requires p.Valid() && w == Walk(p, 0, 0)
    ensures |w| >= 1 && GreedyBoundAsWritten(p) == Bottleneck(p, w, |w| - 1)
  {
  }

  /**
   * The `while` loop of `_greedyUpperBound`: step along the walk while both curves are
   * short of their last point, taking each visited pair into the maximum.
   */
  method GreedyHead(p: CurvePair, ghost w: seq<(nat, nat)>) returns (i: nat, j: nat, ghost k: nat, r: real)
    requires p.Valid() && w == Walk(p, 0, 0)
    ensures (i == p.len1 - 1 || j == p.len2 - 1) && TailState(p, w, k, i, j, r)
  {
    k, r := 0, 0.0;
    var len1, len2 := p.len1, p.len2;
    i, j := 0, 0;
    while i < len1 - 1 && j < len2 - 1
      invariant i < len1 && j < len2
      invariant Suffix(p, w, k, i, j)
      invariant r == Bottleneck(p, w, k)
      decreases len1 + len2 - i - j
    {
      r := RMax(r, p.D(i, j));
      ghost var i0, j0 := i, j;
      i, j := GreedyStep(p, i, j);
      Visit(p, w, k, i0, j0, i, j);
      k := k + 1;
    }
  }

  /**
   * The body of the `while` loop of `_greedyUpperBound`: with both curves short of their
   * last point, step to the closest of the three neighbouring pairs.
   */
  method GreedyStep(p: CurvePair, i: nat, j: nat) returns (i2: nat, j2: nat)
    requires p.Valid() && i < p.len1 - 1 && j < p.len2 - 1
    ensures (i2, j2) == Next(p, i, j)
  {
    var dist1, dist2, dist3 := p.D(i + 1, j), p.D(i, j + 1), p.D(i + 1, j + 1);
    if dist1 <= dist2 && dist1 <= dist3 {
      i2, j2 := i + 1, j;
    } else if dist2 <= dist1 && dist2 <= dist3 {
      i2, j2 := i, j + 1;
    } else {
      i2, j2 := i + 1, j + 1;
    }
  }

  /**
   * The first `for` loop that ends `_greedyUpperBound`: with the second curve at its last
   * point, walk the remaining points of the first, leaving out the final pair.
   */
  method GreedyTail1(p: CurvePair, ghost w: seq<(nat, nat)>, ghost k0: nat, i0: nat, j: nat, r0: real)
    returns (i: nat, ghost k: nat, r: real)
    requires p.Valid() && (i0 == p.len1 - 1 || j == p.len2 - 1)
    requires TailState(p, w, k0, i0, j, r0)
    ensures i == p.len1 - 1 && TailState(p, w, k, i, j, r)
  {
    i, k, r := i0, k0, r0;
    while i < p.len1 - 1
      invariant (i < p.len1 - 1 ==> j == p.len2 - 1) && TailState(p, w, k, i, j, r)
      decreases p.len1 - i
    {
      i, k, r := ColumnStep(p, w, k, i, j, r);
    }
  }

  /**
   * The second `for` loop that ends `_greedyUpperBound`: with the first curve at its last
   * point, walk the remaining points of the second, leaving out the final pair.
   */
  method GreedyTail2(p: CurvePair, ghost w: seq<(nat, nat)>, ghost k0: nat, i: nat, j0: nat, r0: real)
    returns (r: real)
    requires p.Valid() && i == p.len1 - 1 && j0 < p.len2
    requires TailState(p, w, k0, i, j0, r0)
    ensures r == Bottleneck(p, w, |w| - 1)
  {
    var j: nat := j0;
    ghost var k: nat := k0;
    r := r0;
    while j < p.len2 - 1
      invariant TailState(p, w, k, i, j, r)
      decreases p.len2 - j
    {
      j, k, r := RowStep(p, w, k, i, j, r);
    }
    WalkEnds(p, w, k, i, j, r);
  }

  /** One round of the first `for` loop: take the pair into the maximum and advance the first curve. */
  method ColumnStep(p: CurvePair, ghost w: seq<(nat, nat)>, ghost k: nat, i: nat, j: nat, r: real)
    returns (i': nat, ghost k': nat, r': real)
    requires TailState(p, w, k, i, j, r) && j == p.len2 - 1 && i < p.len1 - 1
    ensures i' == i + 1 && TailState(p, w, k', i', j, r')
  {
    VisitLastColumn(p, w, k, i, j, r);
    i', k', r' := i + 1, k + 1, RMax(r, p.D(i, j));
  }

  /** One round of the second `for` loop: take the pair into the maximum and advance the second curve. */
  method RowStep(p: CurvePair, ghost w: seq<(nat, nat)>, ghost k: nat, i: nat, j: nat, r: real)
    returns (j': nat, ghost k': nat, r': real)
    requires TailState(p, w, k, i, j, r) && i == p.len1 - 1 && j < p.len2 - 1
    ensures j' == j + 1 && TailState(p, w, k', i, j', r')
  {
    VisitLastRow(p, w, k, i, j, r);
    j', k', r' := j + 1, k + 1, RMax(r, p.D(i, j));
  }

  /** At the last pair of both curves the walk has one position left. */
  lemma WalkEnds(p: CurvePair, w: seq<(nat, nat)>, k: nat, i: nat, j: nat, r: real)
    requires TailState(p, w, k, i, j, r) && i == p.len1 - 1 && j == p.len2 - 1
    ensures k == |w| - 1 && r == Bottleneck(p, w, |w| - 1)
  {
    assert |w[k..]| == 1;
  }

  /** `_greedyUpperBound` corrected: the final pair is taken into the maximum as well. */
  method GreedyUpperBound(p: CurvePair) returns (r: real)
    requires p.Valid()
    ensures r == GreedyBound(p)
    ensures r >= DiscreteDist(p)
  {
    r := GreedyUpperBoundAsWritten(p);
    r := RMax(r, p.D(p.len1 - 1, p.len2 - 1));
    GreedyBoundIsUpperBound(p);
  }

  /**
   * Visiting the pair `(i, j)` at position `k` of the walk `w` and stepping to `(i2, j2)` as
   * the loops of `_greedyUpperBound` do: the bottleneck of `w[..k+1]` takes in the pair's
   * distance, and the rest of the walk continues from `(i2, j2)`.
   */
  lemma Visit(p: CurvePair, w: seq<(nat, nat)>, k: nat, i: nat, j: nat, i2: nat, j2: nat)
    requires i < p.len1 && j < p.len2 && (i < p.len1 - 1 || j < p.len2 - 1)
    requires (i2, j2) == Next(p, i, j)
    requires Suffix(p, w, k, i, j)
    ensures i2 < p.len1 && j2 < p.len2
    ensures Suffix(p, w, k + 1, i2, j2)
    ensures Bottleneck(p, w, k + 1) == RMax(Bottleneck(p, w, k), p.D(i, j))
  {
    assert Walk(p, i, j) == [(i, j)] + Walk(p, i2, j2);
    assert w[k] == w[k..][0] == (i, j);
    assert w[k + 1..] == w[k..][1..];
  }

  /** A tail loop at pair `(i, j)`, position `k` of the walk, with `r` the maximum over the pairs before. */
  ghost predicate TailState(p: CurvePair, w: seq<(nat, nat)>, k: nat, i: nat, j: nat, r: real)
  {
    i < p.len1 && j < p.len2 && Suffix(p, w, k, i, j) && r == Bottleneck(p, w, k)
  }

  /** With the second curve at its last point the walk can only advance the first. */
  lemma VisitLastColumn(p: CurvePair, w: seq<(nat, nat)>, k: nat, i: nat, j: nat, r: real)
    requires TailState(p, w, k, i, j, r) && j == p.len2 - 1 && i < p.len1 - 1
    ensures TailState(p, w, k + 1, i + 1, j, RMax(r, p.D(i, j)))
  {
    assert Next(p, i, j) == (i + 1, j);
    Visit(p, w, k, i, j, i + 1, j);
  }

  /** With the first curve at its last point the walk can only advance the second. */
  lemma VisitLastRow(p: CurvePair, w: seq<(nat, nat)>, k: nat, i: nat, j: nat, r: real)
    requires TailState(p, w, k, i, j, r) && i == p.len1 - 1 && j < p.len2 - 1
    ensures TailState(p, w, k + 1, i, j + 1, RMax(r, p.D(i, j)))
  {
    assert Next(p, i, j) == (i, j + 1);
    Visit(p, w, k, i, j, i, j + 1);
  }

  // =================================================================================
  // `Continuous::_lessThan`: is the continuous Fréchet distance at most `distance`?

  /**
   * The free intervals `intersection_interval` reports for one distance.  `f1(j, i)` is
   * `free_intervals1[j][i]`, the part of the segment `curve1[i]..curve1[i+1]` within the
   * distance of `curve2[j]`; `f2(i, j)` is `free_intervals2[i][j]`, the part of the segment
   * `curve2[j]..curve2[j+1]` within the distance of `curve1[i]`.  Both are given as parameters
   * along the segment.
   */
  datatype FreeSpace = FreeSpace(f1: (nat, nat) -> Interval, f2: (nat, nat) -> Interval)

  /**
   * `intersection_interval(radius, ..)` solves for the points of a segment whose squared
   * distance to the point is `radius * radius`: the squared distance it compares against.
   */
  function ComparedSqr(radius: real): real
  {
    radius * radius
  }

  /** The radius `_lessThan` hands to `intersection_interval` for `distance`: its `dist_sqr`. */
  function IntervalRadiusAsWritten(distance: real): real
  {
    distance * distance
  }

  /**
   * With `dist_sqr` as the radius, the free intervals are those of the distance squared:
   * above 1 they admit points the early exit and the boundary loops reject; at 0.5 they
   * are measured against 0.0625 instead of 0.25 and drop points those accept.
   */
  lemma IntervalRadiusAsWrittenSquaresTwice(distance: real)
    ensures distance > 1.0 ==> ComparedSqr(IntervalRadiusAsWritten(distance)) > distance * distance
    ensures ComparedSqr(IntervalRadiusAsWritten(0.5)) == 0.0625 < 0.5 * 0.5
  {
    if distance > 1.0 {
      assert distance * distance > distance by {
        assert (distance - 1.0) * distance > 0.0;
      }
      assert (distance * distance - 1.0) * (distance * distance) > 0.0;
      assert ComparedSqr(IntervalRadiusAsWritten(distance)) == (distance * distance) * (distance * distance);
    }
  }

  /**
   * The radius meant for `distance`: the distance itself, so that the free intervals are
   * measured against the same `dist_sqr` as the end points and the boundary loops.  The
   * free-space oracle below is read at this radius.
   */
  function IntervalRadius(distance: real): (radius: real)
    ensures ComparedSqr(radius) == distance * distance
  {
    distance
  }

  /** The first boundary loop has not stopped before `curve1[i]`: all of `curve1[1..i+1]` is near `curve2[0]`. */
  predicate Open1(p: CurvePair, d2: real, i: nat)
    requires p.Valid() && i < p.len1
  {
    forall k :: 1 <= k <= i ==> p.D(k, 0) <= d2
  }

  /** The second boundary loop has not stopped before `curve2[j]`. */
  predicate Open2(p: CurvePair, d2: real, j: nat)
    requires p.Valid() && j < p.len2
  {
    forall k :: 1 <= k <= j ==> p.D(0, k) <= d2
  }

  /**
   * `reachable1[i][j]`: the smallest parameter on the segment `curve1[i]..curve1[i+1]` at
   * which the free space over `curve2[j]` can be entered monotonically from the start, or
   * `Inf`.  The first column is set by the boundary loop; other cells follow the
   * propagation of `_lessThan`: entering from below (`reachable2[i][j-1]` finite) gives
   * the start of the free interval, entering from the left keeps the larger parameter.
   */
  function Reach1(p: CurvePair, d2: real, fs: FreeSpace, i: nat, j: nat): (r: ExtReal)
    requires p.Valid() && i < p.len1 - 1 && j < p.len2
    ensures r.Fin? && j > 0 ==>
      !fs.f1(j, i).IsEmpty() && fs.f1(j, i).beg <= r.v <= fs.f1(j, i).en
    decreases i + j
  {
    if j == 0 then (if Open1(p, d2, i) then Fin(0.0) else Inf)
    else
      var f := fs.f1(j, i);
      if f.IsEmpty() then Inf
      else if Reach2(p, d2, fs, i, j - 1) != Inf then Fin(f.Begin())
      else
        var left := Reach1(p, d2, fs, i, j - 1);
        if left.Le(Fin(f.End())) then Fin(RMax(f.Begin(), left.v)) else Inf
  }

  /** `reachable2[i][j]`, the same for the segment `curve2[j]..curve2[j+1]` over `curve1[i]`. */
  function Reach2(p: CurvePair, d2: real, fs: FreeSpace, i: nat, j: nat): (r: ExtReal)
    requires p.Valid() && i < p.len1 && j < p.len2 - 1
    ensures r.Fin? && i > 0 ==>
      !fs.f2(i, j).IsEmpty() && fs.f2(i, j).beg <= r.v <= fs.f2(i, j).en
    decreases i + j
  {
    if i == 0 then (if Open2(p, d2, j) then Fin(0.0) else Inf)
    else
      var f := fs.f2(i, j);
      if f.IsEmpty() then Inf
      else if Reach1(p, d2, fs, i - 1, j) != Inf then Fin(f.Begin())
      else
        var below := Reach2(p, d2, fs, i - 1, j);
        if below.Le(Fin(f.End())) then Fin(RMax(f.Begin(), below.v)) else Inf
  }

  /**
   * The answer of `_lessThan(distance, ...)`: false at once when the first or the last
   * points are farther apart than `distance`, otherwise whether the last cell can be
   * reached, `reachable1.back().back() < infty`.
   */
  predicate LessThanSpec(p: CurvePair, distance: real, fs: FreeSpace)
    requires p.Valid() && p.len1 >= 2 && p.len2 >= 2
  {
    var d2 := distance * distance;
    if p.D(0, 0) > d2 || p.D(p.len1 - 1, p.len2 - 1) > d2 then false
    else Reach1(p, d2, fs, p.len1 - 2, p.len2 - 1).Fin?
  }

  /**
   * No distance below the lower bound of `distance` passes `_lessThan`: the first and the
   * last points must be paired, whatever the free space.
   */
  lemma LessThanBelowLowerBound(p: CurvePair, distance: real, fs: FreeSpace)
    requires p.Valid() && p.len1 >= 2 && p.len2 >= 2
    requires distance * distance < RMax(p.D(0, 0), p.D(p.len1 - 1, p.len2 - 1))
    ensures !LessThanSpec(p, distance, fs)
  {
  }

  /** `a` holds `v` everywhere. */
  ghost predicate AllEqual<T>(a: array2<T>, v: T)
    reads a
  {
    forall x, y :: 0 <= x < a.Length0 && 0 <= y < a.Length1 ==> a[x, y] == v
  }

  /** The reset loops of `_lessThan`: every entry of a table set to `v`. */
  method Fill<T>(a: array2<T>, v: T)
    modifies a
    ensures AllEqual(a, v)
  {
    var x := 0;
    while x < a.Length0
      invariant 0 <= x <= a.Length0
      invariant forall x', y :: 0 <= x' < x && 0 <= y < a.Length1 ==> a[x', y] == v
    {
      var y := 0;
      while y < a.Length1
        invariant 0 <= y <= a.Length1
        invariant forall x', y' :: 0 <= x' < x && 0 <= y' < a.Length1 ==> a[x', y'] == v
        invariant forall y' :: 0 <= y' < y ==> a[x, y'] == v
      {
        a[x, y] := v;
        y := y + 1;
      }
      x := x + 1;
    }
  }

  /** Cell `(x, y)` comes before cell `(i, j)` in the row-by-row order of the loops. */
  predicate Before(x: nat, y: nat, i: nat, j: nat)
  {
    x < i || (x == i && y < j)
  }

  /** The tables have the shapes `_distance` allocates them with. */
  predicate Shapes(p: CurvePair, reach1: array2<ExtReal>, reach2: array2<ExtReal>,
                   free1: array2<Interval>, free2: array2<Interval>)
  {
    reach1.Length0 == p.len1 - 1 && reach1.Length1 == p.len2 &&
    reach2.Length0 == p.len1 && reach2.Length1 == p.len2 - 1 &&
    free1.Length0 == p.len2 && free1.Length1 == p.len1 &&
    free2.Length0 == p.len1 && free2.Length1 == p.len2 &&
    reach1 != reach2 && free1 != free2
  }

  /** The free intervals of `free1` (indexed `[j][i]`) before cell `(i, j)` are filled in; the rest are reset. */
  ghost predicate Free1Filled(p: CurvePair, fs: FreeSpace, free1: array2<Interval>, i: nat, j: nat)
    requires free1.Length0 == p.len2 && free1.Length1 == p.len1
    reads free1
  {
    forall y, x :: 0 <= y < p.len2 && 0 <= x < p.len1 ==>
      free1[y, x] == if x < p.len1 - 1 && y > 0 && Before(x, y, i, j) then fs.f1(y, x) else Default()
  }

  /** The same for `free2`, indexed `[i][j]`. */
  ghost predicate Free2Filled(p: CurvePair, fs: FreeSpace, free2: array2<Interval>, i: nat, j: nat)
    requires free2.Length0 == p.len1 && free2.Length1 == p.len2
    reads free2
  {
    forall x, y :: 0 <= x < p.len1 && 0 <= y < p.len2 ==>
      free2[x, y] == if y < p.len2 - 1 && x > 0 && Before(x, y, i, j) then fs.f2(x, y) else Default()
  }

  /** Both free-interval tables are filled in before `(i, j)`. */
  ghost predicate FreeFilled(p: CurvePair, fs: FreeSpace, free1: array2<Interval>, free2: array2<Interval>,
                             i: nat, j: nat)
    requires free1.Length0 == p.len2 && free1.Length1 == p.len1
    requires free2.Length0 == p.len1 && free2.Length1 == p.len2
    reads free1, free2
  {
    Free1Filled(p, fs, free1, i, j) && Free2Filled(p, fs, free2, i, j)
  }

  /** `reachable1` holds `Reach1` on its first column and before `(i, j)`, and `Inf` elsewhere. */
  ghost predicate Reach1Filled(p: CurvePair, d2: real, fs: FreeSpace, reach1: array2<ExtReal>, i: nat, j: nat)
    requires p.Valid() && p.len1 >= 2 && p.len2 >= 2
    requires reach1.Length0 == p.len1 - 1 && reach1.Length1 == p.len2
    reads reach1
  {
    forall x, y :: 0 <= x < p.len1 - 1 && 0 <= y < p.len2 ==>
      reach1[x, y] == if y == 0 || Before(x, y, i, j) then Reach1(p, d2, fs, x, y) else Inf
  }

  /** `reachable2` holds `Reach2` on its first row and before `(i, j)`, and `Inf` elsewhere. */
  ghost predicate Reach2Filled(p: CurvePair, d2: real, fs: FreeSpace, reach2: array2<ExtReal>, i: nat, j: nat)
    requires p.Valid() && p.len1 >= 2 && p.len2 >= 2
    requires reach2.Length0 == p.len1 && reach2.Length1 == p.len2 - 1
    reads reach2
  {
    forall x, y :: 0 <= x < p.len1 && 0 <= y < p.len2 - 1 ==>
      reach2[x, y] == if x == 0 || Before(x, y, i, j) then Reach2(p, d2, fs, x, y) else Inf
  }

  /** Both reachability tables are filled in before `(i, j)`. */
  ghost predicate ReachFilled(p: CurvePair, d2: real, fs: FreeSpace,
                              reach1: array2<ExtReal>, reach2: array2<ExtReal>, i: nat, j: nat)
    requires p.Valid() && p.len1 >= 2 && p.len2 >= 2
    requires reach1.Length0 == p.len1 - 1 && reach1.Length1 == p.len2
    requires reach2.Length0 == p.len1 && reach2.Length1 == p.len2 - 1
    reads reach1, reach2
  {
    Reach1Filled(p, d2, fs, reach1, i, j) && Reach2Filled(p, d2, fs, reach2, i, j)
  }

  /**
   * `_lessThan`: decides `LessThanSpec` and leaves in the four tables the free intervals
   * and the reachable parameters of every cell.  The tables are reset first, so their old
   * contents do not matter; on the early `return false` they are left untouched.
   */
  method LessThan(distance: real, p: CurvePair, fs: FreeSpace,
                  reach1: array2<ExtReal>, reach2: array2<ExtReal>,
                  free1: array2<Interval>, free2: array2<Interval>) returns (b: bool)
    requires p.Valid() && p.len1 >= 2 && p.len2 >= 2
    requires Shapes(p, reach1, reach2, free1, free2)
    modifies reach1, reach2, free1, free2
    ensures b == LessThanSpec(p, distance, fs)
    ensures var d2 := distance * distance;
      if p.D(0, 0) > d2 || p.D(p.len1 - 1, p.len2 - 1) > d2 then
        unchanged(reach1, reach2, free1, free2)
      else
        FreeFilled(p, fs, free1, free2, p.len1, 0) && ReachFilled(p, d2, fs, reach1, reach2, p.len1, 0)
  {
    var d2 := distance * distance;
    if p.D(0, 0) > d2 || p.D(p.len1 - 1, p.len2 - 1) > d2 {
      return false;
    }
    Fill(reach1, Inf);
    Fill(reach2, Inf);
    Fill(free1, Default());
    Fill(free2, Default());

    Borders(p, d2, fs, reach1, reach2);

    FreeIntervals(p, fs, free1, free2);
    Propagate(p, d2, fs, reach1, reach2, free1, free2);
    b := reach1[p.len1 - 2, p.len2 - 1] != Inf;
  }

  /** The loops of `_lessThan` that store the free intervals of every cell into reset tables. */
  method FreeIntervals(p: CurvePair, fs: FreeSpace, free1: array2<Interval>, free2: array2<Interval>)
    requires p.Valid()
    requires free1.Length0 == p.len2 && free1.Length1 == p.len1
    requires free2.Length0 == p.len1 && free2.Length1 == p.len2
    requires free1 != free2 && AllEqual(free1, Default()) && AllEqual(free2, Default())
    modifies free1, free2
    ensures FreeFilled(p, fs, free1, free2, p.len1, 0)
  {
    var i := 0;
    while i < p.len1
      invariant i <= p.len1
      invariant Free1Filled(p, fs, free1, i, 0) && Free2Filled(p, fs, free2, i, 0)
    {
      var j := 0;
      while j < p.len2
        invariant j <= p.len2
        invariant Free1Filled(p, fs, free1, i, j) && Free2Filled(p, fs, free2, i, j)
      {
        if i < p.len1 - 1 && j > 0 {
          free1[j, i] := fs.f1(j, i);
        }
        if j < p.len2 - 1 && i > 0 {
          free2[i, j] := fs.f2(i, j);
        }
        j := j + 1;
      }
      i := i + 1;
    }
  }

  /**
   * The propagation loops of `_lessThan`, cell by cell in row-major order, on tables whose
   * boundary and free intervals are filled in.
   */
  method Propagate(p: CurvePair, d2: real, fs: FreeSpace,
                   reach1: array2<ExtReal>, reach2: array2<ExtReal>,
                   free1: array2<Interval>, free2: array2<Interval>)
    requires p.Valid() && p.len1 >= 2 && p.len2 >= 2
    requires Shapes(p, reach1, reach2, free1, free2)
    requires FreeFilled(p, fs, free1, free2, p.len1, 0)
    requires ReachFilled(p, d2, fs, reach1, reach2, 0, 0)
    modifies reach1, reach2
    ensures ReachFilled(p, d2, fs, reach1, reach2, p.len1, 0)
  {
    var i := 0;
    while i < p.len1
      invariant i <= p.len1
      invariant Reach1Filled(p, d2, fs, reach1, i, 0) && Reach2Filled(p, d2, fs, reach2, i, 0)
    {
      var j := 0;
      while j < p.len2
        invariant j <= p.len2
        invariant Reach1Filled(p, d2, fs, reach1, i, j) && Reach2Filled(p, d2, fs, reach2, i, j)
      {
        if i < p.len1 - 1 && j > 0 {
          PropagateCell1(p, d2, fs, reach1, reach2, free1[j, i], i, j);
        }
        if j < p.len2 - 1 && i > 0 {
          PropagateCell2(p, d2, fs, reach1, reach2, free2[i, j], i, j);
        }
        j := j + 1;
      }
      i := i + 1;
    }
  }

  /**
   * The body of the propagation loops for `reachable1[i][j]`, given the free interval
   * `f` of that cell: entered from below, or from the left when the left parameter is
   * not past the end of `f`.
   */
  method PropagateCell1(p: CurvePair, d2: real, fs: FreeSpace,
                        reach1: array2<ExtReal>, reach2: array2<ExtReal>, f: Interval, i: nat, j: nat)
    requires p.Valid() && p.len1 >= 2 && p.len2 >= 2 && i < p.len1 - 1 && 0 < j < p.len2
    requires reach1.Length0 == p.len1 - 1 && reach1.Length1 == p.len2
    requires reach2.Length0 == p.len1 && reach2.Length1 == p.len2 - 1
    requires f == fs.f1(j, i)
    requires Reach1Filled(p, d2, fs, reach1, i, j) && Reach2Filled(p, d2, fs, reach2, i, j)
    modifies reach1
    ensures Reach1Filled(p, d2, fs, reach1, i, j + 1)
  {
    assert reach1[i, j] == Inf;
    assert reach1[i, j - 1] == Reach1(p, d2, fs, i, j - 1);
    assert reach2[i, j - 1] == Reach2(p, d2, fs, i, j - 1);
    if !f.IsEmpty() {
      if reach2[i, j - 1] != Inf {
        reach1[i, j] := Fin(f.Begin());
      } else if reach1[i, j - 1].Le(Fin(f.End())) {
        reach1[i, j] := Fin(RMax(f.Begin(), reach1[i, j - 1].v));
      }
    }
    assert reach1[i, j] == Reach1(p, d2, fs, i, j);
  }

  /** The body of the propagation loops for `reachable2[i][j]`, entered from the left or from below. */
  method PropagateCell2(p: CurvePair, d2: real, fs: FreeSpace,
                        reach1: array2<ExtReal>, reach2: array2<ExtReal>, f: Interval, i: nat, j: nat)
    requires p.Valid() && p.len1 >= 2 && p.len2 >= 2 && 0 < i < p.len1 && j < p.len2 - 1
    requires reach1.Length0 == p.len1 - 1 && reach1.Length1 == p.len2
    requires reach2.Length0 == p.len1 && reach2.Length1 == p.len2 - 1
    requires reach1 != reach2
    requires f == fs.f2(i, j)
    requires Reach1Filled(p, d2, fs, reach1, i, j + 1) && Reach2Filled(p, d2, fs, reach2, i, j)
    modifies reach2
    ensures Reach2Filled(p, d2, fs, reach2, i, j + 1)
  {
    assert reach2[i, j] == Inf;
    assert reach1[i - 1, j] == Reach1(p, d2, fs, i - 1, j);
    assert reach2[i - 1, j] == Reach2(p, d2, fs, i - 1, j);
    if !f.IsEmpty() {
      if reach1[i - 1, j] != Inf {
        reach2[i, j] := Fin(f.Begin());
      } else if reach2[i - 1, j].Le(Fin(f.End())) {
        reach2[i, j] := Fin(RMax(f.Begin(), reach2[i - 1, j].v));
      }
    }
    assert reach2[i, j] == Reach2(p, d2, fs, i, j);
  }

  /**
   * The two boundary loops of `_lessThan` on reset tables: the first column of `reachable1`
   * (the first row of `reachable2`) is 0 up to the first point of `curve1` (of `curve2`)
   * that is farther than the distance from the other curve's first point.
   */
  method Borders(p: CurvePair, d2: real, fs: FreeSpace, reach1: array2<ExtReal>, reach2: array2<ExtReal>)
    requires p.Valid() && p.len1 >= 2 && p.len2 >= 2
    requires reach1.Length0 == p.len1 - 1 && reach1.Length1 == p.len2
    requires reach2.Length0 == p.len1 && reach2.Length1 == p.len2 - 1
    requires reach1 != reach2
    requires AllEqual(reach1, Inf) && AllEqual(reach2, Inf)
    modifies reach1, reach2
    ensures ReachFilled(p, d2, fs, reach1, reach2, 0, 0)
  {
    var i := 0;
    while i < p.len1 - 1
      modifies reach1
      invariant i <= p.len1 - 1
      invariant Open1(p, d2, i)
      invariant forall x, y :: 0 <= x < p.len1 - 1 && 0 <= y < p.len2 ==>
        reach1[x, y] == if y == 0 && x < i then Fin(0.0) else Inf
    {
      reach1[i, 0] := Fin(0.0);
      if p.D(i + 1, 0) > d2 {
        break;
      }
      i := i + 1;
    }
    var j := 0;
    while j < p.len2 - 1
      modifies reach2
      invariant j <= p.len2 - 1
      invariant Open2(p, d2, j)
      invariant forall x, y :: 0 <= x < p.len1 && 0 <= y < p.len2 - 1 ==>
        reach2[x, y] == if x == 0 && y < j then Fin(0.0) else Inf
    {
      reach2[0, j] := Fin(0.0);
      if p.D(0, j + 1) > d2 {
        break;
      }
      j := j + 1;
    }
  }

  // ---------------------------------------------------------------------------------
  // The bisection of `_distance` and its entry point `distance`.

  /** `Continuous::Result` without its timings: the rounded distance and the number of searches. */
  datatype Result = Result(value: real, searches: nat)

  /** The rounding of `_distance` to three decimals, `round(x * 1e3) / 1e3`. */
  function RoundMillis(x: real): (r: real)
    ensures x - 0.0005 <= r <= x + 0.0005
  {
    Round(x * 1000.0) as real / 1000.0
  }

  /**
   * `_distance(curve1, curve2, ub, lb, eps)`: halves `[lb, ub]` with `_lessThan` until it
   * is at most `eps` wide, then rounds its midpoint.  `fs(d)` are the free intervals for
   * the distance `d`, that is at `IntervalRadius(d)`, where the code as written asks for
   * them at `IntervalRadiusAsWritten(d)`.  The tables are allocated only when a search is needed.  The
   * returned bracket keeps `ub` where the free space is traversable (or at the initial
   * upper bound) and `lb` where it is not (or at the initial lower bound); every halving
   * is exact, so `searches` halvings turn the initial width into the final one.
   */
  method Bisect(p: CurvePair, ub0: real, lb0: real, eps: real, fs: real -> FreeSpace)
    returns (res: Result, ghost lb: real, ghost ub: real)
    requires p.Valid() && eps > 0.0
    requires ub0 - lb0 > eps ==> p.len1 >= 2 && p.len2 >= 2
    ensures res.value == RoundMillis((ub + lb) / 2.0)
    ensures ub0 - lb0 <= eps ==> res.searches == 0 && lb == lb0 && ub == ub0
    ensures ub0 - lb0 > eps ==> lb0 <= lb < ub <= ub0 && ub - lb <= eps
    ensures ub - lb == Halved(ub0 - lb0, res.searches)
    ensures ub0 - lb0 > eps ==> ub == ub0 || LessThanSpec(p, ub, fs(ub))
    ensures ub0 - lb0 > eps ==> lb == lb0 || !LessThanSpec(p, lb, fs(lb))
  {
    lb, ub := lb0, ub0;
    var lbv, ubv := lb0, ub0;
    var searches: nat := 0;
    if ubv - lbv > eps {
      var reach1 := new ExtReal[p.len1 - 1, p.len2]((x, y) => Inf);
      var reach2 := new ExtReal[p.len1, p.len2 - 1]((x, y) => Inf);
      var free1 := new Interval[p.len2, p.len1]((y, x) => Default());
      var free2 := new Interval[p.len1, p.len2]((x, y) => Default());
      lbv, ubv, searches := BisectLoop(p, ub0, lb0, eps, fs, reach1, reach2, free1, free2);
      lb, ub := lbv, ubv;
    }
    res := Result(RoundMillis((ubv + lbv) / 2.0), searches);
  }

  /** The `while` loop of `_distance`: halve the bracket until it is at most `eps` wide. */
  method BisectLoop(p: CurvePair, ub0: real, lb0: real, eps: real, fs: real -> FreeSpace,
                    reach1: array2<ExtReal>, reach2: array2<ExtReal>,
                    free1: array2<Interval>, free2: array2<Interval>) returns (lb: real, ub: real, searches: nat)
    requires p.Valid() && p.len1 >= 2 && p.len2 >= 2 && eps > 0.0 && ub0 - lb0 > eps
    requires Shapes(p, reach1, reach2, free1, free2)
    modifies reach1, reach2, free1, free2
    ensures BisectState(p, fs, lb0, ub0, lb, ub, searches) && ub - lb <= eps
  {
    lb, ub, searches := lb0, ub0, 0;
    ghost var budget := HalvingBudget(ub0 - lb0, eps);
    while ub - lb > eps
      invariant searches <= budget && Shapes(p, reach1, reach2, free1, free2)
      invariant BisectState(p, fs, lb0, ub0, lb, ub, searches)
      decreases budget - searches
    {
      WithinBudget(ub0 - lb0, eps, searches, budget);
      ghost var lbOld, ubOld := lb, ub;
      lb, ub := BisectStep(p, fs, lb, ub, reach1, reach2, free1, free2);
      BisectAdvance(p, fs, lb0, ub0, lbOld, ubOld, searches, lb, ub);
      searches := searches + 1;
    }
  }

  /**
   * The bracket of the bisection after `k` halvings: inside the initial one, `k` times
   * halved, its upper end traversable or initial and its lower end not traversable or initial.
   */
  ghost predicate BisectState(p: CurvePair, fs: real -> FreeSpace, lb0: real, ub0: real, lb: real, ub: real, k: nat)
  {
    p.Valid() && p.len1 >= 2 && p.len2 >= 2 && lb0 <= lb < ub <= ub0 && ub - lb == Halved(ub0 - lb0, k) &&
    (ub == ub0 || LessThanSpec(p, ub, fs(ub))) && (lb == lb0 || !LessThanSpec(p, lb, fs(lb)))
  }

  /** Keeping the half `_lessThan` picks at the midpoint is one more exact halving. */
  lemma BisectAdvance(p: CurvePair, fs: real -> FreeSpace, lb0: real, ub0: real, lb: real, ub: real, k: nat,
                      lb': real, ub': real)
    requires BisectState(p, fs, lb0, ub0, lb, ub, k)
    requires var split := (ub + lb) / 2.0;
      if LessThanSpec(p, split, fs(split)) then lb' == lb && ub' == split else lb' == split && ub' == ub
    ensures BisectState(p, fs, lb0, ub0, lb', ub', k + 1)
  {
  }

  /** One round of the bisection loop: `_lessThan` at the midpoint decides which half is kept. */
  method BisectStep(p: CurvePair, fs: real -> FreeSpace, lb: real, ub: real,
                    reach1: array2<ExtReal>, reach2: array2<ExtReal>,
                    free1: array2<Interval>, free2: array2<Interval>) returns (lb': real, ub': real)
    requires p.Valid() && p.len1 >= 2 && p.len2 >= 2
    requires Shapes(p, reach1, reach2, free1, free2)
    modifies reach1, reach2, free1, free2
    ensures var split := (ub + lb) / 2.0;
      if LessThanSpec(p, split, fs(split)) then lb' == lb && ub' == split else lb' == split && ub' == ub
  {
    var split := (ub + lb) / 2.0;
    var isLessThan := LessThan(split, p, fs(split), reach1, reach2, free1, free2);
    if isLessThan {
      lb', ub' := lb, split;
    } else {
      lb', ub' := split, ub;
    }
  }

  lemma MulPositive(x: real, y: real)
    requires x > 0.0 && y > 0.0
    ensures x * y > 0.0
  {
  }

  /** Squaring keeps the order of non-negative reals. */
  lemma SquareMonotone(a: real, b: real)
    requires 0.0 <= a && 0.0 <= b && a * a <= b * b
    ensures a <= b
  {
    if a > b {
      assert a * a - b * b == (a - b) * (a + b);
      MulPositive(a - b, a + b);
    }
  }

  /**
   * `Continuous::distance` as written: the bisection between the lower bound
   * `sqrt(max(first pair, last pair))` and the square root of `_greedyUpperBound`.  The
   * square roots are not modelled; the caller supplies them as `lbRoot` and `ubRoot`.
   * When the greedy bound falls below the lower bound no search is made and the rounded
   * midpoint of the two, which lies below the lower bound, is returned.
   */
  method DistanceAsWritten(p: CurvePair, eps: real, fs: real -> FreeSpace, lbRoot: real, ubRoot: real)
    returns (res: Result)
    requires p.Valid() && eps > 0.0
    requires lbRoot >= 0.0 && lbRoot * lbRoot == RMax(p.D(0, 0), p.D(p.len1 - 1, p.len2 - 1))
    requires ubRoot >= 0.0 && ubRoot * ubRoot == GreedyBoundAsWritten(p)
    requires ubRoot - lbRoot > eps ==> p.len1 >= 2 && p.len2 >= 2
    ensures ubRoot - lbRoot <= eps ==> res.searches == 0 && res.value == RoundMillis((ubRoot + lbRoot) / 2.0)
  {
    ghost var lb, ub;
    res, lb, ub := Bisect(p, ubRoot, lbRoot, eps, fs);
  }

  /**
   * `Continuous::distance` with the corrected greedy bound: the bounds are ordered, so the
   * result is never below the lower bound by more than the rounding, and it brackets a
   * distance at which `_lessThan` answers yes (or the greedy bound itself).
   */
  method Distance(p: CurvePair, eps: real, fs: real -> FreeSpace, lbRoot: real, ubRoot: real)
    returns (res: Result, ghost lb: real, ghost ub: real)
    requires p.Valid() && eps > 0.0
    requires lbRoot >= 0.0 && lbRoot * lbRoot == RMax(p.D(0, 0), p.D(p.len1 - 1, p.len2 - 1))
    requires ubRoot >= 0.0 && ubRoot * ubRoot == GreedyBound(p)
    requires ubRoot - lbRoot > eps ==> p.len1 >= 2 && p.len2 >= 2
    ensures lbRoot <= lb <= ub <= ubRoot && ub - lb <= RMax(eps, ubRoot - lbRoot)
    ensures lbRoot - 0.0005 <= res.value <= ubRoot + 0.0005
    ensures ubRoot - lbRoot > eps ==> ub - lb <= eps
    ensures ubRoot - lbRoot > eps ==> ub == ubRoot || LessThanSpec(p, ub, fs(ub))
    ensures ubRoot - lbRoot > eps ==> lb == lbRoot || !LessThanSpec(p, lb, fs(lb))
  {
    GreedyBoundIsUpperBound(p);
    SquareMonotone(lbRoot, ubRoot);
    res, lb, ub := Bisect(p, ubRoot, lbRoot, eps, fs);
  }

  /**
   * On `[0, 10]` against `[0, 0]` the bounds as written are `lb = 10` and `ub = 0`, so
   * `distance` returns 5 without a search, below the lower bound 10.
   */
  lemma DistanceAsWrittenBelowLowerBound(eps: real)
    requires eps > 0.0
    ensures var p := PairOf(Line([0.0, 10.0]), Line([0.0, 0.0]));
      p.Valid() &&
      10.0 * 10.0 == RMax(p.D(0, 0), p.D(p.len1 - 1, p.len2 - 1)) &&
      0.0 * 0.0 == GreedyBoundAsWritten(p) &&
      0.0 - 10.0 <= eps &&
      RoundMillis((0.0 + 10.0) / 2.0) == 5.0
  {
    GreedyAsWrittenBelowLowerBound();
    LineDist([0.0, 10.0], [0.0, 0.0]);
    assert Round(5000.0) == 5000;
  }
}
