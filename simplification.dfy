/**
 * `src/simplification.cpp`: the approximate minimum-link simplification (an exponential
 * then a binary search for the farthest vertex each shortcut can reach within `epsilon`)
 * and the approximate minimum-error simplification built on it (a bisection on `epsilon`
 * for a simplification with at most `ell` vertices, padded to exactly `ell`).
 *
 * `shortcut(i, j)` stands for `Frechet::Continuous::distance` between the subcurve from
 * vertex `i` to vertex `j` and the segment joining its ends.
 */
module ApproximateSimplification {

  import opened Wrappers
  import opened Arith
  import opened Points
  import opened MinErrorDp
  import Frechet

  /** A single segment is its own shortcut: its distance to itself is 0. */
  ghost predicate ExactOnSegments(shortcut: (nat, nat) -> real)
  {
    forall a, b :: b == a + 1 ==> shortcut(a, b) == 0.0
  }

  /** No shortcut is farther than `bound` from its subcurve. */
  ghost predicate BoundedBy(shortcut: (nat, nat) -> real, bound: real)
  {
    forall a, b :: shortcut(a, b) <= bound
  }

  /** From every even-numbered vertex, the shortcut over the next vertex exceeds `epsilon`. */
  ghost predicate EvenSkips(curve: Curve, shortcut: (nat, nat) -> real, epsilon: real)
  {
    forall a: nat, b: nat :: a % 2 == 0 && b == a + 2 && b < |curve| ==> shortcut(a, b) > epsilon
  }

  /**
   * `s` picks the vertices `idx` of `curve`, in strictly increasing order, from vertex 0 to
   * vertex `last`, and every shortcut between consecutive picked vertices is within `epsilon`.
   */
  ghost predicate Chain(curve: Curve, shortcut: (nat, nat) -> real, epsilon: real, s: Curve, idx: seq<nat>, last: nat)
  {
    |idx| == |s| >= 1 && idx[0] == 0 && idx[|idx| - 1] == last &&
    (forall k :: 0 <= k < |idx| ==> idx[k] < |curve| && s[k] == curve[idx[k]]) &&
    (forall k :: 0 <= k < |idx| - 1 ==> idx[k] < idx[k + 1] && shortcut(idx[k], idx[k + 1]) <= epsilon)
  }

  // ---------------------------------------------------------------------------------
  // approximate_weak_minimum_link_simplification

  /**
   * Greedy minimum-link simplification: from the current vertex `i`, the farthest vertex
   * `i + low` whose shortcut is within `epsilon` (found by doubling then halving) becomes
   * the next vertex.  The result is a chain from the first to the last vertex with every
   * shortcut within `epsilon`; when every shortcut is within `epsilon` it is the single
   * segment from the first to the last vertex.
   */
  method MinLinkSimplification(curve: Curve, epsilon: real, shortcut: (nat, nat) -> real)
    returns (simplification: Curve, ghost idx: seq<nat>)
    requires |curve| >= 1 && epsilon >= 0.0 && ExactOnSegments(shortcut)
    ensures Chain(curve, shortcut, epsilon, simplification, idx, |curve| - 1)
    ensures BoundedBy(shortcut, epsilon) ==> |simplification| <= 2
    ensures EvenSkips(curve, shortcut, epsilon) ==> |simplification| == |curve|
  {
    var complexity := |curve|;
    var i := 0;
    simplification := [curve[0]];
    idx := [0];
    var distance := 0.0;
    ghost var skips, odd := EvenSkips(curve, shortcut, epsilon), false;
    ghost var bounded := BoundedBy(shortcut, epsilon);
    while i < complexity - 1
      invariant RunState(curve, shortcut, epsilon, simplification, idx, i, distance, skips, odd, bounded)
      decreases complexity - i
    {
      i, simplification, idx, distance, odd :=
        MinLinkRound(curve, epsilon, shortcut, i, simplification, idx, distance, skips, odd, bounded);
    }
  }

  /**
   * The state of a min-link run at vertex `i`: a chain to `i`, the one-round state when every
   * shortcut is within `epsilon`, and the one-vertex-per-round state when every shortcut over
   * one vertex from an even-numbered vertex exceeds `epsilon`.
   */
  ghost predicate RunState(curve: Curve, shortcut: (nat, nat) -> real, epsilon: real, s: Curve, idx: seq<nat>,
                           i: nat, distance: real, skips: bool, odd: bool, bounded: bool)
  {
    i < |curve| && Chain(curve, shortcut, epsilon, s, idx, i) &&
    (bounded ==> OneShot(i, |curve|, |s|, distance, epsilon)) &&
    (skips ==> SingleSteps(odd, i, |curve|, |s|, distance, epsilon))
  }

  /** The facts one round establishes keep `RunState`. */
  lemma RunStep(curve: Curve, shortcut: (nat, nat) -> real, epsilon: real, s0: Curve, idx0: seq<nat>, i0: nat,
                distance0: real, skips: bool, odd0: bool, bounded: bool, low: nat, distance: real, farSkip: bool)
    requires RunState(curve, shortcut, epsilon, s0, idx0, i0, distance0, skips, odd0, bounded)
    requires i0 + 1 < |curve| && 1 <= low <= |curve| - i0 - 1 && shortcut(i0, i0 + low) <= epsilon
    requires skips && i0 % 2 == 0 ==> farSkip
    requires distance0 > epsilon ==> low == 1 && distance <= epsilon
    requires distance0 <= epsilon && farSkip ==> low == 1 && (i0 + 2 < |curve| ==> distance > epsilon)
    requires bounded && distance0 <= epsilon ==> i0 + low == |curve| - 1 && distance <= epsilon
    ensures RunState(curve, shortcut, epsilon, s0 + [curve[i0 + low]], idx0 + [i0 + low], i0 + low, distance, skips, !odd0, bounded)
  {
    SingleStepsNext(skips, odd0, i0, |curve|, |s0|, distance0, distance, epsilon, low, farSkip);
    OneShotNext(bounded, i0, |curve|, |s0|, distance0, distance, epsilon, low);
    ChainExtend(curve, shortcut, epsilon, s0, idx0, i0, i0 + low);
  }

  /** One round of the min-link loop: move to the next vertex and append it. */
  method MinLinkRound(curve: Curve, epsilon: real, shortcut: (nat, nat) -> real, i0: nat, s0: Curve,
                      ghost idx0: seq<nat>, distance0: real, ghost skips: bool, ghost odd0: bool, ghost bounded: bool)
    returns (i: nat, s: Curve, ghost idx: seq<nat>, distance: real, ghost odd: bool)
    requires epsilon >= 0.0 && ExactOnSegments(shortcut) && i0 + 1 < |curve|
    requires skips == EvenSkips(curve, shortcut, epsilon) && bounded == BoundedBy(shortcut, epsilon)
    requires RunState(curve, shortcut, epsilon, s0, idx0, i0, distance0, skips, odd0, bounded)
    ensures i0 < i && RunState(curve, shortcut, epsilon, s, idx, i, distance, skips, odd, bounded)
  {
    var complexity := |curve|;
    SkipAt(curve, shortcut, epsilon, i0);
    ghost var farSkip := i0 + 2 < complexity ==> shortcut(i0, i0 + 2) > epsilon;
    var low;
    low, distance := NextVertex(complexity, i0, epsilon, shortcut, distance0);
    RunStep(curve, shortcut, epsilon, s0, idx0, i0, distance0, skips, odd0, bounded, low, distance, farSkip);
    i, odd := i0 + low, !odd0;
    s := s0 + [curve[i]];
    idx := idx0 + [i];
  }

  /** A chain to vertex `i` extends by a later vertex `j` whose shortcut from `i` is within `epsilon`. */
  lemma ChainExtend(curve: Curve, shortcut: (nat, nat) -> real, epsilon: real, s: Curve, idx: seq<nat>, i: nat, j: nat)
    requires Chain(curve, shortcut, epsilon, s, idx, i) && i < j < |curve| && shortcut(i, j) <= epsilon
    ensures Chain(curve, shortcut, epsilon, s + [curve[j]], idx + [j], j)
  {
  }

  /** The state of a min-link run that reaches the last vertex in one round. */
  ghost predicate OneShot(i: nat, n: nat, len: nat, distance: real, epsilon: real)
  {
    (i == 0 && len == 1 && distance <= epsilon) || (i == n - 1 && len == 2)
  }

  /**
   * The state of a min-link run that moves one vertex per round: `i + 1` vertices so far,
   * `odd` the parity of `i`, the last probe within `epsilon` at even vertices and beyond it
   * at odd ones (but the last).
   */
  ghost predicate SingleSteps(odd: bool, i: nat, n: nat, len: nat, distance: real, epsilon: real)
  {
    odd == (i % 2 == 1) && len == i + 1 && (!odd ==> distance <= epsilon) &&
    (odd && i + 1 < n ==> distance > epsilon)
  }

  /** With every shortcut within `epsilon` the first round reaches the last vertex. */
  lemma OneShotNext(bounded: bool, i: nat, n: nat, len: nat, distance0: real, distance: real, epsilon: real, low: nat)
    requires bounded ==> OneShot(i, n, len, distance0, epsilon)
    requires i + 1 < n
    requires bounded && distance0 <= epsilon ==> i + low == n - 1 && distance <= epsilon
    ensures bounded ==> OneShot(i + low, n, len + 1, distance, epsilon)
  {
  }

  /** A round that moves one vertex keeps `SingleSteps`. */
  lemma SingleStepsNext(skips: bool, odd: bool, i: nat, n: nat, len: nat, distance0: real, distance: real,
                        epsilon: real, low: nat, farSkip: bool)
    requires skips ==> SingleSteps(odd, i, n, len, distance0, epsilon)
    requires i + 1 < n && 1 <= low <= n - i - 1
    requires skips && !odd ==> farSkip
    requires distance0 > epsilon ==> low == 1 && distance <= epsilon
    requires distance0 <= epsilon && farSkip ==> low == 1 && (i + 2 < n ==> distance > epsilon)
    ensures skips ==> low == 1 && SingleSteps(!odd, i + low, n, len + 1, distance, epsilon)
  {
  }

  /** The shortcut from an even-numbered vertex `a` over the next one. */
  lemma SkipAt(curve: Curve, shortcut: (nat, nat) -> real, epsilon: real, a: nat)
    ensures EvenSkips(curve, shortcut, epsilon) && a % 2 == 0 && a + 2 < |curve| ==> shortcut(a, a + 2) > epsilon
  {
  }

  /**
   * One round: the offset of the next vertex, found by the exponential and then the binary
   * search.  Over a single segment (the previous probe exceeded `epsilon`, or the shortcut
   * over the next vertex does) the round moves by exactly one vertex.
   */
  method NextVertex(complexity: nat, i: nat, epsilon: real, shortcut: (nat, nat) -> real, distance0: real)
    returns (low: nat, distance: real)
    requires i + 1 < complexity && epsilon >= 0.0 && ExactOnSegments(shortcut)
    ensures 1 <= low <= complexity - i - 1 && shortcut(i, i + low) <= epsilon
    ensures BoundedBy(shortcut, epsilon) && distance0 <= epsilon ==> i + low == complexity - 1 && distance <= epsilon
    ensures distance0 > epsilon ==> low == 1 && distance <= epsilon
    ensures distance0 <= epsilon && (i + 2 < complexity ==> shortcut(i, i + 2) > epsilon) ==>
              low == 1 && (i + 2 < complexity ==> distance > epsilon)
  {
    var j;
    j, distance := DoublingSearch(complexity, i, epsilon, shortcut, distance0);
    low := if j <= 1 then 0 else Pow2(j - 1);
    var high: nat := if Pow2(j) <= complexity - i - 1 then Pow2(j) else complexity - i - 1;
    low, distance := BinarySearch(i, low, high, epsilon, shortcut, distance);
  }

  /**
   * The exponential phase of one round: while the last probe is within `epsilon`, try the
   * vertex `2^j` ahead.  `distance` is the last probe of the previous round; when it already
   * exceeds `epsilon` no probe is made and `j` stays 0.  Every probe but the last was within
   * `epsilon`; the last is beyond the curve or exceeds `epsilon`.
   */
  method DoublingSearch(complexity: nat, i: nat, epsilon: real, shortcut: (nat, nat) -> real, distance0: real)
    returns (j: nat, distance: real)
    requires i + 1 < complexity
    ensures distance0 > epsilon ==> j == 0 && distance == distance0
    ensures distance0 <= epsilon ==> j >= 1
    ensures j >= 2 ==> i + Pow2(j - 1) < complexity && shortcut(i, i + Pow2(j - 1)) <= epsilon
    ensures j >= 2 ==> i + 2 < complexity && shortcut(i, i + 2) <= epsilon
    ensures BoundedBy(shortcut, epsilon) && distance0 <= epsilon ==> i + Pow2(j) >= complexity && distance <= epsilon
  {
    j := 0;
    distance := distance0;
    while distance <= epsilon
      invariant j >= 1 ==> i + Pow2(j) < complexity && distance == shortcut(i, i + Pow2(j))
      invariant j >= 2 ==> i + Pow2(j - 1) < complexity && shortcut(i, i + Pow2(j - 1)) <= epsilon
      invariant j >= 2 ==> i + 2 < complexity && shortcut(i, i + 2) <= epsilon
      invariant j == 0 ==> distance == distance0
      invariant distance0 > epsilon ==> j == 0
      decreases complexity - j
    {
      j := j + 1;
      if i + Pow2(j) >= complexity {
        break;
      }
      distance := shortcut(i, i + Pow2(j));
      Pow2Grows(j);
    }
  }

  /**
   * The binary phase of one round: the largest offset in `[low0, high0]` found by probing
   * `ceil((low + high) / 2)` and keeping the half consistent with the probe.  It keeps
   * `low <= high`, `low` within `epsilon` (or 0), and never reaches 0 because the offset 1
   * is a single segment.
   */
  method BinarySearch(i: nat, low0: nat, high0: nat, epsilon: real, shortcut: (nat, nat) -> real, distance0: real)
    returns (low: nat, distance: real)
    requires low0 <= high0 && (low0 >= 1 || high0 >= 1)
    requires low0 >= 1 ==> shortcut(i, i + low0) <= epsilon
    requires epsilon >= 0.0 && ExactOnSegments(shortcut)
    ensures 1 <= low && low0 <= low <= high0
    ensures shortcut(i, i + low) <= epsilon
    ensures BoundedBy(shortcut, epsilon) && distance0 <= epsilon ==> low == high0 && distance <= epsilon
    ensures low0 == 0 && high0 == 1 ==> low == 1 && distance == shortcut(i, i + 1)
    ensures low0 == 0 && high0 == 2 && shortcut(i, i + 2) > epsilon ==> low == 1 && distance == shortcut(i, i + 2)
  {
    low := low0;
    var high := high0;
    distance := distance0;
    while low < high
      invariant low0 <= low <= high <= high0 && (low >= 1 || high >= 1)
      invariant low >= 1 ==> shortcut(i, i + low) <= epsilon
      invariant BoundedBy(shortcut, epsilon) && distance0 <= epsilon ==> high == high0 && distance <= epsilon
      invariant low0 == 0 && high0 == 1 ==> (low, high) == (0, 1) || (low == high == 1 && distance == shortcut(i, i + 1))
      invariant low0 == 0 && high0 == 2 && shortcut(i, i + 2) > epsilon ==>
        (low, high) == (0, 2) || (low, high) == (1, 2) || (low == high == 1 && distance == shortcut(i, i + 2))
      decreases high - low
    {
      var mid := (low + high + 1) / 2;
      distance := shortcut(i, i + mid);
      if distance <= epsilon {
        low := mid;
      } else {
        high := mid - 1;
      }
    }
  }

  /**
   * `j == 1 ? 0 : std::pow(2, j - 1)` converted to `size_t`, with `j` itself a `size_t`:
   * `None` when the power is not representable (the conversion is then undefined).  For
   * `j == 0` the exponent wraps to `2^64 - 1`.
   */
  function LowStartAsWritten(j: nat): (r: Option<nat>)
    requires j < SizeMax
    ensures j >= 1 && j < 65 ==> r.Some?
  {
    if j == 1 then Some(0)
    else
      var e := SizeSub(j, 1);
      if e < 64 then Some(Pow2(e)) else None
  }

  /** A round whose doubling phase is skipped (`j == 0`) starts its binary search from an undefined `low`. */
  lemma SkippedDoublingHasNoStart()
    ensures SizeSub(0, 1) == SizeMax - 1
    ensures LowStartAsWritten(0) == None
  {
  }

  // ---------------------------------------------------------------------------------
  // approximate_weak_minimum_error_simplification

  /**
   * The doubling loop on the radius: starting from `max0`, double `max` until the minimum-link
   * simplification for `max` has at most `ell` vertices.  It ends because a radius beyond
   * every shortcut gives at most 2 vertices.
   */
  method GrowRadius(curve: Curve, ell: nat, shortcut: (nat, nat) -> real, max0: real, ghost bound: real)
    returns (max: real, s: Curve, ghost idx: seq<nat>)
    requires |curve| >= 1 && ell >= 2 && max0 > 0.0
    requires ExactOnSegments(shortcut) && BoundedBy(shortcut, bound)
    ensures max >= max0 && |s| <= ell && Chain(curve, shortcut, max, s, idx, |curve| - 1)
    ensures BoundedBy(shortcut, max0) ==> max == max0
  {
    max := max0;
    s, idx := MinLinkSimplification(curve, max, shortcut);
    ghost var budget := if bound <= max0 then 0 else HalvingBudget(bound, max0);
    ghost var k: nat := 0;
    while |s| > ell
      invariant max == Doubled(max0, k) && max >= max0 && k <= budget
      invariant Chain(curve, shortcut, max, s, idx, |curve| - 1)
      invariant |s| > 2 ==> !BoundedBy(shortcut, max)
      invariant BoundedBy(shortcut, max0) ==> k == 0
      decreases budget - k
    {
      DoubledReaches(max0, bound, k, budget);
      max := max * 2.0;
      k := k + 1;
      s, idx := MinLinkSimplification(curve, max, shortcut);
    }
  }

  /** `w` doubled `k` times. */
  function Doubled(w: real, k: nat): real
  {
    if k == 0 then w else Doubled(w, k - 1) * 2.0
  }

  /**
   * Doubling a positive radius `k` times while it stays below `bound` can happen only
   * `budget` times, when `bound <= w0 * 2^budget`.
   */
  lemma DoubledReaches(w0: real, bound: real, k: nat, budget: nat)
    requires w0 > 0.0 && Doubled(w0, k) < bound
    requires bound <= w0 || bound <= w0 * (Pow2(budget) as real)
    ensures k < budget
  {
    DoubledScales(w0, k);
    if k >= budget {
      Pow2Monotone(budget, k);
      assert false;
    }
  }

  /** Doubling `k` times multiplies by `2^k`. */
  lemma {:induction false} DoubledScales(w: real, k: nat)
    ensures Doubled(w, k) == w * (Pow2(k) as real)
  {
    if k > 0 {
      DoubledScales(w, k - 1);
      Pow2Succ(k - 1);
    }
  }

  /**
   * The bisection on the radius: probe the midpoint of `[min, max]` until the bracket is at
   * most `eps` wide, keeping every probe with at most `ell` vertices and moving `max` down
   * to it, or moving `min` up.  `found` records whether a probe was kept; if none was, the
   * result is `init`.
   */
  method Bisection(curve: Curve, ell: nat, shortcut: (nat, nat) -> real, min0: real, max0: real, eps: real, init: Curve)
    returns (simplification: Curve, ghost found: bool, ghost max: real, ghost idx: seq<nat>)
    requires |curve| >= 1 && ExactOnSegments(shortcut) && 0.0 <= min0 && eps > 0.0
    ensures !found ==> simplification == init && max == max0
    ensures found ==> |simplification| <= ell && Chain(curve, shortcut, max, simplification, idx, |curve| - 1)
    ensures max <= max0
    ensures |curve| > ell && (forall e :: min0 <= e < max0 ==> EvenSkips(curve, shortcut, e)) ==> !found
  {
    var min, maxv := min0, max0;
    simplification, found, max, idx := init, false, max0, [];
    if maxv - min > eps {
      ghost var budget := HalvingBudget(max0 - min0, eps);
      ghost var k: nat := 0;
      while maxv - min > eps
        invariant min0 <= min < maxv <= max0 && maxv == max
        invariant maxv - min == Halved(max0 - min0, k) && k <= budget
        invariant !found ==> simplification == init && max == max0
        invariant found ==> |simplification| <= ell && Chain(curve, shortcut, max, simplification, idx, |curve| - 1)
        invariant |curve| > ell && (forall e :: min0 <= e < max0 ==> EvenSkips(curve, shortcut, e)) ==> !found
        decreases budget - k
      {
        WithinBudget(max0 - min0, eps, k, budget);
        k := k + 1;
        var mid := (min + maxv) / 2.0;
        var s, sIdx := MinLinkSimplification(curve, mid, shortcut);
        if |s| > ell {
          min := mid;
        } else {
          simplification, found, idx := s, true, sIdx;
          maxv, max := mid, mid;
        }
      }
    }
  }

  /**
   * The padding loop: repeat the last vertex until there are `ell` of them.  `None` when the
   * simplification to pad is empty and a vertex is missing: `back()` of an empty curve.
   */
  method Pad(s: Curve, ell: nat) returns (r: Option<Curve>)
    requires |s| <= ell
    ensures r.None? <==> |s| == 0 && ell > 0
    ensures r.Some? ==> |r.value| == ell && r.value[..|s|] == s &&
                        forall t :: |s| <= t < ell ==> r.value[t] == s[|s| - 1]
  {
    var padded := s;
    var diff: nat := ell - |s|;
    while diff > 0
      invariant |padded| + diff == ell && |s| <= |padded| && padded[..|s|] == s
      invariant forall t :: |s| <= t < |padded| ==> |s| >= 1 && padded[t] == s[|s| - 1]
      invariant |s| == 0 ==> diff == ell
    {
      if |padded| == 0 {
        return None;
      }
      padded := padded + [padded[|padded| - 1]];
      diff := diff - 1;
    }
    r := Some(padded);
  }

  /**
   * `approximate_weak_minimum_error_simplification` as written: the bisection starts from an
   * empty simplification, so when no probe is kept the padding reads the last vertex of
   * an empty curve.  `discrete` is the discrete Fréchet distance between `curve` and the
   * segment joining its ends; `eps` is `Frechet::Continuous::epsilon`.
   */
  method MinErrorSimplificationAsWritten(curve: Curve, ell: nat, shortcut: (nat, nat) -> real,
                                         discrete: real, eps: real, ghost bound: real)
    returns (r: Option<Curve>, ghost found: bool)
    requires |curve| >= 1 && ExactOnSegments(shortcut) && BoundedBy(shortcut, bound)
    requires discrete >= 0.0 && eps > 0.0
    ensures ell <= 2 ==> r == Some([curve[0], curve[|curve| - 1]])
    ensures ell > 2 ==> (r.None? <==> !found)
    ensures ell > 2 && r.Some? ==> |r.value| == ell
    ensures (ell > 2 && |curve| > ell && BoundedBy(shortcut, discrete + 1.0) &&
             forall e :: 0.0 <= e < discrete + 1.0 ==> EvenSkips(curve, shortcut, e)) ==> r.None?
  {
    var segment := [curve[0], curve[|curve| - 1]];
    if ell <= 2 {
      return Some(segment), true;
    }
    var maxDistance := discrete + 1.0;
    var newSimplification;
    ghost var newIdx, max, idx;
    maxDistance, newSimplification, newIdx := GrowRadius(curve, ell, shortcut, maxDistance, bound);
    var simplification;
    simplification, found, max, idx := Bisection(curve, ell, shortcut, 0.0, maxDistance, eps, []);
    r := Pad(simplification, ell);
  }

  /**
   * `approximate_weak_minimum_error_simplification` with the bisection seeded by the result
   * of the doubling loop, which already has at most `ell` vertices: the result is a chain
   * from the first to the last vertex with every shortcut within `radius`, the last bracket
   * end the bisection kept, padded with the last vertex to exactly `ell` vertices.  `grown`
   * is the radius the doubling loop ended with: at least `discrete + 1`, exactly that when
   * every shortcut is within it, and never below `radius`.
   */
  method MinErrorSimplification(curve: Curve, ell: nat, shortcut: (nat, nat) -> real,
                                discrete: real, eps: real, ghost bound: real)
    returns (simplification: Curve, ghost radius: real, ghost idx: seq<nat>, ghost grown: real)
    requires |curve| >= 1 && ExactOnSegments(shortcut) && BoundedBy(shortcut, bound)
    requires discrete >= 0.0 && eps > 0.0
    ensures ell <= 2 ==> simplification == [curve[0], curve[|curve| - 1]]
    ensures ell > 2 ==> |simplification| == ell && 1 <= |idx| <= ell &&
                        Chain(curve, shortcut, radius, simplification[..|idx|], idx, |curve| - 1) &&
                        forall t :: |idx| <= t < ell ==> simplification[t] == curve[|curve| - 1]
    ensures ell > 2 ==> radius <= grown && grown >= discrete + 1.0
    ensures ell > 2 && BoundedBy(shortcut, discrete + 1.0) ==> grown == discrete + 1.0
  {
    var segment := [curve[0], curve[|curve| - 1]];
    if ell <= 2 {
      return segment, 0.0, [], discrete + 1.0;
    }
    var maxDistance := discrete + 1.0;
    var newSimplification;
    ghost var newIdx, found;
    maxDistance, newSimplification, newIdx := GrowRadius(curve, ell, shortcut, maxDistance, bound);
    var kept;
    grown := maxDistance;
    kept, found, radius, idx := Bisection(curve, ell, shortcut, 0.0, maxDistance, eps, newSimplification);
    if !found {
      idx := newIdx;
    }
    var padded := Pad(kept, ell);
    simplification := padded.value;
  }
  // ---------------------------------------------------------------------------------
  // An input on which the bisection keeps no probe

  /**
   * The shortcut distances of the one-dimensional curve `[0, 2, 0, 1]`: 0 over a single
   * segment, 2 from vertex 0 to vertex 2 (the curve goes out to 2 and back to 0), and 1
   * from vertex 1 to vertex 3 and from vertex 0 to vertex 3.
   */
  function ExampleShortcut(a: nat, b: nat): real
  {
    if a == 0 && b == 2 then 2.0 else if b == a + 1 then 0.0 else 1.0
  }

  /**
   * `[0, 2, 0, 1]` with `ell == 3`: the discrete distance to the segment `[0, 1]` is 1, so
   * the bisection runs on `[0, 2]`, and `2` bounds every shortcut, so the doubling loop
   * does not run.  Below 2 the shortcut over vertex 1 fails and the minimum-link
   * simplification (`MinLinkSimplification`, the corrected one) keeps all 4 vertices, so
   * no probe is kept and `MinErrorSimplificationAsWritten` pads an empty curve.  The
   * minimum-link code as written does not get that far on this curve: its first round
   * below 2 ends with the failed probe over vertex 1, so its second round starts with
   * `j == 0` (`SkippedDoublingHasNoStart`).
   */
  lemma EmptySeedExample()
    ensures ExactOnSegments(ExampleShortcut) && BoundedBy(ExampleShortcut, 1.0 + 1.0)
    ensures forall e :: 0.0 <= e < 1.0 + 1.0 ==> EvenSkips(Frechet.Line([0.0, 2.0, 0.0, 1.0]), ExampleShortcut, e)
    ensures Frechet.PairOf(Frechet.Line([0.0, 2.0, 0.0, 1.0]), Frechet.Line([0.0, 1.0])).Valid()
    ensures Frechet.DiscreteDist(Frechet.PairOf(Frechet.Line([0.0, 2.0, 0.0, 1.0]), Frechet.Line([0.0, 1.0]))) == 1.0
  {
    var xs, ys := [0.0, 2.0, 0.0, 1.0], [0.0, 1.0];
    Frechet.LineDist(xs, ys);
    var p := Frechet.PairOf(Frechet.Line(xs), Frechet.Line(ys));
    assert Frechet.PrefixDist(p, 0, 0) == 0.0;
    assert Frechet.PrefixDist(p, 0, 1) == 1.0;
    assert Frechet.PrefixDist(p, 1, 0) == 4.0;
    assert Frechet.PrefixDist(p, 1, 1) == 1.0;
    assert Frechet.PrefixDist(p, 2, 0) == 4.0;
    assert Frechet.PrefixDist(p, 2, 1) == 1.0;
    assert Frechet.PrefixDist(p, 3, 0) == 4.0;
    assert Frechet.PrefixDist(p, 3, 1) == 1.0;
  }
}
