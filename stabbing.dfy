/**
 * The ball-stabbing path of `Fred/stabbing.py`.
 *
 * An ordered list of balls is stabbed window by window: sample points are drawn in every
 * ball, the window `[start, end)` grows while the samples of its inner balls can be
 * filtered to the region between an earlier ball and ball `end`, and when it cannot, one
 * sample per ball of the window is picked by a global optimizer and the first and last
 * picks become a segment of the path.
 *
 * The random draws, the global optimizer (`dual_annealing`), the containment test (plane
 * trigonometry) and `angle` (`arccos`) are parameters; Euclidean norms are compared
 * through their squares.
 */
module Stabbing {
  import opened Wrappers
  import opened Points
  import opened Arith

  /** A ball: its center and radius. */
  datatype Ball = Ball(center: Coords, radius: real)

  /** The decimal `np.pi` prints. */
  const Pi: real := 3.141592653589793

  // ---------------------------------------------------------------------------
  // `rejection_sampling`
  // ---------------------------------------------------------------------------

  /** `np.random.uniform(0, 1, dim) * 2 - 1`: a draw moved to the cube `[-1, 1)^dim`. */
  function Centered(u: Coords): (p: Coords)
    ensures |p| == |u|
    ensures forall i :: 0 <= i < |u| ==> (0.0 <= u[i] < 1.0 <==> -1.0 <= p[i] < 1.0)
  {
    seq(|u|, i requires 0 <= i < |u| => u[i] * 2.0 - 1.0)
  }

  /** `np.linalg.norm(p) <= 1`, compared squared. */
  predicate InUnitBall(p: Coords)
  {
    SqLength(p) <= 1.0
  }

  /** Every draw of the stream has `dim` coordinates. */
  ghost predicate Stream(draw: nat -> Coords, dim: nat)
  {
    forall k :: |draw(k)| == dim
  }

  /** Some draw at position `k` or later lands in the unit ball. */
  ghost predicate AcceptAfter(draw: nat -> Coords, k: nat)
  {
    exists k' :: k <= k' && InUnitBall(Centered(draw(k')))
  }

  /** The draw at `k'` is the first accepted one at or after `k`. */
  ghost predicate FirstAccepted(draw: nat -> Coords, k: nat, k': nat)
  {
    k <= k' && InUnitBall(Centered(draw(k'))) &&
    forall q :: k <= q < k' ==> !InUnitBall(Centered(draw(q)))
  }

  /** Below an accepted draw at `w` there is a first accepted draw at or after `k`. */
  lemma {:induction false} FirstAcceptedExists(draw: nat -> Coords, k: nat, w: nat)
    requires k <= w && InUnitBall(Centered(draw(w)))
    ensures exists k': nat :: k' <= w && FirstAccepted(draw, k, k')
    decreases w - k
  {
    if InUnitBall(Centered(draw(k))) {
      assert FirstAccepted(draw, k, k);
    } else {
      FirstAcceptedExists(draw, k + 1, w);
      var k': nat :| k' <= w && FirstAccepted(draw, k + 1, k');
      assert FirstAccepted(draw, k, k');
    }
  }

  /** The position of the first accepted draw at or after `k`: where the retry loop stops. */
  ghost function AcceptedAt(draw: nat -> Coords, k: nat): (k': nat)
    requires AcceptAfter(draw, k)
    ensures k <= k' && InUnitBall(Centered(draw(k')))
    ensures forall q :: k <= q < k' ==> !InUnitBall(Centered(draw(q)))
  {
    var w :| k <= w && InUnitBall(Centered(draw(w)));
    FirstAcceptedExists(draw, k, w);
    var k': nat :| FirstAccepted(draw, k, k'); k'
  }

  /** `p *= radius; p += center` */
  function Place(p: Coords, radius: real, center: Coords): (q: Coords)
    requires |center| >= |p|
    ensures |q| == |p|
  {
    Add(Scale(p, radius), center)
  }

  /** The point lies in the closed ball, compared squared. */
  ghost predicate InBall(p: Coords, b: Ball)
  {
    |p| == |b.center| && SqDist(p, b.center) <= b.radius * b.radius
  }

  /** An accepted draw, scaled and shifted, lies in the ball. */
  lemma PlaceInBall(p: Coords, b: Ball)
    requires |p| == |b.center| && InUnitBall(p)
    ensures InBall(Place(p, b.radius, b.center), b)
  {
    var s := Scale(p, b.radius);
    AddSubCancel(s, b.center);
    SqDistIsSqLengthOfDifference(Add(s, b.center), b.center);
    SqLengthScale(p, b.radius);
    SqLengthNonNegative(p);
    var r2 := b.radius * b.radius;
    assert r2 >= 0.0;
    assert r2 * SqLength(p) <= r2 * 1.0;
  }

  /** The positions `picks` are exactly the accepted draws of `first..next-1`, in increasing order. */
  ghost predicate Picks(draw: nat -> Coords, first: nat, next: nat, picks: seq<nat>)
  {
    first <= next &&
    (forall q :: 0 <= q < |picks| ==> first <= picks[q] < next) &&
    (forall q :: 0 <= q < |picks| - 1 ==> picks[q] < picks[q + 1]) &&
    (forall k :: first <= k < next ==> (InUnitBall(Centered(draw(k))) <==> k in picks))
  }

  /** One more accepted draw after a run of rejected ones extends the picks. */
  lemma PicksAppend(draw: nat -> Coords, first: nat, next: nat, picks: seq<nat>, after: nat)
    requires Picks(draw, first, next, picks) && next < after && InUnitBall(Centered(draw(after - 1)))
    requires forall q :: next <= q < after - 1 ==> !InUnitBall(Centered(draw(q)))
    ensures Picks(draw, first, after, picks + [after - 1])
  {
    var ps := picks + [after - 1];
    forall k | first <= k < after
      ensures InUnitBall(Centered(draw(k))) <==> k in ps
    {
      if k >= next {
        assert k !in picks;
      }
    }
  }

  /** The `while True` retry loop: draws until one lands in the unit ball. */
  method DrawAccepted(draw: nat -> Coords, k: nat) returns (p: Coords, next: nat)
    requires AcceptAfter(draw, k)
    ensures k < next && p == Centered(draw(next - 1)) && InUnitBall(p)
    ensures forall q :: k <= q < next - 1 ==> !InUnitBall(Centered(draw(q)))
    ensures next - 1 == AcceptedAt(draw, k)
  {
    ghost var w := AcceptedAt(draw, k);
    p := Centered(draw(k));
    next := k + 1;
    while !InUnitBall(p)
      invariant k < next <= w + 1 && p == Centered(draw(next - 1))
      invariant forall q :: k <= q < next - 1 ==> !InUnitBall(Centered(draw(q)))
      decreases w + 1 - next
    {
      p := Centered(draw(next));
      next := next + 1;
    }
  }

  /**
   * `rejection_sampling(dim, radius, center, n)` reading the draws from position `first`:
   * the center alone for radius 0; otherwise `n` points, the accepted draws in order,
   * each scaled and shifted into the ball.
   */
  method RejectionSampling(dim: nat, radius: real, center: Coords, n: nat, draw: nat -> Coords, first: nat)
    returns (points: seq<Coords>, next: nat, ghost picks: seq<nat>)
    requires |center| == dim && Stream(draw, dim) && forall k :: AcceptAfter(draw, k)
    ensures radius == 0.0 ==> points == [center] && next == first
    ensures radius != 0.0 ==>
      (|points| == n && |picks| == n && Picks(draw, first, next, picks) &&
       forall q :: 0 <= q < n ==> points[q] == Place(Centered(draw(picks[q])), radius, center))
    ensures forall q :: 0 <= q < |points| ==> InBall(points[q], Ball(center, radius))
  {
    picks := [];
    next := first;
    if radius == 0.0 {
      SqDistSelf(center);
      return [center], next, picks;
    }
    points := [];
    var i := 0;
    while i < n
      invariant i <= n && |points| == i && |picks| == i && Picks(draw, first, next, picks)
      invariant forall q :: 0 <= q < i ==> points[q] == Place(Centered(draw(picks[q])), radius, center)
      invariant forall q :: 0 <= q < i ==> InBall(points[q], Ball(center, radius))
    {
      var p, after := DrawAccepted(draw, next);
      PlaceInBall(p, Ball(center, radius));
      PicksAppend(draw, first, next, picks, after);
      points := points + [Place(p, radius, center)];
      picks := picks + [after - 1];
      next := after;
      i := i + 1;
    }
  }

  // ---------------------------------------------------------------------------
  // `unit_vector`, `f`
  // ---------------------------------------------------------------------------

  /**
   * `unit_vector(vector)` given `norm`, the Euclidean norm of `vector`: the vector itself
   * when the norm is 0, otherwise the vector divided by it, which has length 1.
   */
  function UnitVector(v: Coords, norm: real): (r: Coords)
    requires norm >= 0.0 && norm * norm == SqLength(v)
    ensures norm == 0.0 ==> r == v
    ensures norm != 0.0 ==> |r| == |v| && SqLength(r) == 1.0
  {
    if norm == 0.0 then v
    else
      DivideIsScale(v, norm);
      SqLengthScale(v, 1.0 / norm);
      assert (1.0 / norm) * (1.0 / norm) * (norm * norm) == 1.0;
      Divide(v, norm)
  }

  /** Python's `max` of a non-empty list: one of its entries, at least every other. */
  function MaxOf(s: seq<real>): (m: real)
    requires |s| >= 1
    ensures m in s && forall k :: 0 <= k < |s| ==> s[k] <= m
  {
    if |s| == 1 then s[0] else RMax(MaxOf(s[..|s| - 1]), s[|s| - 1])
  }

  /** `int(x)`: truncation toward zero. */
  function Trunc(x: real): int
  {
    if x >= 0.0 then x.Floor else -((-x).Floor)
  }

  /** Every sample point has `d` coordinates. */
  ghost predicate Uniform(samples: seq<seq<Coords>>, d: nat)
  {
    forall i, k :: 0 <= i < |samples| && 0 <= k < |samples[i]| ==> |samples[i][k]| == d
  }

  /** `int(x[k])` is an index into the sample set of ball `start + k`, for every `k`. */
  ghost predicate Indexes(samples: seq<seq<Coords>>, start: nat, x: seq<real>)
  {
    start + |x| <= |samples| &&
    forall k :: 0 <= k < |x| ==> 0 <= Trunc(x[k]) < |samples[start + k]|
  }

  /** `samples[i][y[i - start]]` for `i` in `start..end-1`. */
  function Chosen(samples: seq<seq<Coords>>, start: nat, x: seq<real>): (curve: seq<Coords>)
    requires Indexes(samples, start, x)
    ensures |curve| == |x|
  {
    seq(|x|, k requires 0 <= k < |x| => samples[start + k][Trunc(x[k])])
  }

  /** `curve[i+1] - curve[i]` for consecutive points. */
  function Vectors(curve: seq<Coords>, d: nat): (vs: seq<Coords>)
    requires |curve| >= 1 && forall k :: 0 <= k < |curve| ==> |curve[k]| == d
    ensures |vs| == |curve| - 1 && forall k :: 0 <= k < |vs| ==> |vs[k]| == d
  {
    seq(|curve| - 1, k requires 0 <= k < |curve| - 1 => Sub(curve[k + 1], curve[k]))
  }

  /** `-angle(vectors[i], vectors[i+1])` for consecutive vectors. */
  function NegatedTurns(vs: seq<Coords>, angle: (Coords, Coords) -> real): (ts: seq<real>)
    requires |vs| >= 1
    ensures |ts| == |vs| - 1
  {
    seq(|vs| - 1, k requires 0 <= k < |vs| - 1 => -angle(vs[k], vs[k + 1]))
  }

  /**
   * `f(x, samples, start, end)`: the sentinel `-pi` for fewer than three variables;
   * otherwise the largest negated turning angle along the chosen samples.
   */
  function Objective(x: seq<real>, samples: seq<seq<Coords>>, start: nat, end: nat, d: nat,
                     angle: (Coords, Coords) -> real): (r: real)
    requires |x| < 3 || (|x| == end - start && Indexes(samples, start, x) && Uniform(samples, d))
    ensures |x| < 3 ==> r == -Pi
    ensures |x| >= 3 ==>
      var ts := NegatedTurns(Vectors(Chosen(samples, start, x), d), angle);
      r in ts && forall k :: 0 <= k < |ts| ==> ts[k] <= r
  {
    if |x| < 3 then -Pi
    else
      var curve := Chosen(samples, start, x);
      assert forall k :: 0 <= k < |curve| ==> |curve[k]| == d;
      MaxOf(NegatedTurns(Vectors(curve, d), angle))
  }

  /** With turning angles in `[0, pi]` the objective lies in `[-pi, 0]`: the sentinel is its least value. */
  lemma ObjectiveRange(x: seq<real>, samples: seq<seq<Coords>>, start: nat, end: nat, d: nat,
                       angle: (Coords, Coords) -> real)
    requires |x| >= 1 && |x| == end - start && Indexes(samples, start, x) && Uniform(samples, d)
    requires var curve := Chosen(samples, start, x);
      (forall k :: 0 <= k < |curve| ==> |curve[k]| == d) &&
      var vs := Vectors(curve, d); forall k :: 0 <= k < |vs| - 1 ==> 0.0 <= angle(vs[k], vs[k + 1]) <= Pi
    ensures -Pi <= Objective(x, samples, start, end, d, angle) <= 0.0
  {
    if |x| >= 3 {
      var curve := Chosen(samples, start, x);
      var ts := NegatedTurns(Vectors(curve, d), angle);
      var r := Objective(x, samples, start, end, d, angle);
      var k :| 0 <= k < |ts| && ts[k] == r;
    }
  }

  // ---------------------------------------------------------------------------
  // `compute_stabber`
  // ---------------------------------------------------------------------------

  /** The lower bounds: 0 for every ball of the window. */
  function Lower(n: nat): (lb: seq<real>)
    ensures |lb| == n
  {
    seq(n, k => 0.0)
  }

  /** The upper bounds: `len(samples[i]) - 0.001` for every ball `i` of the window. */
  function Upper(samples: seq<seq<Coords>>, start: nat, end: nat): (ub: seq<real>)
    requires start <= end <= |samples|
    ensures |ub| == end - start
  {
    seq(end - start, k requires 0 <= k < end - start => |samples[start + k]| as real - 0.001)
  }

  /** The optimizer's check of its bounds: every lower bound below its upper bound. */
  predicate Consistent(lb: seq<real>, ub: seq<real>)
  {
    |lb| == |ub| && forall k :: 0 <= k < |lb| ==> lb[k] < ub[k]
  }

  /** The bounds of a window are consistent exactly when no ball of it has an empty sample set. */
  lemma ConsistentIffNonEmpty(samples: seq<seq<Coords>>, start: nat, end: nat)
    requires start <= end <= |samples|
    ensures Consistent(Lower(end - start), Upper(samples, start, end)) <==>
      forall i :: start <= i < end ==> |samples[i]| >= 1
  {
    if forall i :: start <= i < end ==> |samples[i]| >= 1 {
      forall k | 0 <= k < end - start
        ensures Lower(end - start)[k] < Upper(samples, start, end)[k]
      {
        assert |samples[start + k]| >= 1;
      }
    }
    if Consistent(Lower(end - start), Upper(samples, start, end)) {
      forall i | start <= i < end
        ensures |samples[i]| >= 1
      {
        assert Lower(end - start)[i - start] < Upper(samples, start, end)[i - start];
      }
    }
  }

  /** A vector inside the box of the bounds. */
  ghost predicate InBox(x: seq<real>, lb: seq<real>, ub: seq<real>)
  {
    |x| == |lb| == |ub| && forall k :: 0 <= k < |x| ==> lb[k] <= x[k] <= ub[k]
  }

  /** `s[t]` in Python: negative indices count from the end; `None` is an `IndexError`. */
  function PyIndex(s: seq<Coords>, t: int): (r: Option<Coords>)
    ensures r.Some? <==> -|s| <= t < |s|
    ensures r.Some? ==> r.value in s
  {
    if 0 <= t < |s| then Some(s[t]) else if -|s| <= t < 0 then Some(s[|s| + t]) else None
  }

  /** `samples[i][int(xf[i - start])]` for every ball of the window, or an `IndexError`. */
  function Pick(sets: seq<seq<Coords>>, x: seq<real>): (r: Option<seq<Coords>>)
    ensures r.Some? ==> |r.value| == |sets| && forall k :: 0 <= k < |sets| ==> r.value[k] in sets[k]
  {
    if |x| < |sets| || exists k :: 0 <= k < |sets| && PyIndex(sets[k], Trunc(x[k])).None? then None
    else Some(seq(|sets|, k requires 0 <= k < |sets| => PyIndex(sets[k], Trunc(x[k])).value))
  }

  /**
   * `compute_stabber(samples, start, end)` when the optimizer returns `x`: an error for
   * inconsistent bounds, otherwise the picks of `x`.
   */
  function StabberOutcome(samples: seq<seq<Coords>>, start: nat, end: nat, x: seq<real>): Option<seq<Coords>>
    requires start <= end <= |samples|
  {
    if Consistent(Lower(end - start), Upper(samples, start, end)) then Pick(samples[start..end], x) else None
  }

  /**
   * The bounds make `int(x)` a valid index: with no empty sample set in the window and `x`
   * in the box, the stabber succeeds and its `k`-th point is sample `floor(x[k])` of ball
   * `start + k`.
   */
  lemma StabberInBox(samples: seq<seq<Coords>>, start: nat, end: nat, x: seq<real>)
    requires start <= end <= |samples| && forall i :: start <= i < end ==> |samples[i]| >= 1
    requires InBox(x, Lower(end - start), Upper(samples, start, end))
    ensures var r := StabberOutcome(samples, start, end, x);
      r.Some? && |r.value| == end - start &&
      forall k :: 0 <= k < end - start ==> 0 <= x[k].Floor < |samples[start + k]| && r.value[k] == samples[start + k][x[k].Floor]
  {
    ConsistentIffNonEmpty(samples, start, end);
    var sets := samples[start..end];
    forall k | 0 <= k < |sets|
      ensures 0 <= Trunc(x[k]) < |sets[k]| && Trunc(x[k]) == x[k].Floor
    {
      assert 0.0 <= x[k] <= (|sets[k]| as real) - 0.001;
    }
  }

  /** An empty sample set in the window makes the stabber fail: the optimizer rejects the bounds. */
  lemma StabberEmptyFails(samples: seq<seq<Coords>>, start: nat, end: nat, x: seq<real>, i: nat)
    requires start <= i < end <= |samples| && samples[i] == []
    ensures StabberOutcome(samples, start, end, x).None?
  {
    ConsistentIffNonEmpty(samples, start, end);
  }

  /** The optimizer: given the window's sample sets and the bounds, the vector it settles on. */
  type Annealer = (seq<seq<Coords>>, seq<real>, seq<real>) -> seq<real>

  /** `compute_stabber(samples, start, end)`: the bounds loop, the optimizer, and the loop picking one sample per ball. */
  method ComputeStabber(samples: seq<seq<Coords>>, start: nat, end: nat, anneal: Annealer)
    returns (r: Option<seq<Coords>>)
    requires start < end <= |samples|
    ensures r == StabberOutcome(samples, start, end, anneal(samples[start..end], Lower(end - start), Upper(samples, start, end)))
  {
    var lb: seq<real> := [];
    var ub: seq<real> := [];
    var i := start;
    while i < end
      invariant start <= i <= end && lb == Lower(end - start)[..i - start] && ub == Upper(samples, start, end)[..i - start]
    {
      lb := lb + [0.0];
      ub := ub + [|samples[i]| as real - 0.001];
      i := i + 1;
    }
    assert lb == Lower(end - start) && ub == Upper(samples, start, end);
    if !Consistent(lb, ub) {
      return None;
    }
    var x := anneal(samples[start..end], lb, ub);
    ghost var sets := samples[start..end];
    var curve: seq<Coords> := [];
    i := start;
    while i < end
      invariant start <= i <= end && |curve| == i - start
      invariant forall k :: 0 <= k < i - start ==> k < |x| && PyIndex(sets[k], Trunc(x[k])) == Some(curve[k])
    {
      if i - start >= |x| {
        assert |x| < |sets|;
        return None;
      }
      var t := Trunc(x[i - start]);
      if -|samples[i]| <= t < |samples[i]| {
        curve := curve + [if t >= 0 then samples[i][t] else samples[i][|samples[i]| + t]];
      } else {
        assert PyIndex(sets[i - start], Trunc(x[i - start])).None?;
        assert Pick(sets, x).None?;
        return None;
      }
      i := i + 1;
    }
    assert PyIndex(sets[|sets| - 1], Trunc(x[|sets| - 1])) == Some(curve[|sets| - 1]);
    assert !(exists k :: 0 <= k < |sets| && PyIndex(sets[k], Trunc(x[k])).None?);
    assert curve == seq(|sets|, k requires 0 <= k < |sets| => PyIndex(sets[k], Trunc(x[k])).value);
    r := Some(curve);
    assert r == Pick(sets, x);
  }

  // ---------------------------------------------------------------------------
  // `is_stabbable`
  // ---------------------------------------------------------------------------

  /** `check_containment(c1, r1, c2, r2, p)`: whether `p` lies in the region spanned by the two balls. */
  type Containment = (Coords, real, Coords, real, Coords) -> bool

  /** `[p for p in pts if check_containment(c1, r1, c2, r2, p)]` */
  function Keep(pts: seq<Coords>, inner: Ball, outer: Ball, contains: Containment): (r: seq<Coords>)
    ensures |r| <= |pts|
    ensures forall p :: p in r ==> p in pts && contains(inner.center, inner.radius, outer.center, outer.radius, p)
    ensures forall p :: p in pts && contains(inner.center, inner.radius, outer.center, outer.radius, p) ==> p in r
  {
    if |pts| == 0 then []
    else
      var rest := Keep(pts[1..], inner, outer, contains);
      assert forall p :: p in pts ==> p == pts[0] || p in pts[1..];
      if contains(inner.center, inner.radius, outer.center, outer.radius, pts[0]) then [pts[0]] + rest else rest
  }

  /** For every `j` of `start+1..jmax-1` and every `i < j` in the window, ball `j` keeps some sample. */
  ghost predicate AllKept(oldSamples: seq<seq<Coords>>, balls: seq<Ball>, contains: Containment, start: nat, jmax: nat, end: nat)
    requires jmax <= |oldSamples| && jmax <= |balls| && end < |balls|
  {
    forall j, i :: start <= i < j < jmax ==> |Keep(oldSamples[j], balls[i], balls[end], contains)| > 0
  }

  /** Every ball `j` of `start+1..jmax-1` holds its samples filtered against balls `j - 1` and `end`. */
  ghost predicate Filtered(samples: seq<seq<Coords>>, oldSamples: seq<seq<Coords>>, balls: seq<Ball>, contains: Containment,
                           start: nat, jmax: nat, end: nat)
    requires jmax <= |samples| && jmax <= |oldSamples| && jmax <= |balls| && end < |balls|
  {
    forall j :: start < j < jmax ==> samples[j] == Keep(oldSamples[j], balls[j - 1], balls[end], contains)
  }

  /**
   * The inner loop of `is_stabbable` for ball `j`: the samples of `j` are filtered against
   * each earlier ball of the window in turn, each time starting again from `oldSamples[j]`,
   * until one filter comes out empty.
   */
  method FilterBall(balls: seq<Ball>, oldSamples: seq<seq<Coords>>, samples: array<seq<Coords>>,
                    start: nat, j: nat, end: nat, contains: Containment)
    returns (ok: bool, ghost failI: nat)
    requires start < j < end < |balls| && |oldSamples| == |balls| == samples.Length
    modifies samples
    ensures forall b :: 0 <= b < samples.Length && b != j ==> samples[b] == old(samples[b])
    ensures ok <==> forall i :: start <= i < j ==> |Keep(oldSamples[j], balls[i], balls[end], contains)| > 0
    ensures ok ==> samples[j] == Keep(oldSamples[j], balls[j - 1], balls[end], contains)
    ensures !ok ==> start <= failI < j && samples[j] == [] && Keep(oldSamples[j], balls[failI], balls[end], contains) == []
  {
    failI := 0;
    var i := start;
    while i < j
      invariant start <= i <= j
      invariant forall b :: 0 <= b < samples.Length && b != j ==> samples[b] == old(samples[b])
      invariant forall i' :: start <= i' < i ==> |Keep(oldSamples[j], balls[i'], balls[end], contains)| > 0
      invariant i > start ==> samples[j] == Keep(oldSamples[j], balls[i - 1], balls[end], contains)
    {
      var points := Keep(oldSamples[j], balls[i], balls[end], contains);
      samples[j] := points;
      if |points| == 0 {
        return false, i;
      }
      i := i + 1;
    }
    ok := true;
  }

  /** Overwriting ball `j` alone keeps the balls before it filtered, and extends them when `j` is filtered too. */
  lemma FilteredStep(before: seq<seq<Coords>>, after: seq<seq<Coords>>, oldSamples: seq<seq<Coords>>, balls: seq<Ball>,
                     contains: Containment, start: nat, j: nat, end: nat)
    requires start < j < end < |balls| && |before| == |after| == |oldSamples| == |balls|
    requires Filtered(before, oldSamples, balls, contains, start, j, end)
    requires forall b :: 0 <= b < |after| && b != j ==> after[b] == before[b]
    ensures Filtered(after, oldSamples, balls, contains, start, j, end)
    ensures after[j] == Keep(oldSamples[j], balls[j - 1], balls[end], contains) ==>
      Filtered(after, oldSamples, balls, contains, start, j + 1, end)
  {
  }

  /** Ball `j` keeping a sample against every earlier ball extends `AllKept` by one. */
  lemma AllKeptStep(oldSamples: seq<seq<Coords>>, balls: seq<Ball>, contains: Containment, start: nat, j: nat, end: nat)
    requires start < j < end < |balls| && |oldSamples| == |balls|
    requires AllKept(oldSamples, balls, contains, start, j, end)
    requires forall i :: start <= i < j ==> |Keep(oldSamples[j], balls[i], balls[end], contains)| > 0
    ensures AllKept(oldSamples, balls, contains, start, j + 1, end)
  {
  }

  /**
   * `is_stabbable(balls, old_samples, new_samples, start, end)`: whether every inner ball
   * of the window keeps a sample against every earlier ball and ball `end`.  Only the
   * sample sets of the inner balls `start+1..end-1` are overwritten; on success each holds
   * its samples filtered against the ball before it, and at the first empty filter that
   * set is left empty and the later ones untouched.
   */
  method IsStabbable(balls: seq<Ball>, oldSamples: seq<seq<Coords>>, samples: array<seq<Coords>>,
                     start: nat, end: nat, contains: Containment)
    returns (ok: bool, ghost failJ: nat, ghost failI: nat)
    requires start <= end < |balls| && |oldSamples| == |balls| == samples.Length
    modifies samples
    ensures forall b :: 0 <= b < samples.Length && !(start < b < end) ==> samples[b] == old(samples[b])
    ensures ok <==> AllKept(oldSamples, balls, contains, start, end, end)
    ensures ok ==> Filtered(samples[..], oldSamples, balls, contains, start, end, end)
    ensures !ok ==>
      start <= failI < failJ < end && AllKept(oldSamples, balls, contains, start, failJ, end) &&
      Keep(oldSamples[failJ], balls[failI], balls[end], contains) == [] && samples[failJ] == [] &&
      Filtered(samples[..], oldSamples, balls, contains, start, failJ, end) &&
      forall b :: failJ < b < end ==> samples[b] == old(samples[b])
  {
    failJ, failI := 0, 0;
    ok := true;
    if end <= start + 1 {
      // `range(start + 1, end)` is empty
      return;
    }
    var j := start + 1;
    while j < end
      invariant start + 1 <= j <= end
      invariant forall b :: 0 <= b < samples.Length && !(start < b < j) ==> samples[b] == old(samples[b])
      invariant AllKept(oldSamples, balls, contains, start, j, end)
      invariant Filtered(samples[..], oldSamples, balls, contains, start, j, end)
    {
      ghost var before := samples[..];
      ok, failI := FilterBall(balls, oldSamples, samples, start, j, end, contains);
      FilteredStep(before, samples[..], oldSamples, balls, contains, start, j, end);
      if !ok {
        failJ := j;
        return;
      }
      AllKeptStep(oldSamples, balls, contains, start, j, end);
      j := j + 1;
    }
    ok := true;
  }

  // ---------------------------------------------------------------------------
  // `stabbing_path`
  // ---------------------------------------------------------------------------

  /** `int(100 * 1/epsilon * np.log(m))` given `lnm`, the natural logarithm of the number of balls. */
  function DefaultSampleCountAsWritten(epsilon: real, lnm: real): nat
    requires epsilon > 0.0 && lnm >= 0.0
  {
    var v := 100.0 / epsilon * lnm;
    assert v >= 0.0 by {
      assert 100.0 / epsilon > 0.0;
    }
    Trunc(v)
  }

  /**
   * For a single ball the logarithm is 0 and so is the default sample count: a ball of
   * positive radius gets no samples, its bounds `[0, -0.001]` are inconsistent and the
   * stabber fails.
   */
  lemma SingleBallGetsNoSamples(epsilon: real, x: seq<real>)
    requires epsilon > 0.0
    ensures DefaultSampleCountAsWritten(epsilon, 0.0) == 0
    ensures StabberOutcome([[]], 0, 1, x).None?
  {
    StabberEmptyFails([[]], 0, 1, x, 0);
  }

  /** The default sample count, at least one sample per ball. */
  function DefaultSampleCount(epsilon: real, lnm: real): (n: nat)
    requires epsilon > 0.0 && lnm >= 0.0
    ensures n >= 1 && n >= DefaultSampleCountAsWritten(epsilon, lnm)
  {
    var n := DefaultSampleCountAsWritten(epsilon, lnm);
    if n >= 1 then n else 1
  }

  /** `n_samples`, or its default. */
  function SampleCount(nSamples: Option<nat>, epsilon: real, lnm: real): nat
    requires nSamples.None? ==> epsilon > 0.0 && lnm >= 0.0
  {
    if nSamples.Some? then nSamples.value else DefaultSampleCount(epsilon, lnm)
  }

  /**
   * The balls the stabber covers after the extension to ball `e` failed, `end` being back
   * at `e`, as written: `compute_stabber(old_samples, start, end - 1)`.
   */
  function FailedWindowAsWritten(start: nat, e: nat): (nat, nat)
    requires start + 2 <= e
  {
    (start, e - 1)
  }

  /** The same window covering every ball before the failed one: `[start, e)`. */
  function FailedWindow(start: nat, e: nat): (nat, nat)
    requires start + 2 <= e
  {
    (start, e)
  }

  /**
   * As written, ball `e - 1` is in neither the window of the stabber nor the next window,
   * which starts at `e`; the corrected window ends where the next one starts.
   */
  lemma FailedWindowSkipsBall(start: nat, e: nat)
    requires start + 2 <= e
    ensures var w := FailedWindowAsWritten(start, e);
      w.0 < w.1 && !(w.0 <= e - 1 < w.1) && e - 1 < e
    ensures var w := FailedWindow(start, e); w.0 < w.1 && w.1 == e
  {
  }

  /** Every sample of ball `b` lies in ball `b`. */
  ghost predicate WithinBalls(sets: seq<seq<Coords>>, balls: seq<Ball>)
  {
    |sets| == |balls| && forall b, p :: 0 <= b < |sets| && p in sets[b] ==> InBall(p, balls[b])
  }

  /** No ball has an empty sample set. */
  ghost predicate NonEmpty(sets: seq<seq<Coords>>)
  {
    forall b :: 0 <= b < |sets| ==> |sets[b]| >= 1
  }

  /** The optimizer keeps to the bounds it is given when they are consistent. */
  ghost predicate BoxOk(anneal: Annealer, sets: seq<seq<Coords>>, lb: seq<real>, ub: seq<real>)
  {
    Consistent(lb, ub) ==> InBox(anneal(sets, lb, ub), lb, ub)
  }

  ghost predicate GoodAnnealer(anneal: Annealer)
  {
    forall sets, lb, ub :: BoxOk(anneal, sets, lb, ub)
  }

  /** The windows `[lo, hi)` of the stabber calls so far: non-empty, adjacent, from ball 0 up to `start`. */
  ghost predicate TilesUpTo(windows: seq<(nat, nat)>, start: nat)
  {
    (|windows| == 0 ==> start == 0) &&
    (|windows| >= 1 ==> windows[0].0 == 0 && windows[|windows| - 1].1 == start) &&
    (forall w :: 0 <= w < |windows| ==> windows[w].0 < windows[w].1) &&
    (forall w :: 0 <= w < |windows| - 1 ==> windows[w].1 == windows[w + 1].0)
  }

  /**
   * The windows cover the balls `0..m-1` one after the other, except the last ball when
   * the path ends with its trailing sample.
   */
  ghost predicate Tiles(windows: seq<(nat, nat)>, m: nat, trailing: bool)
  {
    |windows| >= 1 && m >= 1 && TilesUpTo(windows, if trailing then m - 1 else m)
  }

  /** Every ball before the end of adjacent windows lies in one of them. */
  lemma {:induction false} TilesCover(windows: seq<(nat, nat)>, start: nat, b: nat) returns (w: nat)
    requires TilesUpTo(windows, start) && b < start
    ensures w < |windows| && windows[w].0 <= b < windows[w].1
  {
    var last := |windows| - 1;
    if b >= windows[last].0 {
      w := last;
    } else {
      assert TilesUpTo(windows[..last], windows[last].0);
      w := TilesCover(windows[..last], windows[last].0, b);
    }
  }

  /** Each segment joins a sample of the first ball of its window to one of its last ball. */
  ghost predicate SegmentsInBalls(segments: seq<(Coords, Coords)>, windows: seq<(nat, nat)>, balls: seq<Ball>)
  {
    |segments| == |windows| &&
    forall w :: 0 <= w < |windows| ==>
      windows[w].0 < windows[w].1 <= |balls| &&
      InBall(segments[w].0, balls[windows[w].0]) && InBall(segments[w].1, balls[windows[w].1 - 1])
  }

  /** `np.concatenate(segments)`: both ends of every segment, in order. */
  function Concat(segments: seq<(Coords, Coords)>): (points: seq<Coords>)
    ensures |points| == 2 * |segments|
  {
    if |segments| == 0 then [] else Concat(segments[..|segments| - 1]) + [segments[|segments| - 1].0, segments[|segments| - 1].1]
  }

  /** The answer of `stabbing_path`: the path and the final sample sets, or an exception. */
  datatype PathResult = PathFailed | Path(points: seq<Coords>, samples: seq<seq<Coords>>)

  /** The loop of `stabbing_path` drawing the samples of every ball, one ball after the other. */
  method InitialSamples(balls: seq<Ball>, n: nat, draw: nat -> Coords) returns (sets: seq<seq<Coords>>)
    requires |balls| >= 1 && (forall b :: 0 <= b < |balls| ==> |balls[b].center| == |balls[0].center|)
    requires Stream(draw, |balls[0].center|) && forall k :: AcceptAfter(draw, k)
    ensures WithinBalls(sets, balls)
    ensures n >= 1 ==> NonEmpty(sets)
  {
    var dim := |balls[0].center|;
    sets := [];
    var next := 0;
    var i := 0;
    while i < |balls|
      invariant i <= |balls| && |sets| == i
      invariant forall b, p :: 0 <= b < i && p in sets[b] ==> InBall(p, balls[b])
      invariant n >= 1 ==> forall b :: 0 <= b < i ==> |sets[b]| >= 1
    {
      var points, after, _ := RejectionSampling(dim, balls[i].radius, balls[i].center, n, draw, next);
      assert forall p :: p in points ==> InBall(p, balls[i]);
      sets := sets + [points];
      next := after;
      i := i + 1;
    }
  }

  /**
   * `tmp = compute_stabber(old_samples, lo, hi)` and its segment `(tmp[0], tmp[-1])`: a
   * sample of ball `lo` and one of ball `hi - 1`, which exists whenever no sample set is
   * empty and the optimizer keeps to its bounds.
   */
  method Segment(samples: seq<seq<Coords>>, lo: nat, hi: nat, anneal: Annealer, ghost balls: seq<Ball>)
    returns (seg: Option<(Coords, Coords)>)
    requires lo < hi <= |samples| && WithinBalls(samples, balls)
    ensures seg.Some? ==> InBall(seg.value.0, balls[lo]) && InBall(seg.value.1, balls[hi - 1])
    ensures NonEmpty(samples) && GoodAnnealer(anneal) ==> seg.Some?
  {
    var tmp := ComputeStabber(samples, lo, hi, anneal);
    ghost var lb, ub := Lower(hi - lo), Upper(samples, lo, hi);
    ghost var x := anneal(samples[lo..hi], lb, ub);
    if NonEmpty(samples) && GoodAnnealer(anneal) {
      ConsistentIffNonEmpty(samples, lo, hi);
      assert BoxOk(anneal, samples[lo..hi], lb, ub);
      StabberInBox(samples, lo, hi, x);
    }
    if tmp.None? {
      return None;
    }
    var curve := tmp.value;
    assert curve[0] in samples[lo..hi][0];
    assert curve[|curve| - 1] in samples[lo..hi][hi - lo - 1];
    seg := Some((curve[0], curve[|curve| - 1]));
  }

  /**
   * The `stabbable` branch of the loop: `old_samples = new_samples.copy()`, then
   * `is_stabbable` filters the inner balls of the window in place.  The sets stay within
   * their balls, and a successful extension leaves none empty.
   */
  method Extend(balls: seq<Ball>, samples: array<seq<Coords>>, start: nat, end: nat, contains: Containment)
    returns (ok: bool, oldSamples: seq<seq<Coords>>)
    requires start <= end < |balls| == samples.Length && WithinBalls(samples[..], balls)
    modifies samples
    ensures oldSamples == old(samples[..])
    ensures WithinBalls(samples[..], balls)
    ensures ok && NonEmpty(oldSamples) ==> NonEmpty(samples[..])
    ensures ok <==> AllKept(oldSamples, balls, contains, start, end, end)
  {
    oldSamples := samples[..];
    ghost var failJ, failI;
    ok, failJ, failI := IsStabbable(balls, oldSamples, samples, start, end, contains);
    forall b, p | 0 <= b < samples.Length && p in samples[b]
      ensures InBall(p, balls[b])
    {
      if start < b < end && (ok || b < failJ) {
        assert samples[b] == Keep(oldSamples[b], balls[b - 1], balls[end], contains);
        assert p in oldSamples[b];
      } else if !ok && b == failJ {
        assert false;
      } else {
        assert samples[b] == oldSamples[b];
      }
    }
    if ok && NonEmpty(oldSamples) {
      forall b | 0 <= b < samples.Length
        ensures |samples[b]| >= 1
      {
        if start < b < end {
          assert |Keep(oldSamples[b], balls[b - 1], balls[end], contains)| > 0;
        } else {
          assert samples[b] == oldSamples[b];
        }
      }
    }
  }

  /** The windows closed so far tile the balls before `start`, each with its segment. */
  ghost predicate Progress(windows: seq<(nat, nat)>, segments: seq<(Coords, Coords)>, balls: seq<Ball>, start: nat)
  {
    TilesUpTo(windows, start) && SegmentsInBalls(segments, windows, balls)
  }

  lemma ProgressAppend(windows: seq<(nat, nat)>, segments: seq<(Coords, Coords)>, balls: seq<Ball>,
                       start: nat, e: nat, seg: (Coords, Coords))
    requires Progress(windows, segments, balls, start) && start < e <= |balls|
    requires InBall(seg.0, balls[start]) && InBall(seg.1, balls[e - 1])
    ensures Progress(windows + [(start, e)], segments + [seg], balls, e)
  {
  }

  /** The sample sets of the loop of `stabbing_path`: within their balls, and none empty once each ball got a sample. */
  ghost predicate SampleState(balls: seq<Ball>, n: nat, oldSamples: seq<seq<Coords>>, newSamples: seq<seq<Coords>>, stabbable: bool)
  {
    WithinBalls(oldSamples, balls) && WithinBalls(newSamples, balls) &&
    (n >= 1 ==> NonEmpty(oldSamples) && (stabbable ==> NonEmpty(newSamples)))
  }

  /** `list(sets)`: a new array holding the sets. */
  method Copy(sets: seq<seq<Coords>>) returns (a: array<seq<Coords>>)
    ensures fresh(a) && a[..] == sets
  {
    a := new seq<Coords>[|sets|](i requires 0 <= i < |sets| => sets[i]);
  }

  /**
   * The closing segment of `stabbing_path` after the window loop: with `stabbable` the
   * last window runs to the last ball; otherwise it stops before the last ball and the
   * path ends with the first sample of the last ball (`old_samples[-1][0]`).
   */
  method Finish(balls: seq<Ball>, oldSamples: seq<seq<Coords>>, newSamples: seq<seq<Coords>>, start: nat, stabbable: bool,
                anneal: Annealer, segments: seq<(Coords, Coords)>, ghost windows: seq<(nat, nat)>)
    returns (result: PathResult, segs: seq<(Coords, Coords)>, ghost ws: seq<(nat, nat)>, ghost trailing: bool)
    requires Progress(windows, segments, balls, start) && |balls| >= 1
    requires if stabbable then start < |balls| else start + 2 <= |balls|
    requires WithinBalls(oldSamples, balls) && WithinBalls(newSamples, balls)
    ensures trailing == !stabbable
    ensures result.Path? ==>
      Tiles(ws, |balls|, trailing) && SegmentsInBalls(segs, ws, balls) &&
      (!trailing ==> result.points == Concat(segs) && result.samples == newSamples) &&
      (trailing ==> |result.points| == 2 * |segs| + 1 && result.points[..2 * |segs|] == Concat(segs) &&
                    InBall(result.points[2 * |segs|], balls[|balls| - 1]) && result.samples == oldSamples)
    ensures NonEmpty(oldSamples) && GoodAnnealer(anneal) ==> result.Path?
  {
    var m := |balls|;
    trailing := !stabbable;
    var hi := if stabbable then m else m - 1;
    var seg := Segment(oldSamples, start, hi, anneal, balls);
    segs, ws := segments, windows;
    if seg.None? {
      return PathFailed, segs, ws, trailing;
    }
    ProgressAppend(windows, segments, balls, start, hi, seg.value);
    segs, ws := segments + [seg.value], windows + [(start, hi)];
    Closed(ws, segs, balls, m, trailing);
    if stabbable {
      result := Path(Concat(segs), newSamples);
    } else if |oldSamples[m - 1]| == 0 {
      // `old_samples[-1][0]` raises an IndexError
      result := PathFailed;
    } else {
      var last := oldSamples[m - 1][0];
      FirstSampleInBall(oldSamples, balls, m - 1);
      TrailingPoint(segs, last);
      result := Path(Concat(segs) + [last], oldSamples);
    }
  }

  /** Windows that reach the last ball (or the one before it) tile the balls. */
  lemma Closed(windows: seq<(nat, nat)>, segments: seq<(Coords, Coords)>, balls: seq<Ball>, m: nat, trailing: bool)
    requires |windows| >= 1 && m >= 1 && Progress(windows, segments, balls, if trailing then m - 1 else m)
    ensures Tiles(windows, m, trailing) && SegmentsInBalls(segments, windows, balls)
  {
  }

  /** The first sample of a ball lies in that ball. */
  lemma FirstSampleInBall(sets: seq<seq<Coords>>, balls: seq<Ball>, b: nat)
    requires WithinBalls(sets, balls) && b < |sets| && |sets[b]| >= 1
    ensures InBall(sets[b][0], balls[b])
  {
    assert sets[b][0] in sets[b];
  }

  /** One point after the segment ends: the path keeps them as its prefix. */
  lemma TrailingPoint(segments: seq<(Coords, Coords)>, last: Coords)
    ensures |Concat(segments) + [last]| == 2 * |segments| + 1
    ensures (Concat(segments) + [last])[..2 * |segments|] == Concat(segments)
    ensures (Concat(segments) + [last])[2 * |segments|] == last
  {
  }

  /**
   * `stabbing_path(balls, epsilon, n_samples)`: the path and the final sample sets.  The
   * stabber windows run from ball 0 one after the other to the last ball, or to the one
   * before it when the path ends with a sample of the last ball; every path point is a
   * sample of the ball it stands for; and no exception occurs when every ball gets a
   * sample and the optimizer keeps to its bounds.
   */
  method StabbingPath(balls: seq<Ball>, epsilon: real, nSamples: Option<nat>, lnm: real,
                      draw: nat -> Coords, contains: Containment, anneal: Annealer)
    returns (result: PathResult, segments: seq<(Coords, Coords)>, ghost windows: seq<(nat, nat)>, ghost trailing: bool)
    requires |balls| >= 1 && (forall b :: 0 <= b < |balls| ==> |balls[b].center| == |balls[0].center|)
    requires nSamples.None? ==> epsilon > 0.0 && lnm >= 0.0
    requires Stream(draw, |balls[0].center|) && forall k :: AcceptAfter(draw, k)
    ensures result.Path? ==>
      Tiles(windows, |balls|, trailing) && SegmentsInBalls(segments, windows, balls) &&
      (!trailing ==> result.points == Concat(segments)) &&
      (trailing ==> |result.points| == 2 * |segments| + 1 && result.points[..2 * |segments|] == Concat(segments) &&
                    InBall(result.points[2 * |segments|], balls[|balls| - 1])) &&
      WithinBalls(result.samples, balls)
    ensures SampleCount(nSamples, epsilon, lnm) >= 1 && GoodAnnealer(anneal) ==> result.Path?
  {
    segments, windows, trailing := [], [], false;
    var m := |balls|;
    var n := SampleCount(nSamples, epsilon, lnm);
    var oldSamples := InitialSamples(balls, n, draw);
    var newSamples := Copy(oldSamples);
    var start, end := 0, 0;
    var stabbable := true;
    while end < m
      invariant start <= end <= m && |oldSamples| == m && newSamples.Length == m && fresh(newSamples)
      invariant !stabbable ==> start + 3 <= end
      invariant start < end || end < m
      invariant Progress(windows, segments, balls, start)
      invariant SampleState(balls, n, oldSamples, newSamples[..], stabbable)
      decreases m - start, 2 * (m - end) + (if stabbable then 1 else 0)
    {
      if stabbable {
        stabbable, oldSamples := Extend(balls, newSamples, start, end, contains);
        end := end + 1;
      } else {
        end := end - 1;
        var w := FailedWindow(start, end);
        var seg := Segment(oldSamples, w.0, w.1, anneal, balls);
        if seg.None? {
          return PathFailed, segments, windows, trailing;
        }
        ProgressAppend(windows, segments, balls, start, end, seg.value);
        segments, windows := segments + [seg.value], windows + [w];
        newSamples := Copy(oldSamples);
        start := end;
        stabbable := true;
      }
    }
    result, segments, windows, trailing := Finish(balls, oldSamples, newSamples[..], start, stabbable, anneal, segments, windows);
  }
}
