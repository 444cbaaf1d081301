/**
 * `frechet_median`: the (1+epsilon)-approximate Frechet median of the Python package.
 * A coreset (an oracle here) weights a few input curves; every vector of radii on a
 * grid per distinct coreset curve whose sum lies in `[cost/6, cost]` is handed to
 * `curve_within_radii`, the curves it finds are the candidates, and the candidate of
 * least weighted distance to the coreset is the median.
 */
module Median {
  import opened Wrappers
  import opened Points
  import opened ExtReals

  // ---------------------------------------------------------------------------
  // The coreset and its distinct curves
  // ---------------------------------------------------------------------------

  /**
   * The answer of `backend.onemedian_coreset(T, epsilon/2)`: its cost estimate, the
   * sensitivity `lambd` of every input curve and their total `Lambd`, and the sampled
   * curves as indexes into `T` (with repetitions).
   */
  datatype Coreset = Coreset(cost: real, lambd: seq<real>, Lambd: real, curves: seq<nat>)

  /** `s.count(x)` */
  function Count(s: seq<nat>, x: nat): nat
  {
    if |s| == 0 then 0 else Count(s[..|s| - 1], x) + (if s[|s| - 1] == x then 1 else 0)
  }

  ghost predicate Distinct(d: seq<nat>)
  {
    forall i, j :: 0 <= i < j < |d| ==> d[i] != d[j]
  }

  /**
   * `list(set(curves))`: every index of `curves` once, here in the order of first
   * occurrence.
   */
  function Dedup(s: seq<nat>): (d: seq<nat>)
    ensures forall x :: x in d <==> x in s
    ensures Distinct(d)
  {
    if |s| == 0 then []
    else
      var d := Dedup(s[..|s| - 1]);
      assert s == s[..|s| - 1] + [s[|s| - 1]];
      if s[|s| - 1] in d then d else d + [s[|s| - 1]]
  }

  /** `[curves.count(elem) for elem in curves_dist]` */
  function Multiplicities(curves: seq<nat>, distinct: seq<nat>): seq<nat>
  {
    seq(|distinct|, i requires 0 <= i < |distinct| => Count(curves, distinct[i]))
  }

  function SumNat(s: seq<nat>): nat
  {
    if |s| == 0 then 0 else SumNat(s[..|s| - 1]) + s[|s| - 1]
  }

  /** One more occurrence of `y` adds one to the multiplicities exactly when `y` is listed. */
  lemma {:induction false} MultiplicitiesSnoc(s: seq<nat>, y: nat, d: seq<nat>)
    requires Distinct(d)
    ensures SumNat(Multiplicities(s + [y], d)) == SumNat(Multiplicities(s, d)) + (if y in d then 1 else 0)
  {
    if |d| > 0 {
      var d' := d[..|d| - 1];
      var z := d[|d| - 1];
      assert Multiplicities(s + [y], d)[..|d| - 1] == Multiplicities(s + [y], d');
      assert Multiplicities(s, d)[..|d| - 1] == Multiplicities(s, d');
      MultiplicitiesSnoc(s, y, d');
      assert (s + [y])[..|s|] == s;
      assert Count(s + [y], z) == Count(s, z) + (if y == z then 1 else 0);
      assert d == d' + [z];
      assert y in d <==> y in d' || y == z;
    }
  }

  lemma {:induction false} CountAbsent(s: seq<nat>, x: nat)
    requires x !in s
    ensures Count(s, x) == 0
  {
    if |s| > 0 {
      assert s[..|s| - 1] <= s;
      CountAbsent(s[..|s| - 1], x);
    }
  }

  /** The multiplicities of the distinct coreset curves add up to the size of the coreset. */
  lemma {:induction false} MultiplicitiesSum(curves: seq<nat>)
    ensures SumNat(Multiplicities(curves, Dedup(curves))) == |curves|
  {
    if |curves| > 0 {
      var s := curves[..|curves| - 1];
      var y := curves[|curves| - 1];
      assert curves == s + [y];
      var d := Dedup(s);
      MultiplicitiesSum(s);
      MultiplicitiesSnoc(s, y, d);
      if y !in d {
        var d2 := d + [y];
        assert Dedup(curves) == d2;
        assert Multiplicities(curves, d2)[..|d|] == Multiplicities(curves, d);
        CountAbsent(s, y);
        assert (s + [y])[..|s|] == s;
        assert Count(curves, y) == 1;
      }
    }
  }

  /** `T[int(curve_ind)]` for every distinct coreset curve. */
  function Members(T: seq<Curve>, distinct: seq<nat>): seq<Curve>
    requires forall i :: 0 <= i < |distinct| ==> distinct[i] < |T|
  {
    seq(|distinct|, i requires 0 <= i < |distinct| => T[distinct[i]])
  }

  /** The loop adding the distinct coreset curves to `coreset_dist`. */
  method CollectMembers(T: seq<Curve>, distinct: seq<nat>) returns (members: seq<Curve>)
    requires forall i :: 0 <= i < |distinct| ==> distinct[i] < |T|
    ensures members == Members(T, distinct)
  {
    members := [];
    var i := 0;
    while i < |distinct|
      invariant i <= |distinct| && members == Members(T, distinct[..i])
    {
      members := members + [T[distinct[i]]];
      i := i + 1;
    }
    assert distinct[..i] == distinct;
  }

  // ---------------------------------------------------------------------------
  // The radius grids
  // ---------------------------------------------------------------------------

  /** `np.ceil` */
  function Ceil(x: real): (r: int)
    ensures x <= r as real < x + 1.0
  {
    -((-x).Floor)
  }

  /**
   * `np.ceil(cost/(epsilon*cost/24*lambd/Lambd))`, the number of grid points for a curve
   * of sensitivity `lam`; `None` where a divisor is zero and Python raises
   * `ZeroDivisionError`.
   */
  function GridSize(cost: real, epsilon: real, lam: real, Lam: real): Option<int>
  {
    if Lam == 0.0 then None
    else
      var den := epsilon * cost / 24.0 * lam / Lam;
      if den == 0.0 then None else Some(Ceil(cost / den))
  }

  /** A zero cost estimate makes the divisor zero: the grid of every curve fails. */
  lemma ZeroCostFails(epsilon: real, lam: real, Lam: real)
    ensures GridSize(0.0, epsilon, lam, Lam).None?
  {
  }

  /** A grid size exists only for a non-zero cost, sensitivity and total sensitivity. */
  lemma GridSizeDivisors(cost: real, epsilon: real, lam: real, Lam: real)
    requires GridSize(cost, epsilon, lam, Lam).Some?
    ensures cost != 0.0 && lam != 0.0 && Lam != 0.0 && epsilon != 0.0
  {
  }

  /**
   * `np.linspace(lo, hi, num=num, endpoint=True)`: `num` evenly spaced values from `lo`
   * to `hi`, both included.
   */
  function Linspace(lo: real, hi: real, num: nat): seq<real>
  {
    if num == 1 then [lo]
    else seq(num, k => (k as real) * ((hi - lo) / ((num - 1) as real)) + lo)
  }

  lemma StepBelow(k: nat, n: nat, w: real)
    requires k < n && w >= 0.0
    ensures 0.0 <= (k as real) * (w / (n as real)) <= w
  {
    var q := w / (n as real);
    assert q * (n as real) == w;
    assert (n as real) * q - (k as real) * q == ((n - k) as real) * q;
  }

  /** The grid has `num` points, starts at `lo`, ends at `hi` and stays within `[lo, hi]`. */
  lemma LinspaceSpans(lo: real, hi: real, num: nat)
    ensures |Linspace(lo, hi, num)| == num
    ensures num >= 1 ==> Linspace(lo, hi, num)[0] == lo
    ensures num >= 2 ==> Linspace(lo, hi, num)[num - 1] == hi
    ensures lo <= hi ==> forall k :: 0 <= k < num ==> lo <= Linspace(lo, hi, num)[k] <= hi
  {
    var g := Linspace(lo, hi, num);
    if num >= 2 {
      var n := (num - 1) as real;
      assert ((hi - lo) / n) * n == hi - lo;
      if lo <= hi {
        forall k | 0 <= k < num
          ensures lo <= g[k] <= hi
        {
          if k < num - 1 {
            StepBelow(k, num - 1, hi - lo);
          }
        }
      }
    }
  }

  /** The grid of every distinct curve can be built. */
  ghost predicate GridsOk(core: Coreset, epsilon: real, distinct: seq<nat>)
    requires forall i :: 0 <= i < |distinct| ==> distinct[i] < |core.lambd|
  {
    forall i :: 0 <= i < |distinct| ==>
      GridSize(core.cost, epsilon, core.lambd[distinct[i]], core.Lambd).Some? &&
      GridSize(core.cost, epsilon, core.lambd[distinct[i]], core.Lambd).value >= 0
  }

  /** `radiis`: the grid over `[0, cost]` of every distinct curve. */
  function Grids(core: Coreset, epsilon: real, distinct: seq<nat>): (grids: seq<seq<real>>)
    requires forall i :: 0 <= i < |distinct| ==> distinct[i] < |core.lambd|
    requires GridsOk(core, epsilon, distinct)
  {
    seq(|distinct|, i requires 0 <= i < |distinct| =>
      Linspace(0.0, core.cost, GridSize(core.cost, epsilon, core.lambd[distinct[i]], core.Lambd).value as nat))
  }

  /** One more grid at the end. */
  lemma GridsSnoc(core: Coreset, epsilon: real, distinct: seq<nat>, i: nat)
    requires i < |distinct| && forall k :: 0 <= k < |distinct| ==> distinct[k] < |core.lambd|
    requires GridsOk(core, epsilon, distinct[..i])
    requires GridSize(core.cost, epsilon, core.lambd[distinct[i]], core.Lambd).Some?
    requires GridSize(core.cost, epsilon, core.lambd[distinct[i]], core.Lambd).value >= 0
    ensures GridsOk(core, epsilon, distinct[..i + 1])
    ensures Grids(core, epsilon, distinct[..i + 1]) ==
      Grids(core, epsilon, distinct[..i]) + [Linspace(0.0, core.cost, GridSize(core.cost, epsilon, core.lambd[distinct[i]], core.Lambd).value as nat)]
  {
    assert distinct[..i + 1][..i] == distinct[..i];
  }

  /** The number of radius vectors, `len(range_0) * len(range_1) * ...`. */
  function SizeProduct(grids: seq<seq<real>>): nat
  {
    if |grids| == 0 then 1 else SizeProduct(grids[..|grids| - 1]) * |grids[|grids| - 1]|
  }

  /**
   * The loop building `radiis` and `length`.  `None` when the size of some grid cannot be
   * computed (`ZeroDivisionError`) or is negative (`ValueError` from `np.linspace`).
   */
  method BuildGrids(core: Coreset, epsilon: real, distinct: seq<nat>) returns (r: Option<(seq<seq<real>>, nat)>)
    requires forall i :: 0 <= i < |distinct| ==> distinct[i] < |core.lambd|
    ensures r.Some? <==> GridsOk(core, epsilon, distinct)
    ensures r.Some? ==> r.value.0 == Grids(core, epsilon, distinct) && r.value.1 == SizeProduct(r.value.0)
  {
    var radiis: seq<seq<real>> := [];
    var length: nat := 1;
    var i := 0;
    while i < |distinct|
      invariant i <= |distinct| && GridsOk(core, epsilon, distinct[..i])
      invariant radiis == Grids(core, epsilon, distinct[..i]) && length == SizeProduct(radiis)
    {
      var num := GridSize(core.cost, epsilon, core.lambd[distinct[i]], core.Lambd);
      if num.None? || num.value < 0 {
        return None;
      }
      var range := Linspace(0.0, core.cost, num.value as nat);
      GridsSnoc(core, epsilon, distinct, i);
      length := length * |range|;
      assert (radiis + [range])[..|radiis|] == radiis;
      radiis := radiis + [range];
      i := i + 1;
    }
    assert distinct[..i] == distinct;
    r := Some((radiis, length));
  }

  // ---------------------------------------------------------------------------
  // `itertools.product(*radiis)`
  // ---------------------------------------------------------------------------

  /** `x` in front of every vector of `ps`. */
  function Prepend(x: real, ps: seq<seq<real>>): seq<seq<real>>
  {
    seq(|ps|, i requires 0 <= i < |ps| => [x] + ps[i])
  }

  /** The vectors with first entry from `g` and the rest from `rest`, the first entry varying slowest. */
  function Expand(g: seq<real>, rest: seq<seq<real>>): seq<seq<real>>
  {
    if |g| == 0 then [] else Prepend(g[0], rest) + Expand(g[1..], rest)
  }

  /** `itertools.product(*grids)`, in its order: the last grid varies fastest. */
  function Product(grids: seq<seq<real>>): seq<seq<real>>
  {
    if |grids| == 0 then [[]] else Expand(grids[0], Product(grids[1..]))
  }

  lemma {:induction false} ExpandLength(g: seq<real>, rest: seq<seq<real>>)
    ensures |Expand(g, rest)| == |g| * |rest|
  {
    if |g| > 0 {
      ExpandLength(g[1..], rest);
      assert |g| * |rest| == |rest| + (|g| - 1) * |rest|;
    }
  }

  lemma {:induction false} SizeProductCons(grids: seq<seq<real>>)
    requires |grids| >= 1
    ensures SizeProduct(grids) == |grids[0]| * SizeProduct(grids[1..])
  {
    if |grids| > 1 {
      var front := grids[..|grids| - 1];
      SizeProductCons(front);
      assert front[1..] == grids[1..][..|grids| - 2];
      var a, b, c := |grids[0]|, SizeProduct(front[1..]), |grids[|grids| - 1]|;
      assert (a * b) * c == a * (b * c);
    } else {
      assert grids[1..] == [];
    }
  }

  /** `length` counts the radius vectors the product enumerates. */
  lemma {:induction false} ProductLength(grids: seq<seq<real>>)
    ensures |Product(grids)| == SizeProduct(grids)
  {
    if |grids| > 0 {
      ProductLength(grids[1..]);
      ExpandLength(grids[0], Product(grids[1..]));
      SizeProductCons(grids);
    }
  }

  lemma {:induction false} ExpandMembers(g: seq<real>, rest: seq<seq<real>>, v: seq<real>)
    ensures v in Expand(g, rest) <==> |v| >= 1 && v[0] in g && v[1..] in rest
  {
    if |g| > 0 {
      ExpandMembers(g[1..], rest, v);
      assert g == [g[0]] + g[1..];
      if |v| >= 1 && v[0] == g[0] && v[1..] in rest {
        var i :| 0 <= i < |rest| && rest[i] == v[1..];
        assert v == [g[0]] + rest[i];
        assert Prepend(g[0], rest)[i] == v;
      }
      if v in Prepend(g[0], rest) {
        var i :| 0 <= i < |rest| && Prepend(g[0], rest)[i] == v;
        assert v[1..] == rest[i];
      }
    }
  }

  /**
   * The product holds exactly the vectors with one entry from each grid, in the order of
   * the grids.
   */
  lemma {:induction false} ProductMembers(grids: seq<seq<real>>, v: seq<real>)
    ensures v in Product(grids) <==> |v| == |grids| && forall i :: 0 <= i < |grids| ==> v[i] in grids[i]
  {
    if |grids| == 0 {
      assert v in [[]] <==> v == [];
    } else {
      ExpandMembers(grids[0], Product(grids[1..]), v);
      if |v| >= 1 {
        ProductMembers(grids[1..], v[1..]);
        if |v| == |grids| && forall i :: 0 <= i < |grids| ==> v[i] in grids[i] {
          assert forall i :: 0 <= i < |grids| - 1 ==> v[1..][i] in grids[1..][i] by {
            forall i | 0 <= i < |grids| - 1
              ensures v[1..][i] in grids[1..][i]
            {
              assert v[1..][i] == v[i + 1];
            }
          }
        }
        if v[0] in grids[0] && |v[1..]| == |grids[1..]| && forall i :: 0 <= i < |grids| - 1 ==> v[1..][i] in grids[1..][i] {
          forall i | 0 <= i < |grids|
            ensures v[i] in grids[i]
          {
            if i > 0 {
              assert v[i] == v[1..][i - 1];
            }
          }
        }
      }
    }
  }

  // ---------------------------------------------------------------------------
  // Pruning and the candidates
  // ---------------------------------------------------------------------------

  /** `np.sum(radii)` */
  function Sum(r: seq<real>): real
  {
    if |r| == 0 then 0.0 else Sum(r[..|r| - 1]) + r[|r| - 1]
  }

  /** A radius vector that is not skipped: `not (rsum < lower or rsum > cost)`. */
  predicate InRange(r: seq<real>, lower: real, upper: real)
  {
    !(Sum(r) < lower || Sum(r) > upper)
  }

  /** The radius vectors handed to `curve_within_radii`, in enumeration order. */
  function Pruned(vs: seq<seq<real>>, lower: real, upper: real): seq<seq<real>>
  {
    if |vs| == 0 then []
    else Pruned(vs[..|vs| - 1], lower, upper) + (if InRange(vs[|vs| - 1], lower, upper) then [vs[|vs| - 1]] else [])
  }

  /** `curve_within_radii(coreset_dist, radii)`: the curve it finds, or `None` when `candidate[0]` is false. */
  type Within = (seq<Curve>, seq<real>) -> Option<Curve>

  /** The curves found for the radius vectors `qs`, in their order. */
  function Feasible(within: Within, members: seq<Curve>, qs: seq<seq<real>>): seq<Curve>
  {
    if |qs| == 0 then []
    else
      var c := within(members, qs[|qs| - 1]);
      Feasible(within, members, qs[..|qs| - 1]) + (if c.Some? then [c.value] else [])
  }

  /** A radius vector is handed on exactly when it is enumerated and its sum lies in `[lower, upper]`. */
  lemma {:induction false} PrunedMembers(vs: seq<seq<real>>, lower: real, upper: real, v: seq<real>)
    ensures v in Pruned(vs, lower, upper) <==> v in vs && lower <= Sum(v) <= upper
  {
    if |vs| > 0 {
      PrunedMembers(vs[..|vs| - 1], lower, upper, v);
      assert vs == vs[..|vs| - 1] + [vs[|vs| - 1]];
    }
  }

  /** Pruning keeps the enumeration order: it distributes over concatenation. */
  lemma {:induction false} PrunedAppend(a: seq<seq<real>>, b: seq<seq<real>>, lower: real, upper: real)
    ensures Pruned(a + b, lower, upper) == Pruned(a, lower, upper) + Pruned(b, lower, upper)
  {
    if |b| > 0 {
      var b' := b[..|b| - 1];
      assert (a + b)[..|a + b| - 1] == a + b';
      PrunedAppend(a, b', lower, upper);
    } else {
      assert a + b == a;
    }
  }

  /** Each candidate is the curve found for one of the radius vectors handed on, and each such curve is a candidate. */
  lemma {:induction false} FeasibleMembers(within: Within, members: seq<Curve>, qs: seq<seq<real>>, c: Curve)
    ensures c in Feasible(within, members, qs) <==> exists q :: q in qs && within(members, q) == Some(c)
  {
    if |qs| > 0 {
      var qs' := qs[..|qs| - 1];
      var last := qs[|qs| - 1];
      FeasibleMembers(within, members, qs', c);
      assert qs == qs' + [last];
      if within(members, last) == Some(c) {
        assert last in qs;
      }
      if exists q :: q in qs && within(members, q) == Some(c) {
        var q :| q in qs && within(members, q) == Some(c);
        if q != last {
          assert q in qs';
        }
      }
    }
  }

  /** Candidates keep the order of the radius vectors: collecting distributes over concatenation. */
  lemma {:induction false} FeasibleAppend(within: Within, members: seq<Curve>, a: seq<seq<real>>, b: seq<seq<real>>)
    ensures Feasible(within, members, a + b) == Feasible(within, members, a) + Feasible(within, members, b)
  {
    if |b| > 0 {
      var b' := b[..|b| - 1];
      assert (a + b)[..|a + b| - 1] == a + b';
      FeasibleAppend(within, members, a, b');
    } else {
      assert a + b == a;
    }
  }

  /**
   * The loop over `itertools.product(*radiis)`: `count` counts the vectors, the vectors
   * whose sum is in `[lower, cost]` go to `curve_within_radii` (recorded in `queried`),
   * and the curves it finds are appended to `candidates`.
   */
  method CollectCandidates(members: seq<Curve>, vectors: seq<seq<real>>, lower: real, cost: real, within: Within)
    returns (candidates: seq<Curve>, count: nat, ghost queried: seq<seq<real>>)
    ensures count == |vectors|
    ensures queried == Pruned(vectors, lower, cost)
    ensures candidates == Feasible(within, members, queried)
  {
    candidates, count, queried := [], 0, [];
    var k := 0;
    while k < |vectors|
      invariant k <= |vectors| && count == k
      invariant queried == Pruned(vectors[..k], lower, cost)
      invariant candidates == Feasible(within, members, queried)
    {
      var radii := vectors[k];
      assert vectors[..k + 1][..k] == vectors[..k];
      count := count + 1;
      var rsum := Sum(radii);
      k := k + 1;
      if rsum < lower || rsum > cost {
        continue;
      }
      var candidate := within(members, radii);
      assert (queried + [radii])[..|queried|] == queried;
      queried := queried + [radii];
      if candidate.Some? {
        candidates := candidates + [candidate.value];
      }
    }
    assert vectors[..k] == vectors;
  }

  // ---------------------------------------------------------------------------
  // Scoring and selection
  // ---------------------------------------------------------------------------

  /** `continuous_frechet(a, b).value`, an oracle. */
  type Distance = (Curve, Curve) -> real

  /**
   * The weight of distinct curve `j` in the score, `mult_j * Lambd/lambd_j * 1/len(curves)`;
   * defined once the grids exist, which makes every `lambd_j` and the coreset non-empty.
   */
  function Weight(core: Coreset, distinct: seq<nat>, mults: seq<nat>, j: nat): real
    requires j < |distinct| == |mults| && distinct[j] < |core.lambd|
    requires core.lambd[distinct[j]] != 0.0 && |core.curves| >= 1
  {
    (mults[j] as real) * core.Lambd / core.lambd[distinct[j]] * 1.0 / (|core.curves| as real)
  }

  /** The coreset data the score of a candidate needs. */
  datatype Scoring = Scoring(members: seq<Curve>, weights: seq<real>)
  {
    ghost predicate Valid() { |members| == |weights| }
  }

  /** `sum_{j < k} weight_j * continuous_frechet(candidate, coreset_dist[j])` */
  function ScoreUpTo(sc: Scoring, dist: Distance, candidate: Curve, k: nat): real
    requires sc.Valid() && k <= |sc.members|
  {
    if k == 0 then 0.0 else ScoreUpTo(sc, dist, candidate, k - 1) + sc.weights[k - 1] * dist(candidate, sc.members[k - 1])
  }

  function Score(sc: Scoring, dist: Distance, candidate: Curve): real
    requires sc.Valid()
  {
    ScoreUpTo(sc, dist, candidate, |sc.members|)
  }

  /** Non-negative weights and distances give a non-negative score. */
  lemma {:induction false} ScoreNonNegative(sc: Scoring, dist: Distance, candidate: Curve, k: nat)
    requires sc.Valid() && k <= |sc.members|
    requires forall j :: 0 <= j < |sc.weights| ==> sc.weights[j] >= 0.0
    requires forall j :: 0 <= j < |sc.members| ==> dist(candidate, sc.members[j]) >= 0.0
    ensures ScoreUpTo(sc, dist, candidate, k) >= 0.0
  {
    if k > 0 {
      ScoreNonNegative(sc, dist, candidate, k - 1);
      assert sc.weights[k - 1] * dist(candidate, sc.members[k - 1]) >= 0.0;
    }
  }

  /** The inner loop accumulating `cost` for one candidate. */
  method ScoreOf(sc: Scoring, dist: Distance, candidate: Curve) returns (cost: real)
    requires sc.Valid()
    ensures cost == Score(sc, dist, candidate)
  {
    cost := 0.0;
    var j := 0;
    while j < |sc.members|
      invariant j <= |sc.members| && cost == ScoreUpTo(sc, dist, candidate, j)
    {
      cost := cost + sc.weights[j] * dist(candidate, sc.members[j]);
      j := j + 1;
    }
  }

  /** The scores of the candidates, in order. */
  function Scores(sc: Scoring, dist: Distance, candidates: seq<Curve>): (s: seq<real>)
    requires sc.Valid()
    ensures |s| == |candidates|
  {
    seq(|candidates|, i requires 0 <= i < |candidates| => Score(sc, dist, candidates[i]))
  }

  /** `best` has the least score among the first `n`, and every earlier one a larger score. */
  ghost predicate FirstMinUpTo(scores: seq<real>, best: nat, n: nat)
    requires best < n <= |scores|
  {
    (forall k :: 0 <= k < n ==> scores[best] <= scores[k]) &&
    (forall k :: 0 <= k < best ==> scores[best] < scores[k])
  }

  /** `best` is the first index of least score. */
  ghost predicate IsFirstMin(scores: seq<real>, best: nat)
  {
    best < |scores| && FirstMinUpTo(scores, best, |scores|)
  }

  /** The first index of least score comes before every other index of that score. */
  lemma FirstMinEarliest(scores: seq<real>, best: nat)
    requires IsFirstMin(scores, best)
    ensures forall k :: 0 <= k < |scores| && scores[k] == scores[best] ==> best <= k
  {
  }

  /**
   * The selection loop: the running minimum `min_cost`, starting at infinity, is replaced
   * only on a strictly smaller score, so the first candidate of least score wins;
   * `candidates[min_cost_curve]` raises `IndexError` when there are no candidates.
   */
  method SelectMedian(sc: Scoring, dist: Distance, candidates: seq<Curve>) returns (r: Option<Curve>, ghost best: nat)
    requires sc.Valid()
    ensures r.None? <==> |candidates| == 0
    ensures r.Some? ==> IsFirstMin(Scores(sc, dist, candidates), best) && r.value == candidates[best]
  {
    ghost var scores := Scores(sc, dist, candidates);
    var minCostCurve: nat := 0;
    var minCost := Inf;
    var i := 0;
    while i < |candidates|
      invariant i <= |candidates|
      invariant i == 0 ==> minCost == Inf && minCostCurve == 0
      invariant i > 0 ==> minCostCurve < i && minCost == Fin(scores[minCostCurve]) && FirstMinUpTo(scores, minCostCurve, i)
    {
      var cost := ScoreOf(sc, dist, candidates[i]);
      if Fin(cost).Lt(minCost) {
        minCostCurve := i;
        minCost := Fin(cost);
      }
      i := i + 1;
    }
    best := minCostCurve;
    if |candidates| == 0 {
      return None, best;
    }
    r := Some(candidates[minCostCurve]);
  }

  // ---------------------------------------------------------------------------
  // `frechet_median`
  // ---------------------------------------------------------------------------

  /** The coreset's curves index `T` and its sensitivities. */
  ghost predicate Indexes(T: seq<Curve>, core: Coreset)
  {
    forall c :: c in core.curves ==> c < |T| && c < |core.lambd|
  }

  /** The score weights of the distinct curves. */
  function Weights(core: Coreset, epsilon: real, distinct: seq<nat>): (w: seq<real>)
    requires forall i :: 0 <= i < |distinct| ==> distinct[i] < |core.lambd| && distinct[i] in core.curves
    requires GridsOk(core, epsilon, distinct)
    ensures |w| == |distinct|
  {
    var mults := Multiplicities(core.curves, distinct);
    seq(|distinct|, j requires 0 <= j < |distinct| =>
      GridSizeDivisors(core.cost, epsilon, core.lambd[distinct[j]], core.Lambd);
      Weight(core, distinct, mults, j))
  }

  /** The distinct coreset curves index `T` and the sensitivities. */
  lemma DedupIndexes(T: seq<Curve>, core: Coreset)
    requires Indexes(T, core)
    ensures forall i :: 0 <= i < |Dedup(core.curves)| ==> Dedup(core.curves)[i] in core.curves
    ensures forall i :: 0 <= i < |Dedup(core.curves)| ==> Dedup(core.curves)[i] < |T| && Dedup(core.curves)[i] < |core.lambd|
  {
    var d := Dedup(core.curves);
    forall i | 0 <= i < |d|
      ensures d[i] in core.curves
    {
      assert d[i] in d;
    }
  }

  /**
   * The candidates of `frechet_median`: the curves found for the grid vectors whose sum
   * lies in `[cost/6, cost]`, in the order of the product; `None` when a grid cannot be
   * built.
   */
  ghost function Candidates(T: seq<Curve>, core: Coreset, epsilon: real, within: Within): Option<seq<Curve>>
    requires Indexes(T, core)
  {
    DedupIndexes(T, core);
    CandidatesOf(T, core, epsilon, within, Dedup(core.curves))
  }

  /** `Candidates` over the given distinct coreset curves. */
  ghost function CandidatesOf(T: seq<Curve>, core: Coreset, epsilon: real, within: Within, d: seq<nat>): Option<seq<Curve>>
    requires forall i :: 0 <= i < |d| ==> d[i] < |T| && d[i] < |core.lambd|
  {
    if !GridsOk(core, epsilon, d) then None
    else Some(Feasible(within, Members(T, d), Pruned(Product(Grids(core, epsilon, d)), core.cost / 6.0, core.cost)))
  }

  /** The distinct coreset curves and their weights, once the grids exist. */
  ghost function MedianScoring(T: seq<Curve>, core: Coreset, epsilon: real): Scoring
    requires Indexes(T, core)
    requires (DedupIndexes(T, core); GridsOk(core, epsilon, Dedup(core.curves)))
  {
    DedupIndexes(T, core);
    var d := Dedup(core.curves);
    Scoring(Members(T, d), Weights(core, epsilon, d))
  }

  /**
   * `frechet_median(T, epsilon)` given the coreset: the first candidate of least score, or
   * `None` where Python raises, on a grid that cannot be built or when there is no
   * candidate.
   */
  method FrechetMedian(T: seq<Curve>, epsilon: real, core: Coreset, within: Within, dist: Distance)
    returns (r: Option<Curve>, candidates: seq<Curve>, ghost best: nat)
    requires Indexes(T, core)
    ensures r.Some? <==> Candidates(T, core, epsilon, within).Some? && |Candidates(T, core, epsilon, within).value| > 0
    ensures r.Some? ==>
      candidates == Candidates(T, core, epsilon, within).value &&
      IsFirstMin(Scores(MedianScoring(T, core, epsilon), dist, candidates), best) && r.value == candidates[best]
  {
    candidates, best := [], 0;
    var distinct := Dedup(core.curves);
    DedupIndexes(T, core);
    CandidatesOfDistinct(T, core, epsilon, within);
    var members, found := MedianCandidates(T, epsilon, core, within, distinct);
    if found.None? {
      return None, candidates, best;
    }
    candidates := found.value;
    MedianWeights(T, core, epsilon, distinct, members);
    var sc := Scoring(members, Weights(core, epsilon, distinct));
    r, best := SelectMedian(sc, dist, candidates);
  }

  /**
   * The part of `frechet_median` before the selection: the distinct coreset curves, their
   * grids and the candidates found on the grid vectors within the cost bounds.
   */
  method MedianCandidates(T: seq<Curve>, epsilon: real, core: Coreset, within: Within, distinct: seq<nat>)
    returns (members: seq<Curve>, found: Option<seq<Curve>>)
    requires forall i :: 0 <= i < |distinct| ==> distinct[i] < |T| && distinct[i] < |core.lambd|
    ensures members == Members(T, distinct)
    ensures found == CandidatesOf(T, core, epsilon, within, distinct)
    ensures found.Some? <==> GridsOk(core, epsilon, distinct)
  {
    members := CollectMembers(T, distinct);
    var grids := BuildGrids(core, epsilon, distinct);
    if grids.None? {
      return members, None;
    }
    var radiis, length := grids.value.0, grids.value.1;
    var candidates, count;
    ghost var queried;
    candidates, count, queried := CollectCandidates(members, Product(radiis), core.cost / 6.0, core.cost, within);
    FoundCandidates(T, core, epsilon, within, distinct, members, radiis, queried, candidates);
    found := Some(candidates);
  }

  /** `Candidates` is `CandidatesOf` the deduplicated coreset curves. */
  lemma CandidatesOfDistinct(T: seq<Curve>, core: Coreset, epsilon: real, within: Within)
    requires Indexes(T, core)
    ensures (DedupIndexes(T, core); Candidates(T, core, epsilon, within) == CandidatesOf(T, core, epsilon, within, Dedup(core.curves)))
  {
  }

  /** The curves found on the pruned product of the grids are the candidates. */
  lemma FoundCandidates(T: seq<Curve>, core: Coreset, epsilon: real, within: Within, distinct: seq<nat>, members: seq<Curve>,
                        radiis: seq<seq<real>>, queried: seq<seq<real>>, candidates: seq<Curve>)
    requires forall i :: 0 <= i < |distinct| ==> distinct[i] < |T| && distinct[i] < |core.lambd|
    requires members == Members(T, distinct) && GridsOk(core, epsilon, distinct)
    requires radiis == Grids(core, epsilon, distinct) && queried == Pruned(Product(radiis), core.cost / 6.0, core.cost)
    requires candidates == Feasible(within, members, queried)
    ensures CandidatesOf(T, core, epsilon, within, distinct) == Some(candidates)
  {
  }

  /** The scoring of `frechet_median` in terms of the distinct coreset curves. */
  lemma MedianWeights(T: seq<Curve>, core: Coreset, epsilon: real, distinct: seq<nat>, members: seq<Curve>)
    requires Indexes(T, core) && distinct == Dedup(core.curves)
    requires forall i :: 0 <= i < |distinct| ==> distinct[i] in core.curves && distinct[i] < |T| && distinct[i] < |core.lambd|
    requires members == Members(T, distinct) && GridsOk(core, epsilon, distinct)
    ensures MedianScoring(T, core, epsilon) == Scoring(members, Weights(core, epsilon, distinct))
    ensures |members| == |Weights(core, epsilon, distinct)|
  {
  }

}
