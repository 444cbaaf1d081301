/**
 * `include/clustering.hpp`: k-center clustering by Gonzalez' farthest-first traversal,
 * optionally improved by Arya et al.'s single-swap local search for the k-median cost,
 * and two 1-median heuristics.  Distances between input curves are computed on demand
 * and cached in an `n x n` matrix whose unset entries hold -1.
 *
 * `d(i, j)` stands for `Frechet::Continuous::distance(in[i], in[j])`; it is assumed
 * non-negative and symmetric, and 0 from a curve to itself, as the Fréchet distance is.
 */
module Clustering {

  import opened ExtReals
  import opened ClusterCosts
  import opened Arith

  /** `Clustering_Result` without its running time. */
  datatype ClusteringResult = ClusteringResult(centers: seq<nat>, value: ExtReal, assignment: map<nat, seq<nat>>)

  /** The properties of the Fréchet distance the model relies on. */
  ghost predicate Metric(d: (nat, nat) -> real)
  {
    (forall a, b :: d(a, b) >= 0.0) && (forall a, b :: d(a, b) == d(b, a)) && (forall a :: d(a, a) == 0.0)
  }

  /** Every cache entry is unset (negative) or holds the distance, symmetrically. */
  ghost predicate CacheValid(cache: array2<real>, d: (nat, nat) -> real, n: nat)
    reads cache
  {
    cache.Length0 == n && cache.Length1 == n &&
    forall x, y :: 0 <= x < n && 0 <= y < n ==>
      cache[x, y] == cache[y, x] && (cache[x, y] < 0.0 || cache[x, y] == d(x, y))
  }

  /** A fresh cache: every entry unset. */
  method NewCache(n: nat, ghost d: (nat, nat) -> real) returns (cache: array2<real>)
    ensures fresh(cache) && CacheValid(cache, d, n)
    ensures forall x, y :: 0 <= x < n && 0 <= y < n ==> cache[x, y] == -1.0
  {
    cache := new real[n, n]((x, y) => -1.0);
  }

  /**
   * `cheap_dist`: computes `d(i, j)` only when the entry is unset, and then stores it at
   * both `[i][j]` and `[j][i]`; no other entry changes.
   */
  method CheapDist(i: nat, j: nat, d: (nat, nat) -> real, cache: array2<real>, ghost n: nat)
    requires Metric(d) && CacheValid(cache, d, n) && i < n && j < n
    modifies cache
    ensures CacheValid(cache, d, n)
    ensures cache[i, j] == d(i, j) && cache[j, i] == d(i, j)
    ensures old(cache[i, j]) >= 0.0 ==> unchanged(cache)
    ensures forall x, y :: 0 <= x < n && 0 <= y < n && !(x == i && y == j) && !(x == j && y == i) ==>
      cache[x, y] == old(cache[x, y])
  {
    if cache[i, j] < 0.0 {
      var dist := d(i, j);
      cache[j, i] := dist;
      cache[i, j] := dist;
    }
  }

  /** `nearest_center`: the position of the first nearest center of curve `i`, 0 without centers. */
  method NearestCenter(i: nat, centers: seq<nat>, d: (nat, nat) -> real, cache: array2<real>, ghost n: nat)
    returns (nearest: nat)
    requires Metric(d) && CacheValid(cache, d, n) && i < n
    requires forall t :: 0 <= t < |centers| ==> centers[t] < n
    modifies cache
    ensures CacheValid(cache, d, n)
    ensures nearest == Nearest(d, i, centers)
  {
    var minCost := Inf;
    nearest := 0;
    var j := 0;
    while j < |centers|
      invariant j <= |centers| && CacheValid(cache, d, n)
      invariant minCost == CostOver(d, i, centers[..j])
      invariant nearest == Nearest(d, i, centers[..j])
    {
      CheapDist(i, centers[j], d, cache, n);
      assert centers[..j + 1][..j] == centers[..j];
      if Fin(cache[i, centers[j]]).Lt(minCost) {
        minCost := Fin(cache[i, centers[j]]);
        nearest := j;
      }
      j := j + 1;
    }
    assert centers[..|centers|] == centers;
  }

  /** `curve_cost`: the distance of curve `i` to its nearest center, `Inf` without centers. */
  method CurveCost(i: nat, centers: seq<nat>, d: (nat, nat) -> real, cache: array2<real>, ghost n: nat)
    returns (minCost: ExtReal)
    requires Metric(d) && CacheValid(cache, d, n) && i < n
    requires forall t :: 0 <= t < |centers| ==> centers[t] < n
    modifies cache
    ensures CacheValid(cache, d, n)
    ensures minCost == CostOver(d, i, centers)
  {
    minCost := Inf;
    var j := 0;
    while j < |centers|
      invariant j <= |centers| && CacheValid(cache, d, n)
      invariant minCost == CostOver(d, i, centers[..j])
    {
      CheapDist(i, centers[j], d, cache, n);
      assert centers[..j + 1][..j] == centers[..j];
      if Fin(cache[i, centers[j]]).Lt(minCost) {
        minCost := Fin(cache[i, centers[j]]);
      }
      j := j + 1;
    }
    assert centers[..|centers|] == centers;
  }

  /** `center_cost_sum`: the sum over all curves of their cost. */
  method CenterCostSum(n: nat, centers: seq<nat>, d: (nat, nat) -> real, cache: array2<real>)
    returns (cost: ExtReal)
    requires Metric(d) && CacheValid(cache, d, n)
    requires n > 0 ==> forall t :: 0 <= t < |centers| ==> centers[t] < n
    modifies cache
    ensures CacheValid(cache, d, n)
    ensures cost == SumCost(d, n, centers)
  {
    cost := Fin(0.0);
    var i := 0;
    while i < n
      invariant i <= n && CacheValid(cache, d, n)
      invariant cost == SumCost(d, i, centers)
    {
      var minCost := CurveCost(i, centers, d, cache, n);
      cost := Add(cost, minCost);
      i := i + 1;
    }
  }

  /** One empty bucket for each of the first `k` center positions. */
  method EmptyBuckets(k: nat) returns (result: map<nat, seq<nat>>)
    ensures forall x: nat :: x in result <==> x < k
    ensures forall x: nat :: x < k ==> result[x] == []
  {
    result := map[];
    var c := 0;
    while c < k
      invariant c <= k && forall x: nat :: x in result <==> x < c
      invariant forall x: nat :: x < c ==> result[x] == []
    {
      result := result[c := []];
      c := c + 1;
    }
  }

  /** `result` holds one bucket per center position, listing the first `i` curves by nearest center. */
  ghost predicate Buckets(d: (nat, nat) -> real, centers: seq<nat>, i: nat, result: map<nat, seq<nat>>)
  {
    (forall x: nat :: x in result <==> x < |centers|) &&
    forall x: nat :: x < |centers| ==> result[x] == Members(d, centers, i, x)
  }

  /** Appending curve `i` to its nearest center's bucket extends the buckets from `i` to `i + 1` curves. */
  lemma AppendToBucket(d: (nat, nat) -> real, centers: seq<nat>, i: nat, result: map<nat, seq<nat>>)
    requires |centers| > 0 && Buckets(d, centers, i, result)
    ensures Nearest(d, i, centers) in result
    ensures Buckets(d, centers, i + 1, result[Nearest(d, i, centers) := result[Nearest(d, i, centers)] + [i]])
  {
    NearestIsFirstMinimum(d, i, centers);
  }

  /**
   * `cluster_assignment`: empty without centers; otherwise one bucket per center position,
   * each holding, in increasing order, the curves whose nearest center it is.
   */
  method ClusterAssignment(n: nat, centers: seq<nat>, d: (nat, nat) -> real, cache: array2<real>)
    returns (result: map<nat, seq<nat>>)
    requires Metric(d) && CacheValid(cache, d, n)
    requires n > 0 ==> forall t :: 0 <= t < |centers| ==> centers[t] < n
    modifies cache
    ensures CacheValid(cache, d, n)
    ensures |centers| == 0 ==> result == map[]
    ensures |centers| > 0 ==> (forall c: nat :: c in result <==> c < |centers|)
    ensures |centers| > 0 ==> forall c: nat :: c < |centers| ==> c in result && result[c] == Members(d, centers, n, c)
  {
    result := map[];
    var k := |centers|;
    if k == 0 {
      return;
    }
    result := EmptyBuckets(k);
    var i := 0;
    while i < n
      invariant i <= n && CacheValid(cache, d, n)
      invariant Buckets(d, centers, i, result)
    {
      var nearest := NearestCenter(i, centers, d, cache, n);
      AppendToBucket(d, centers, i, result);
      result := result[nearest := result[nearest] + [i]];
      i := i + 1;
    }
  }

  /**
   * The farthest-curve scan of `gonzalez`: the running maximum of the curve costs,
   * starting from cost 0 at curve 0 and replaced only on a strictly larger cost.
   */
  method FarthestCurve(n: nat, centers: seq<nat>, d: (nat, nat) -> real, cache: array2<real>)
    returns (maxDist: ExtReal, maxCurve: nat)
    requires Metric(d) && CacheValid(cache, d, n)
    requires forall t :: 0 <= t < |centers| ==> centers[t] < n
    modifies cache
    ensures CacheValid(cache, d, n)
    ensures (maxDist, maxCurve) == Farthest(d, n, centers)
  {
    maxDist := Fin(0.0);
    maxCurve := 0;
    var j := 0;
    while j < n
      invariant j <= n && CacheValid(cache, d, n)
      invariant (maxDist, maxCurve) == Farthest(d, j, centers)
    {
      var cost := CurveCost(j, centers, d, cache, n);
      if maxDist.Lt(cost) {
        maxDist := cost;
        maxCurve := j;
      }
      j := j + 1;
    }
  }

  /**
   * The center loop of `gonzalez`: curve 0, then for each further center the farthest
   * curve.  `maxDist` is the cost of the last center chosen against the earlier ones, 0
   * when only curve 0 is chosen.
   */
  method GreedyLoop(numCenters: nat, n: nat, d: (nat, nat) -> real, cache: array2<real>)
    returns (centers: seq<nat>, maxDist: ExtReal)
    requires Metric(d) && CacheValid(cache, d, n) && n >= 1
    modifies cache
    ensures CacheValid(cache, d, n)
    ensures centers == GreedyCenters(d, n, 0, ExtraCenters(numCenters))
    ensures maxDist == GreedyRadius(d, n, 0, ExtraCenters(numCenters))
    ensures forall t :: 0 <= t < |centers| ==> centers[t] < n
  {
    centers := [0];
    maxDist := Fin(0.0);
    var i := 1;
    while i < numCenters
      invariant 1 <= i && (i <= numCenters || i == 1) && CacheValid(cache, d, n)
      invariant centers == GreedyCenters(d, n, 0, i - 1)
      invariant forall t :: 0 <= t < |centers| ==> centers[t] < n
      invariant maxDist == GreedyRadius(d, n, 0, i - 1)
    {
      centers, maxDist := GreedyRound(n, i - 1, centers, d, cache);
      i := i + 1;
    }
  }

  /** One round of the greedy loop: the farthest curve from the centers so far is added. */
  method GreedyRound(n: nat, m: nat, centers: seq<nat>, d: (nat, nat) -> real, cache: array2<real>)
    returns (next: seq<nat>, maxDist: ExtReal)
    requires Metric(d) && CacheValid(cache, d, n) && n >= 1
    requires centers == GreedyCenters(d, n, 0, m) && forall t :: 0 <= t < |centers| ==> centers[t] < n
    modifies cache
    ensures CacheValid(cache, d, n)
    ensures next == GreedyCenters(d, n, 0, m + 1) && maxDist == GreedyRadius(d, n, 0, m + 1)
    ensures forall t :: 0 <= t < |next| ==> next[t] < n
  {
    FarthestAttained(d, n, centers);
    var maxCurve;
    maxDist, maxCurve := FarthestCurve(n, centers, d, cache);
    next := centers + [maxCurve];
  }

  /**
   * One pass of the swap search over position `i`: every curve that is not in the
   * working copy replaces its center at `i`, and the copy is taken over whenever its cost
   * sum beats the current one by more than `gamma * approxCost`.
   */
  method SwapPass(i: nat, centers0: seq<nat>, cost0: real, gamma: int, approxCost: real,
                  n: nat, d: (nat, nat) -> real, cache: array2<real>)
    returns (centers: seq<nat>, cost: real, improved: bool)
    requires Metric(d) && CacheValid(cache, d, n) && i < |centers0|
    requires forall t :: 0 <= t < |centers0| ==> centers0[t] < n
    requires Fin(cost0) == SumCost(d, n, centers0) && gamma == 0
    modifies cache
    ensures CacheValid(cache, d, n)
    ensures |centers| == |centers0| && forall t :: 0 <= t < |centers| ==> centers[t] < n
    ensures Fin(cost) == SumCost(d, n, centers) && cost <= cost0
    ensures improved ==> cost < cost0
    ensures !improved ==> centers == centers0 && NoBetterSwapAt(d, n, centers0, i)
  {
    centers, cost, improved := centers0, cost0, false;
    var candidate: seq<nat> := centers0;
    var j: nat := 0;
    while j < n
      invariant j <= n && CacheValid(cache, d, n)
      invariant SwapState(d, n, i, j, centers0, cost0, candidate, centers, cost, improved)
      invariant forall t :: 0 <= t < |centers| ==> centers[t] < n && candidate[t] < n
    {
      candidate, centers, cost, improved :=
        SwapTry(i, j, candidate, centers, cost, improved, centers0, cost0, gamma, approxCost, n, d, cache);
      j := j + 1;
    }
  }

  /** The body of the swap pass for curve `j`. */
  method SwapTry(i: nat, j: nat, candidate0: seq<nat>, centers1: seq<nat>, cost1: real, improved1: bool,
                 ghost centers0: seq<nat>, ghost cost0: real, gamma: int, approxCost: real,
                 n: nat, d: (nat, nat) -> real, cache: array2<real>)
    returns (candidate: seq<nat>, centers: seq<nat>, cost: real, improved: bool)
    requires Metric(d) && CacheValid(cache, d, n) && j < n && gamma == 0
    requires SwapState(d, n, i, j, centers0, cost0, candidate0, centers1, cost1, improved1)
    requires forall t :: 0 <= t < |centers1| ==> centers1[t] < n && candidate0[t] < n
    modifies cache
    ensures CacheValid(cache, d, n)
    ensures SwapState(d, n, i, j + 1, centers0, cost0, candidate, centers, cost, improved)
    ensures forall t :: 0 <= t < |centers| ==> centers[t] < n && candidate[t] < n
  {
    candidate, centers, cost, improved := candidate0, centers1, cost1, improved1;
    if j in candidate {
      SwapSkip(d, n, i, j, centers0, cost0, candidate, centers, cost, improved);
    } else {
      var next := candidate[i := j];
      var candidateCost := CenterCostSum(n, next, d, cache);
      SumCostFinite(d, n, next);
      assert (gamma as real) * approxCost == 0.0;
      var taken := cost - (gamma as real) * approxCost > candidateCost.v;
      SwapReplace(d, n, i, j, centers0, cost0, candidate, centers, cost, improved, taken);
      candidate := next;
      if taken {
        cost := candidateCost.v;
        centers := candidate;
        improved := true;
      }
    }
  }

  /** `gamma = 1 / (3 k n)` in integer arithmetic: 0 for any positive `k` and `n`. */
  function SwapGamma(k: nat, n: nat): (gamma: int)
    requires k >= 1 && n >= 1
    ensures gamma == 0
  {
    var divisor := 3 * k * n;
    assert divisor >= 3 by {
      assert k * n >= n by {
        assert k * n == (k - 1) * n + n;
      }
    }
    DivSmall(1, divisor);
    1 / divisor
  }

  /** Presets the cache diagonal: every curve is at distance 0 from itself. */
  method ZeroDiagonal(cache: array2<real>, d: (nat, nat) -> real, n: nat)
    requires Metric(d) && CacheValid(cache, d, n)
    modifies cache
    ensures CacheValid(cache, d, n)
    ensures forall x :: 0 <= x < n ==> cache[x, x] == 0.0
  {
    var i := 0;
    while i < n
      invariant i <= n && CacheValid(cache, d, n)
      invariant forall x :: 0 <= x < i ==> cache[x, x] == 0.0
    {
      cache[i, i] := 0.0;
      i := i + 1;
    }
  }

  /**
   * The swap search of `gonzalez` with `arya` set: passes over all center positions until
   * a pass improves nothing.  `gamma` is 0, so a swap is taken exactly when it lowers the
   * cost sum strictly.  The result is a local optimum that costs no more than the
   * starting centers.
   */
  method LocalSearch(numCenters: nat, centers0: seq<nat>, n: nat, d: (nat, nat) -> real, cache: array2<real>)
    returns (centers: seq<nat>, cost: real)
    requires Metric(d) && CacheValid(cache, d, n) && n >= 1 && numCenters >= 1 && |centers0| == numCenters
    requires forall t :: 0 <= t < |centers0| ==> centers0[t] < n
    modifies cache
    ensures CacheValid(cache, d, n)
    ensures |centers| == |centers0| && forall t :: 0 <= t < |centers| ==> centers[t] < n
    ensures Fin(cost) == SumCost(d, n, centers) && Fin(cost).Le(SumCost(d, n, centers0))
    ensures SwapOptimal(d, n, centers)
  {
    centers := centers0;
    var initial := CenterCostSum(n, centers, d, cache);
    SumCostFinite(d, n, centers);
    cost := initial.v;
    var approxCost := cost;
    var gamma := SwapGamma(numCenters, n);
    while true
      invariant CacheValid(cache, d, n)
      invariant |centers| == numCenters && forall t :: 0 <= t < numCenters ==> centers[t] < n
      invariant Fin(cost) == SumCost(d, n, centers) && cost <= initial.v
      decreases |Cheaper(d, n, numCenters, Fin(cost))|
    {
      ghost var passStart, costBefore := centers, cost;
      var found := false;
      var i := 0;
      while i < numCenters
        invariant i <= numCenters && CacheValid(cache, d, n)
        invariant |centers| == numCenters && forall t :: 0 <= t < numCenters ==> centers[t] < n
        invariant Fin(cost) == SumCost(d, n, centers) && cost <= costBefore && (found ==> cost < costBefore)
        invariant !found ==> centers == passStart && SwapsTried(d, n, centers, i)
      {
        var improved;
        centers, cost, improved := SwapPass(i, centers, cost, gamma, approxCost, n, d, cache);
        if !found && !improved {
          SwapsTriedStep(d, n, centers, i);
        }
        found := found || improved;
        i := i + 1;
      }
      if !found {
        return;
      }
      ImprovementShrinks(d, n, centers, Fin(costBefore));
    }
  }

  /**
   * `gonzalez` (and `arya`, which is `gonzalez` with the swap search): no centers for no
   * curves; otherwise `max(1, numCenters)` centers chosen farthest-first from curve 0.
   * Without the swap search the value is the radius of the traversal; with it, the
   * centers are a local optimum of the k-median cost sum, which is the value.  The
   * assignment is filled on request.
   */
  method Gonzalez(numCenters: nat, n: nat, d: (nat, nat) -> real, arya: bool, withAssignment: bool)
    returns (result: ClusteringResult)
    requires Metric(d)
    requires arya && n >= 1 ==> numCenters >= 1
    ensures n == 0 ==> result.centers == [] && result.assignment == map[]
    ensures n >= 1 ==> |result.centers| == ExtraCenters(numCenters) + 1
    ensures n >= 1 ==> forall t :: 0 <= t < |result.centers| ==> result.centers[t] < n
    ensures n >= 1 && !arya ==>
      result.centers == GreedyCenters(d, n, 0, ExtraCenters(numCenters)) &&
      result.value == GreedyRadius(d, n, 0, ExtraCenters(numCenters))
    ensures n >= 1 && arya ==>
      result.value == SumCost(d, n, result.centers) && SwapOptimal(d, n, result.centers) &&
      result.value.Le(SumCost(d, n, GreedyCenters(d, n, 0, ExtraCenters(numCenters))))
    ensures n >= 1 && withAssignment ==> Buckets(d, result.centers, n, result.assignment)
    ensures !withAssignment ==> result.assignment == map[]
  {
    if n == 0 {
      return ClusteringResult([], Fin(0.0), map[]);
    }
    var cache := NewCache(n, d);
    ZeroDiagonal(cache, d, n);
    var centers, maxDist := GreedyLoop(numCenters, n, d, cache);
    if arya {
      var cost;
      centers, cost := LocalSearch(numCenters, centers, n, d, cache);
      maxDist := Fin(cost);
    }
    var assignment := map[];
    if withAssignment {
      assignment := ClusterAssignment(n, centers, d, cache);
    }
    result := ClusteringResult(centers, maxDist, assignment);
  }

  /** The sum of the distances from curve `i` to the curves `0..m-1`, accumulated in order. */
  function RowSum(d: (nat, nat) -> real, i: nat, m: nat): real
  {
    if m == 0 then 0.0 else RowSum(d, i, m - 1) + d(i, m - 1)
  }

  /** The objective of candidate `candidate`: the sum of its cached distances to the curves `0..n-1`. */
  method RowObjective(candidate: nat, n: nat, d: (nat, nat) -> real, cache: array2<real>)
    returns (objective: real)
    requires Metric(d) && CacheValid(cache, d, n) && candidate < n
    modifies cache
    ensures CacheValid(cache, d, n)
    ensures objective == RowSum(d, candidate, n)
  {
    objective := 0.0;
    var j := 0;
    while j < n
      invariant j <= n && CacheValid(cache, d, n)
      invariant objective == RowSum(d, candidate, j)
    {
      CheapDist(candidate, j, d, cache, n);
      objective := objective + cache[candidate, j];
      j := j + 1;
    }
  }

  /** Curve `best` has the least distance sum among the curves `0..i-1`, and the first such. */
  ghost predicate LeastRowSoFar(d: (nat, nat) -> real, n: nat, i: nat, best: nat, bestObjective: ExtReal)
  {
    best < i && bestObjective == Fin(RowSum(d, best, n)) &&
    (forall x :: 0 <= x < i ==> bestObjective.v <= RowSum(d, x, n)) &&
    (forall x :: 0 <= x < best ==> bestObjective.v < RowSum(d, x, n))
  }

  /** The scan of `one_median_exhaustive`: the first curve whose distance sum is least. */
  method LeastRow(n: nat, d: (nat, nat) -> real, cache: array2<real>) returns (best: nat, bestObjective: ExtReal)
    requires Metric(d) && CacheValid(cache, d, n)
    modifies cache
    ensures CacheValid(cache, d, n)
    ensures n == 0 ==> best == 0 && bestObjective == Inf
    ensures n >= 1 ==> LeastRowSoFar(d, n, n, best, bestObjective)
  {
    best, bestObjective := 0, Inf;
    var i := 0;
    while i < n
      invariant i <= n && CacheValid(cache, d, n)
      invariant i == 0 ==> best == 0 && bestObjective == Inf
      invariant i >= 1 ==> LeastRowSoFar(d, n, i, best, bestObjective)
    {
      var objective := RowObjective(i, n, d, cache);
      var taken := Fin(objective).Lt(bestObjective);
      LeastRowStep(d, n, i, best, bestObjective, objective, taken);
      if taken {
        best := i;
        bestObjective := Fin(objective);
      }
      i := i + 1;
    }
  }

  /** Curve `i` is taken exactly when its sum beats the best so far, which keeps the first least sum. */
  lemma LeastRowStep(d: (nat, nat) -> real, n: nat, i: nat, best: nat, bestObjective: ExtReal, objective: real, taken: bool)
    requires i == 0 ==> best == 0 && bestObjective == Inf
    requires i >= 1 ==> LeastRowSoFar(d, n, i, best, bestObjective)
    requires objective == RowSum(d, i, n) && taken == Fin(objective).Lt(bestObjective)
    ensures taken ==> LeastRowSoFar(d, n, i + 1, i, Fin(objective))
    ensures !taken ==> LeastRowSoFar(d, n, i + 1, best, bestObjective)
  {
  }

  /**
   * `one_median_exhaustive`: the single center is the first curve whose distance sum to
   * all curves is smallest, and the value is that sum; with no curves the center is 0
   * and the value infinite.
   */
  method OneMedianExhaustive(n: nat, d: (nat, nat) -> real, withAssignment: bool)
    returns (result: ClusteringResult)
    requires Metric(d)
    ensures |result.centers| == 1
    ensures n == 0 ==> result.centers == [0] && result.value == Inf
    ensures n >= 1 ==>
      (result.centers[0] < n && result.value == Fin(RowSum(d, result.centers[0], n)) &&
       (forall i :: 0 <= i < n ==> result.value.v <= RowSum(d, i, n)) &&
       (forall i :: 0 <= i < result.centers[0] ==> result.value.v < RowSum(d, i, n)))
    ensures withAssignment ==> Buckets(d, result.centers, n, result.assignment)
    ensures !withAssignment ==> result.assignment == map[]
  {
    var cache := NewCache(n, d);
    var best, bestObjective := LeastRow(n, d, cache);
    var assignment := map[];
    if withAssignment {
      assignment := ClusterAssignment(n, [best], d, cache);
    }
    result := ClusteringResult([best], bestObjective, assignment);
  }

  /** Every sample lies in `[0, 1)`, as uniform draws do. */
  predicate UnitSamples(samples: seq<real>)
  {
    forall t :: 0 <= t < |samples| ==> 0.0 <= samples[t] < 1.0
  }

  /** The objective of `candidate` in the sampling median: its summed distance to the witness curves. */
  function WitnessSum(d: (nat, nat) -> real, candidate: nat, witnesses: seq<real>, n: nat): real
    requires UnitSamples(witnesses) && n >= 1
  {
    if |witnesses| == 0 then 0.0
    else
      WitnessSum(d, candidate, witnesses[..|witnesses| - 1], n) +
      d(candidate, SampleIndex(witnesses[|witnesses| - 1], n))
  }

  /** The objectives of the candidates, in draw order. */
  function CandidateObjectives(d: (nat, nat) -> real, candidates: seq<real>, witnesses: seq<real>, n: nat): (r: seq<real>)
    requires UnitSamples(candidates) && UnitSamples(witnesses) && n >= 1
    ensures |r| == |candidates|
    ensures forall t :: 0 <= t < |r| ==> r[t] == WitnessSum(d, SampleIndex(candidates[t], n), witnesses, n)
  {
    if |candidates| == 0 then []
    else
      CandidateObjectives(d, candidates[..|candidates| - 1], witnesses, n) +
      [WitnessSum(d, SampleIndex(candidates[|candidates| - 1], n), witnesses, n)]
  }

  /** The curve `one_median_sampling` picks: the first candidate of least objective, 0 without candidates. */
  function SampledMedian(d: (nat, nat) -> real, candidates: seq<real>, witnesses: seq<real>, n: nat): nat
    requires UnitSamples(candidates) && UnitSamples(witnesses) && n >= 1
  {
    var (_, p) := RunningMin(CandidateObjectives(d, candidates, witnesses, n));
    if |candidates| == 0 then 0 else SampleIndex(candidates[p], n)
  }

  /**
   * The sampled median is the curve drawn by a candidate whose objective no candidate
   * beats, and every earlier candidate's objective is strictly larger.
   */
  lemma SampledMedianIsFirstMinimum(d: (nat, nat) -> real, candidates: seq<real>, witnesses: seq<real>, n: nat)
    requires UnitSamples(candidates) && UnitSamples(witnesses) && n >= 1 && |candidates| >= 1
    ensures var p := RunningMin(CandidateObjectives(d, candidates, witnesses, n)).1;
      p < |candidates| && SampledMedian(d, candidates, witnesses, n) == SampleIndex(candidates[p], n) &&
      (forall q :: 0 <= q < |candidates| ==>
        WitnessSum(d, SampleIndex(candidates[p], n), witnesses, n) <= WitnessSum(d, SampleIndex(candidates[q], n), witnesses, n)) &&
      (forall q :: 0 <= q < p ==>
        WitnessSum(d, SampleIndex(candidates[p], n), witnesses, n) < WitnessSum(d, SampleIndex(candidates[q], n), witnesses, n))
  {
    RunningMinIsFirstMinimum(CandidateObjectives(d, candidates, witnesses, n));
  }

  /**
   * `one_median_sampling`: the random draws are the inputs `candidates` and `witnesses`
   * (60 and `ceil(ln 60 / epsilon^2)` uniform values in the source).  The single center
   * is the sampled median and the value its cost sum over all curves.
   */
  method OneMedianSampling(candidates: seq<real>, witnesses: seq<real>, n: nat, d: (nat, nat) -> real,
                           withAssignment: bool)
    returns (result: ClusteringResult)
    requires Metric(d) && n >= 1 && UnitSamples(candidates) && UnitSamples(witnesses)
    ensures result.centers == [SampledMedian(d, candidates, witnesses, n)]
    ensures result.value == SumCost(d, n, result.centers)
    ensures withAssignment ==> Buckets(d, result.centers, n, result.assignment)
    ensures !withAssignment ==> result.assignment == map[]
  {
    var cache := NewCache(n, d);
    var best := BestCandidate(candidates, witnesses, n, d, cache);
    var assignment := map[];
    if withAssignment {
      assignment := ClusterAssignment(n, [best], d, cache);
    }
    var value := CenterCostSum(n, [best], d, cache);
    result := ClusteringResult([best], value, assignment);
  }

  /** The candidate loop of `one_median_sampling`: a running minimum of the candidates' objectives. */
  method BestCandidate(candidates: seq<real>, witnesses: seq<real>, n: nat, d: (nat, nat) -> real,
                       cache: array2<real>)
    returns (best: nat)
    requires Metric(d) && CacheValid(cache, d, n) && n >= 1 && UnitSamples(candidates) && UnitSamples(witnesses)
    modifies cache
    ensures CacheValid(cache, d, n)
    ensures best == SampledMedian(d, candidates, witnesses, n) && best < n
  {
    best := 0;
    var bestObjective := Inf;
    ghost var position := 0;
    ghost var objectives := CandidateObjectives(d, candidates, witnesses, n);
    var i := 0;
    while i < |candidates|
      invariant i <= |candidates| && CacheValid(cache, d, n)
      invariant (bestObjective, position) == RunningMin(objectives[..i])
      invariant best == if i == 0 then 0 else SampleIndex(candidates[position], n)
    {
      var candidate := SampleIndex(candidates[i], n);
      var objective := WitnessObjective(candidate, witnesses, n, d, cache);
      RunningMinStep(objectives, i);
      if Fin(objective).Lt(bestObjective) {
        best := candidate;
        bestObjective := Fin(objective);
        position := i;
      }
      i := i + 1;
    }
    assert objectives[..|candidates|] == objectives;
  }

  /** The objective of one sampled candidate: its summed cached distance to the witness curves. */
  method WitnessObjective(candidate: nat, witnesses: seq<real>, n: nat, d: (nat, nat) -> real, cache: array2<real>)
    returns (objective: real)
    requires Metric(d) && CacheValid(cache, d, n) && candidate < n && UnitSamples(witnesses)
    modifies cache
    ensures CacheValid(cache, d, n)
    ensures objective == WitnessSum(d, candidate, witnesses, n)
  {
    objective := 0.0;
    var j := 0;
    while j < |witnesses|
      invariant j <= |witnesses| && CacheValid(cache, d, n)
      invariant objective == WitnessSum(d, candidate, witnesses[..j], n)
    {
      var drawn := SampleIndex(witnesses[j], n);
      CheapDist(candidate, drawn, d, cache, n);
      assert witnesses[..j + 1][..j] == witnesses[..j];
      objective := objective + cache[candidate, drawn];
      j := j + 1;
    }
    assert witnesses[..|witnesses|] == witnesses;
  }
}
