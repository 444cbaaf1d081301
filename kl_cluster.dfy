/**
 * `src/clustering.cpp`: `(k, l)`-clustering of curves whose centers are simplifications
 * of input curves.  Two globals persist between calls: the distance matrix, of which the
 * model keeps the shape (the row count the reuse checks look at and the column count),
 * and one simplification slot per input curve, empty until that curve's simplification
 * is computed.
 *
 * Oracles: `simplify(c)` is the `l`-vertex simplification of input curve `c` (exact or
 * approximate); `d(i, c)` is the distance from input curve `i` to the simplification of
 * curve `c`.  The cost helpers `_curve_cost`, `_center_cost_max` and `_center_cost_sum`
 * are not part of this model; they are taken to be the cost of a curve, the largest
 * cost and the cost sum of `ClusterCosts`.
 */
module KlCluster {

  import opened Wrappers
  import opened ExtReals
  import opened Points
  import opened ClusterCosts
  import opened Arith

  /** The globals `distances` (its numbers of rows and columns) and `simplifications`. */
  class Workspace {
    var distanceRows: nat
    var distanceColumns: nat
    var simplifications: seq<Option<Curve>>

    /** Every computed slot holds the simplification of its curve. */
    ghost predicate Holds(simplify: nat -> Curve)
      reads this
    {
      forall c :: 0 <= c < |simplifications| && simplifications[c].Some? ==> simplifications[c].value == simplify(c)
    }

    /** Before the first call both globals are empty. */
    constructor ()
      ensures distanceRows == 0 && distanceColumns == 0 && simplifications == []
    {
      distanceRows := 0;
      distanceColumns := 0;
      simplifications := [];
    }

    /** Fresh globals for `n` curves: an `n` by `n` matrix and `n` empty slots. */
    method Allocate(n: nat)
      modifies this
      ensures distanceRows == n && distanceColumns == n && |simplifications| == n
      ensures forall c :: 0 <= c < n ==> simplifications[c] == None
    {
      distanceRows := n;
      distanceColumns := n;
      simplifications := seq(n, c => None);
    }

    /**
     * The set-up of `kl_cluster`: a call that is not consecutive always allocates; a
     * consecutive call allocates when the matrix is empty or sized for other input, and
     * otherwise keeps the matrix and the computed simplifications.
     */
    method Prepare(n: nat, consecutiveCall: bool)
      modifies this
      ensures Reused(old(distanceRows), n, consecutiveCall) ==>
        distanceRows == old(distanceRows) && distanceColumns == old(distanceColumns) &&
        simplifications == old(simplifications)
      ensures !Reused(old(distanceRows), n, consecutiveCall) ==>
        distanceRows == n && distanceColumns == n && |simplifications| == n &&
        forall c :: 0 <= c < n ==> simplifications[c] == None
    {
      if !consecutiveCall {
        Allocate(n);
      } else {
        if distanceRows == 0 {
          Allocate(n);
        }
        if distanceRows != n {
          Allocate(n);
        }
      }
    }

    /**
     * The simplification step of every center choice: the slot of curve `c` is computed
     * only when it is empty; no other slot changes.
     */
    method EnsureSimplified(c: nat, simplify: nat -> Curve)
      requires c < |simplifications|
      modifies this
      ensures distanceRows == old(distanceRows) && distanceColumns == old(distanceColumns)
      ensures |simplifications| == |old(simplifications)|
      ensures old(simplifications[c]).Some? ==> simplifications == old(simplifications)
      ensures old(simplifications[c]).None? ==> simplifications == old(simplifications)[c := Some(simplify(c))]
    {
      if simplifications[c].None? {
        simplifications := simplifications[c := Some(simplify(c))];
      }
    }
  }

  /** Whether `kl_cluster`'s set-up keeps the globals: a consecutive call on input of the matrix's size. */
  predicate Reused(distanceRows: nat, n: nat, consecutiveCall: bool)
  {
    consecutiveCall && distanceRows != 0 && distanceRows == n
  }

  /** Filling empty slots keeps the computed slots computed and the slots that hold their simplification. */
  lemma EnsureKeepsHolds(before: seq<Option<Curve>>, c: nat, simplify: nat -> Curve)
    requires c < |before|
    requires forall x :: 0 <= x < |before| && before[x].Some? ==> before[x].value == simplify(x)
    ensures var after := before[c := Some(simplify(c))];
      (forall x :: 0 <= x < |after| && after[x].Some? ==> after[x].value == simplify(x)) &&
      (forall x :: 0 <= x < |before| && before[x].Some? ==> after[x].Some?)
  {
  }

  /** Every center's slot holds its simplification. */
  ghost predicate CentersSimplified(centers: seq<nat>, slots: seq<Option<Curve>>)
  {
    forall t :: 0 <= t < |centers| ==> centers[t] < |slots| && slots[centers[t]].Some?
  }

  /** The slots only grow: every computed slot stays as it was. */
  predicate Grown(before: seq<Option<Curve>>, after: seq<Option<Curve>>)
  {
    |after| == |before| && forall c :: 0 <= c < |before| && before[c].Some? ==> after[c] == before[c]
  }

  /** The greedy loop from any starting center list: `m` times the farthest curve is added. */
  function Traverse(d: (nat, nat) -> real, n: nat, start: seq<nat>, m: nat): (centers: seq<nat>)
    ensures |centers| == |start| + m
  {
    if m == 0 then start
    else
      var prev := Traverse(d, n, start, m - 1);
      prev + [Farthest(d, n, prev).1]
  }

  /** From a first center the loop chooses the greedy center lists. */
  lemma {:induction false} TraverseFromFirst(d: (nat, nat) -> real, n: nat, first: nat, m: nat)
    ensures Traverse(d, n, [first], m) == GreedyCenters(d, n, first, m)
  {
    if m > 0 {
      TraverseFromFirst(d, n, first, m - 1);
    }
  }

  /** The loop's centers and radius from a first center are the greedy traversal's. */
  lemma GreedyFromFirst(d: (nat, nat) -> real, n: nat, first: nat, m: nat)
    ensures Traverse(d, n, [first], m) == GreedyCenters(d, n, first, m)
    ensures TraverseRadius(d, n, [first], m) == GreedyRadius(d, n, first, m)
  {
    TraverseFromFirst(d, n, first, m);
    if m > 0 {
      TraverseFromFirst(d, n, first, m - 1);
    }
  }

  /** Without centers every curve is infinitely far, and the first curve is the farthest. */
  lemma {:induction false} FarthestWithoutCenters(d: (nat, nat) -> real, n: nat)
    requires n >= 1
    ensures Farthest(d, n, []) == (Inf, 0)
  {
    if n > 1 {
      FarthestWithoutCenters(d, n - 1);
    }
  }

  /**
   * Started from no center, the loop picks curve 0 first and then continues as if curve 0
   * had been the first center: the result is the greedy list with one center fewer.
   */
  lemma {:induction false} TraverseFromNone(d: (nat, nat) -> real, n: nat, m: nat)
    requires n >= 1
    ensures Traverse(d, n, [], m + 1) == GreedyCenters(d, n, 0, m)
  {
    if m == 0 {
      FarthestWithoutCenters(d, n);
    } else {
      TraverseFromNone(d, n, m - 1);
    }
  }

  /** The radius the loop reports after `m` additions: the largest cost of the last scan, 0 without one. */
  function TraverseRadius(d: (nat, nat) -> real, n: nat, start: seq<nat>, m: nat): ExtReal
  {
    if m == 0 then Fin(0.0) else Farthest(d, n, Traverse(d, n, start, m - 1)).0
  }

  /**
   * The farthest-curve scan of `kl_cluster`: a running maximum of the curve costs from
   * cost 0 at curve 0, replaced only on a strictly larger cost.
   */
  method FarthestScan(n: nat, centers: seq<nat>, d: (nat, nat) -> real) returns (maxDist: ExtReal, maxCurve: nat)
    ensures (maxDist, maxCurve) == Farthest(d, n, centers)
  {
    maxDist := Fin(0.0);
    maxCurve := 0;
    var j := 0;
    while j < n
      invariant j <= n && (maxDist, maxCurve) == Farthest(d, j, centers)
    {
      var cost := CostOver(d, j, centers);
      if maxDist.Lt(cost) {
        maxDist := cost;
        maxCurve := j;
      }
      j := j + 1;
    }
  }

  /**
   * The loop `for i in 1..numCenters` of `kl_cluster`: each round adds the farthest curve
   * after making sure its simplification is computed.
   */
  method GreedyLoop(numCenters: nat, start: seq<nat>, n: nat, d: (nat, nat) -> real, ws: Workspace,
                    simplify: nat -> Curve)
    returns (centers: seq<nat>, maxDist: ExtReal)
    requires n >= 1 && |ws.simplifications| == n && ws.Holds(simplify)
    requires CentersSimplified(start, ws.simplifications)
    modifies ws
    ensures ws.distanceRows == old(ws.distanceRows) && ws.distanceColumns == old(ws.distanceColumns) && Grown(old(ws.simplifications), ws.simplifications)
    ensures ws.Holds(simplify) && CentersSimplified(centers, ws.simplifications)
    ensures centers == Traverse(d, n, start, ExtraCenters(numCenters))
    ensures maxDist == TraverseRadius(d, n, start, ExtraCenters(numCenters))
  {
    centers := start;
    maxDist := Fin(0.0);
    var i := 1;
    while i < numCenters
      invariant 1 <= i && (i <= numCenters || i == 1)
      invariant |ws.simplifications| == n && ws.distanceRows == old(ws.distanceRows) && ws.distanceColumns == old(ws.distanceColumns)
      invariant Grown(old(ws.simplifications), ws.simplifications)
      invariant ws.Holds(simplify) && CentersSimplified(centers, ws.simplifications)
      invariant centers == Traverse(d, n, start, i - 1)
      invariant maxDist == TraverseRadius(d, n, start, i - 1)
    {
      ghost var before := ws.simplifications;
      centers, maxDist := GreedyStep(n, centers, d, ws, simplify);
      GrownTrans(old(ws.simplifications), before, ws.simplifications);
      i := i + 1;
    }
  }

  /** One round of the greedy loop: the farthest curve is simplified and added. */
  method GreedyStep(n: nat, centers: seq<nat>, d: (nat, nat) -> real, ws: Workspace, simplify: nat -> Curve)
    returns (next: seq<nat>, maxDist: ExtReal)
    requires n >= 1 && |ws.simplifications| == n && ws.Holds(simplify)
    requires CentersSimplified(centers, ws.simplifications)
    modifies ws
    ensures ws.distanceRows == old(ws.distanceRows) && ws.distanceColumns == old(ws.distanceColumns) && Grown(old(ws.simplifications), ws.simplifications)
    ensures ws.Holds(simplify) && CentersSimplified(next, ws.simplifications)
    ensures next == centers + [Farthest(d, n, centers).1] && maxDist == Farthest(d, n, centers).0
  {
    var maxCurve;
    maxDist, maxCurve := FarthestScan(n, centers, d);
    FarthestBelow(d, n, centers);
    ws.EnsureSimplified(maxCurve, simplify);
    next := centers + [maxCurve];
  }

  lemma GrownTrans(a: seq<Option<Curve>>, b: seq<Option<Curve>>, c: seq<Option<Curve>>)
    requires Grown(a, b) && Grown(b, c)
    ensures Grown(a, c)
  {
  }

  /** The farthest curve is one of the `n >= 1` curves. */
  lemma {:induction false} FarthestBelow(d: (nat, nat) -> real, n: nat, centers: seq<nat>)
    requires n >= 1
    ensures Farthest(d, n, centers).1 < n
  {
    if n > 1 {
      FarthestBelow(d, n - 1, centers);
    }
  }

  /**
   * The first-center step as written: a random curve when `randomStart`, otherwise curve
   * 0, but curve 0 is pushed only when its simplification still has to be computed.  On
   * a consecutive call whose earlier run already simplified curve 0 no center is pushed.
   */
  method FirstCenterAsWritten(randomStart: bool, u: real, ws: Workspace, simplify: nat -> Curve)
    returns (centers: seq<nat>)
    requires |ws.simplifications| >= 1 && 0.0 <= u < 1.0 && ws.Holds(simplify)
    modifies ws
    ensures ws.distanceRows == old(ws.distanceRows) && ws.distanceColumns == old(ws.distanceColumns) && Grown(old(ws.simplifications), ws.simplifications)
    ensures ws.Holds(simplify) && CentersSimplified(centers, ws.simplifications)
    ensures randomStart ==> centers == [SampleIndex(u, |ws.simplifications|)]
    ensures !randomStart && old(ws.simplifications[0]).None? ==> centers == [0]
    ensures !randomStart && old(ws.simplifications[0]).Some? ==> centers == []
  {
    if randomStart {
      var r := SampleIndex(u, |ws.simplifications|);
      ws.EnsureSimplified(r, simplify);
      centers := [r];
    } else {
      centers := [];
      if ws.simplifications[0].None? {
        ws.EnsureSimplified(0, simplify);
        centers := [0];
      }
    }
  }

  /** The first-center step as intended: curve 0 is the first center whether or not it was simplified before. */
  method FirstCenter(randomStart: bool, u: real, ws: Workspace, simplify: nat -> Curve)
    returns (first: nat)
    requires |ws.simplifications| >= 1 && 0.0 <= u < 1.0 && ws.Holds(simplify)
    modifies ws
    ensures ws.distanceRows == old(ws.distanceRows) && ws.distanceColumns == old(ws.distanceColumns) && Grown(old(ws.simplifications), ws.simplifications)
    ensures ws.Holds(simplify) && CentersSimplified([first], ws.simplifications)
    ensures first == if randomStart then SampleIndex(u, |ws.simplifications|) else 0
  {
    first := if randomStart then SampleIndex(u, |ws.simplifications|) else 0;
    ws.EnsureSimplified(first, simplify);
  }

  /**
   * The consequence of the missing first center: the greedy loop then picks curve 0 in
   * its first round, so `numCenters` requested centers yield the greedy list of
   * `numCenters - 1` centers, and a single requested center yields none.
   */
  lemma MissingFirstCenterLosesOne(d: (nat, nat) -> real, n: nat, numCenters: nat)
    requires n >= 1
    ensures numCenters <= 1 ==> Traverse(d, n, [], ExtraCenters(numCenters)) == []
    ensures numCenters >= 2 ==> Traverse(d, n, [], ExtraCenters(numCenters)) == GreedyCenters(d, n, 0, numCenters - 2)
    ensures numCenters >= 2 ==> |Traverse(d, n, [], ExtraCenters(numCenters))| == numCenters - 1
  {
    if numCenters >= 2 {
      TraverseFromNone(d, n, numCenters - 2);
    }
  }

  /** `_center_cost_max`: the largest curve cost, the value of the farthest-curve scan. */
  function MaxCost(d: (nat, nat) -> real, n: nat, centers: seq<nat>): ExtReal
  {
    Farthest(d, n, centers).0
  }

  /**
   * The state of the k-center swap search: either nothing was taken yet and the centers
   * and cost are the starting ones, or the centers were taken at their largest cost,
   * strictly below the starting cost.
   */
  ghost predicate KCenterState(d: (nat, nat) -> real, n: nat, centers0: seq<nat>, cost0: ExtReal,
                               centers: seq<nat>, cost: ExtReal)
  {
    |centers| == |centers0| &&
    ((centers == centers0 && cost == cost0) || (cost == MaxCost(d, n, centers) && cost.Lt(cost0)))
  }

  /**
   * One sweep of the k-center search over the curves for position `i`: every curve that
   * is not in the working copy replaces the copy's center at `i` (the copy is not reset
   * between positions or iterations), and the copy is taken when its largest cost is
   * strictly below the current cost.
   */
  method KCenterSweep(i: nat, candidate0: seq<nat>, centers1: seq<nat>, cost1: ExtReal,
                      ghost centers0: seq<nat>, ghost cost0: ExtReal,
                      n: nat, d: (nat, nat) -> real, ws: Workspace, simplify: nat -> Curve)
    returns (candidate: seq<nat>, centers: seq<nat>, cost: ExtReal)
    requires n >= 1 && |ws.simplifications| == n && ws.Holds(simplify)
    requires i < |candidate0| == |centers0|
    requires CentersSimplified(candidate0, ws.simplifications) && CentersSimplified(centers1, ws.simplifications)
    requires KCenterState(d, n, centers0, cost0, centers1, cost1)
    modifies ws
    ensures ws.distanceRows == old(ws.distanceRows) && ws.distanceColumns == old(ws.distanceColumns) && Grown(old(ws.simplifications), ws.simplifications)
    ensures ws.Holds(simplify) && |candidate| == |candidate0|
    ensures CentersSimplified(candidate, ws.simplifications) && CentersSimplified(centers, ws.simplifications)
    ensures KCenterState(d, n, centers0, cost0, centers, cost)
  {
    candidate, centers, cost := candidate0, centers1, cost1;
    var j: nat := 0;
    while j < n
      invariant j <= n && |ws.simplifications| == n && ws.distanceRows == old(ws.distanceRows) && ws.distanceColumns == old(ws.distanceColumns)
      invariant Grown(old(ws.simplifications), ws.simplifications) && ws.Holds(simplify)
      invariant |candidate| == |candidate0|
      invariant CentersSimplified(candidate, ws.simplifications) && CentersSimplified(centers, ws.simplifications)
      invariant KCenterState(d, n, centers0, cost0, centers, cost)
    {
      if j !in candidate {
        ws.EnsureSimplified(j, simplify);
        candidate := candidate[i := j];
        var candidateCost := MaxCost(d, n, candidate);
        if candidateCost.Lt(cost) {
          cost := candidateCost;
          centers := candidate;
        }
      }
      j := j + 1;
    }
  }

  /**
   * The k-center swap search: `iterations` rounds over the positions `0..numCenters-1`.
   * It only ever takes centers whose largest cost is strictly below the cost it holds,
   * starting from `cost0`.
   */
  method KCenterSearch(iterations: nat, numCenters: nat, centers0: seq<nat>, cost0: ExtReal,
                       n: nat, d: (nat, nat) -> real, ws: Workspace, simplify: nat -> Curve)
    returns (centers: seq<nat>, cost: ExtReal)
    requires n >= 1 && |ws.simplifications| == n && ws.Holds(simplify)
    requires numCenters <= |centers0| && CentersSimplified(centers0, ws.simplifications)
    modifies ws
    ensures ws.distanceRows == old(ws.distanceRows) && ws.distanceColumns == old(ws.distanceColumns) && Grown(old(ws.simplifications), ws.simplifications)
    ensures ws.Holds(simplify) && CentersSimplified(centers, ws.simplifications)
    ensures KCenterState(d, n, centers0, cost0, centers, cost)
  {
    var candidate := centers0;
    centers, cost := centers0, cost0;
    var k := 0;
    while k < iterations
      invariant k <= iterations && |ws.simplifications| == n && ws.distanceRows == old(ws.distanceRows) && ws.distanceColumns == old(ws.distanceColumns)
      invariant Grown(old(ws.simplifications), ws.simplifications) && ws.Holds(simplify)
      invariant |candidate| == |centers0|
      invariant CentersSimplified(candidate, ws.simplifications) && CentersSimplified(centers, ws.simplifications)
      invariant KCenterState(d, n, centers0, cost0, centers, cost)
    {
      var i := 0;
      while i < numCenters
        invariant i <= numCenters && |ws.simplifications| == n && ws.distanceRows == old(ws.distanceRows) && ws.distanceColumns == old(ws.distanceColumns)
        invariant Grown(old(ws.simplifications), ws.simplifications) && ws.Holds(simplify)
        invariant |candidate| == |centers0|
        invariant CentersSimplified(candidate, ws.simplifications) && CentersSimplified(centers, ws.simplifications)
        invariant KCenterState(d, n, centers0, cost0, centers, cost)
      {
        candidate, centers, cost := KCenterSweep(i, candidate, centers, cost, centers0, cost0, n, d, ws, simplify);
        i := i + 1;
      }
      k := k + 1;
    }
  }

  /** `gamma = 1 / (10 k)` in integer arithmetic: 0 for any positive `k`. */
  function MedianGamma(numCenters: nat): (gamma: int)
    requires numCenters >= 1
    ensures gamma == 0
  {
    var divisor := 10 * numCenters;
    DivSmall(1, divisor);
    1 / divisor
  }

  /**
   * One sweep of the k-median search for position `i`: every curve that is not in the
   * working copy (reset to the current centers) replaces its center at `i`, and the copy
   * is taken when its cost sum is below the current one by more than `gamma * approxCost`.
   */
  method MedianSweep(i: nat, centers0: seq<nat>, cost0: real, gamma: int, approxCost: real,
                     n: nat, d: (nat, nat) -> real, ws: Workspace, simplify: nat -> Curve)
    returns (centers: seq<nat>, cost: real, improved: bool)
    requires n >= 1 && |ws.simplifications| == n && ws.Holds(simplify) && (forall a, b :: d(a, b) >= 0.0)
    requires i < |centers0| && CentersSimplified(centers0, ws.simplifications)
    requires Fin(cost0) == SumCost(d, n, centers0) && gamma == 0
    modifies ws
    ensures ws.distanceRows == old(ws.distanceRows) && ws.distanceColumns == old(ws.distanceColumns) && Grown(old(ws.simplifications), ws.simplifications)
    ensures ws.Holds(simplify) && CentersSimplified(centers, ws.simplifications) && |centers| == |centers0|
    ensures Fin(cost) == SumCost(d, n, centers) && cost <= cost0
    ensures improved ==> cost < cost0
    ensures !improved ==> centers == centers0 && NoBetterSwapAt(d, n, centers0, i)
  {
    centers, cost, improved := centers0, cost0, false;
    var candidate: seq<nat> := centers0;
    var j: nat := 0;
    while j < n
      invariant j <= n && |ws.simplifications| == n && ws.distanceRows == old(ws.distanceRows) && ws.distanceColumns == old(ws.distanceColumns)
      invariant Grown(old(ws.simplifications), ws.simplifications) && ws.Holds(simplify)
      invariant CentersSimplified(candidate, ws.simplifications) && CentersSimplified(centers, ws.simplifications)
      invariant SwapState(d, n, i, j, centers0, cost0, candidate, centers, cost, improved)
    {
      candidate, centers, cost, improved :=
        MedianTry(i, j, candidate, centers, cost, improved, centers0, cost0, gamma, approxCost, n, d, ws, simplify);
      j := j + 1;
    }
  }

  /** The body of the k-median sweep for curve `j`. */
  method MedianTry(i: nat, j: nat, candidate0: seq<nat>, centers1: seq<nat>, cost1: real, improved1: bool,
                   ghost centers0: seq<nat>, ghost cost0: real, gamma: int, approxCost: real,
                   n: nat, d: (nat, nat) -> real, ws: Workspace, simplify: nat -> Curve)
    returns (candidate: seq<nat>, centers: seq<nat>, cost: real, improved: bool)
    requires j < n && |ws.simplifications| == n && ws.Holds(simplify) && gamma == 0 && (forall a, b :: d(a, b) >= 0.0)
    requires CentersSimplified(candidate0, ws.simplifications) && CentersSimplified(centers1, ws.simplifications)
    requires SwapState(d, n, i, j, centers0, cost0, candidate0, centers1, cost1, improved1)
    modifies ws
    ensures ws.distanceRows == old(ws.distanceRows) && ws.distanceColumns == old(ws.distanceColumns) && Grown(old(ws.simplifications), ws.simplifications)
    ensures ws.Holds(simplify)
    ensures CentersSimplified(candidate, ws.simplifications) && CentersSimplified(centers, ws.simplifications)
    ensures SwapState(d, n, i, j + 1, centers0, cost0, candidate, centers, cost, improved)
  {
    candidate, centers, cost, improved := candidate0, centers1, cost1, improved1;
    if j in candidate {
      SwapSkip(d, n, i, j, centers0, cost0, candidate, centers, cost, improved);
    } else {
      ws.EnsureSimplified(j, simplify);
      var next := candidate[i := j];
      var candidateCost := SumCost(d, n, next);
      SumCostFinite(d, n, next);
      assert (gamma as real) * approxCost == 0.0;
      var taken := candidateCost.v < cost - (gamma as real) * approxCost;
      SwapReplace(d, n, i, j, centers0, cost0, candidate, centers, cost, improved, taken);
      candidate := next;
      if taken {
        cost := candidateCost.v;
        centers := candidate;
        improved := true;
      }
    }
  }

  /**
   * The k-median search of `kl_cluster`: passes over the positions until a pass improves
   * nothing.  With `gamma` 0 it takes exactly the strict improvements of the cost sum and
   * ends in a local optimum that costs no more than the starting centers.
   */
  method MedianSearch(numCenters: nat, centers0: seq<nat>, n: nat, d: (nat, nat) -> real,
                      ws: Workspace, simplify: nat -> Curve)
    returns (centers: seq<nat>, cost: real)
    requires n >= 1 && |ws.simplifications| == n && ws.Holds(simplify) && (forall a, b :: d(a, b) >= 0.0)
    requires numCenters >= 1 && |centers0| == numCenters && CentersSimplified(centers0, ws.simplifications)
    modifies ws
    ensures ws.distanceRows == old(ws.distanceRows) && ws.distanceColumns == old(ws.distanceColumns) && Grown(old(ws.simplifications), ws.simplifications)
    ensures ws.Holds(simplify) && CentersSimplified(centers, ws.simplifications) && |centers| == |centers0|
    ensures Fin(cost) == SumCost(d, n, centers) && Fin(cost).Le(SumCost(d, n, centers0))
    ensures SwapOptimal(d, n, centers)
  {
    centers := centers0;
    SumCostFinite(d, n, centers);
    cost := SumCost(d, n, centers).v;
    var initial, approxCost := cost, cost;
    var gamma := MedianGamma(numCenters);
    var found := true;
    ghost var costBefore := cost;
    while found
      invariant |ws.simplifications| == n && ws.distanceRows == old(ws.distanceRows) && ws.distanceColumns == old(ws.distanceColumns)
      invariant Grown(old(ws.simplifications), ws.simplifications) && ws.Holds(simplify)
      invariant |centers| == numCenters && CentersSimplified(centers, ws.simplifications)
      invariant Fin(cost) == SumCost(d, n, centers) && cost <= initial
      invariant !found ==> SwapOptimal(d, n, centers)
      decreases found, |Cheaper(d, n, numCenters, Fin(cost))|
    {
      found := false;
      ghost var passStart := centers;
      costBefore := cost;
      var i := 0;
      while i < numCenters
        invariant i <= numCenters && |ws.simplifications| == n && ws.distanceRows == old(ws.distanceRows) && ws.distanceColumns == old(ws.distanceColumns)
        invariant Grown(old(ws.simplifications), ws.simplifications) && ws.Holds(simplify)
        invariant |centers| == numCenters && CentersSimplified(centers, ws.simplifications)
        invariant Fin(cost) == SumCost(d, n, centers) && cost <= costBefore && (found ==> cost < costBefore)
        invariant !found ==> centers == passStart && SwapsTried(d, n, centers, i)
      {
        var improved;
        centers, cost, improved := MedianSweep(i, centers, cost, gamma, approxCost, n, d, ws, simplify);
        if !found && !improved {
          SwapsTriedStep(d, n, centers, i);
        }
        found := found || improved;
        i := i + 1;
      }
      if found {
        CentersBelow(centers, ws.simplifications);
        ImprovementShrinks(d, n, centers, Fin(costBefore));
      }
    }
  }

  /** Simplified centers are curves of `0..|slots|-1`. */
  lemma CentersBelow(centers: seq<nat>, slots: seq<Option<Curve>>)
    requires CentersSimplified(centers, slots)
    ensures forall t :: 0 <= t < |centers| ==> centers[t] < |slots|
  {
  }

  /**
   * The k-center phase as written: the search starts from the greedy radius, which can
   * exceed the largest cost of the greedy centers, and the reported value stays the
   * radius whatever the search finds.
   */
  method KCenterPhaseAsWritten(iterations: nat, numCenters: nat, greedy: seq<nat>, radius: ExtReal,
                               n: nat, d: (nat, nat) -> real, ws: Workspace, simplify: nat -> Curve)
    returns (centers: seq<nat>, value: ExtReal)
    requires n >= 1 && |ws.simplifications| == n && ws.Holds(simplify)
    requires numCenters <= |greedy| && CentersSimplified(greedy, ws.simplifications)
    modifies ws
    ensures ws.Holds(simplify) && CentersSimplified(centers, ws.simplifications) && |centers| == |greedy|
    ensures value == radius
    ensures centers == greedy || MaxCost(d, n, centers).Lt(radius)
  {
    var cost;
    centers, cost := KCenterSearch(iterations, numCenters, greedy, radius, n, d, ws, simplify);
    value := radius;
  }

  /**
   * The k-center phase as intended: the search starts from the largest cost of the
   * greedy centers and reports the largest cost of the centers it ends with, which is
   * never above that of the greedy centers.
   */
  method KCenterPhase(iterations: nat, numCenters: nat, greedy: seq<nat>,
                      n: nat, d: (nat, nat) -> real, ws: Workspace, simplify: nat -> Curve)
    returns (centers: seq<nat>, value: ExtReal)
    requires n >= 1 && |ws.simplifications| == n && ws.Holds(simplify)
    requires numCenters <= |greedy| && CentersSimplified(greedy, ws.simplifications)
    modifies ws
    ensures ws.distanceRows == old(ws.distanceRows) && ws.distanceColumns == old(ws.distanceColumns) && Grown(old(ws.simplifications), ws.simplifications)
    ensures ws.Holds(simplify) && CentersSimplified(centers, ws.simplifications) && |centers| == |greedy|
    ensures value == MaxCost(d, n, centers) && value.Le(MaxCost(d, n, greedy))
  {
    var cost0, _ := FarthestScan(n, greedy, d);
    centers, value := KCenterSearch(iterations, numCenters, greedy, cost0, n, d, ws, simplify);
  }

  /** Distances among four curves: 0, 1 and 3 close together, curve 2 far from all. */
  function ExampleDistance(a: nat, b: nat): real
  {
    var lo := if a <= b then a else b;
    var hi := if a <= b then b else a;
    if lo == hi then 0.0
    else if lo == 0 && hi == 1 then 1.0
    else if lo == 0 && hi == 3 then 2.0
    else if lo == 1 && hi == 3 then 3.0
    else 10.0
  }

  /**
   * On the four curves of `ExampleDistance` with two centers the greedy centers are 0 and
   * 2 with largest cost 2, but the reported radius is 10; the first swap the search
   * tries, curve 1 for curve 0, has largest cost 3 and is taken, so the search started
   * from the radius ends worse than the greedy centers.
   */
  lemma RadiusBaselineAcceptsWorse()
    ensures GreedyCenters(ExampleDistance, 4, 0, 1) == [0, 2]
    ensures GreedyRadius(ExampleDistance, 4, 0, 1) == Fin(10.0)
    ensures MaxCost(ExampleDistance, 4, [0, 2]) == Fin(2.0)
    ensures MaxCost(ExampleDistance, 4, Swap([0, 2], 0, 1)) == Fin(3.0)
  {
    var d := ExampleDistance;
    assert CostOver(d, 0, [0]) == Fin(0.0) && CostOver(d, 1, [0]) == Fin(1.0);
    assert CostOver(d, 2, [0]) == Fin(10.0) && CostOver(d, 3, [0]) == Fin(2.0);
    assert Farthest(d, 4, [0]) == (Fin(10.0), 2);
    assert [0, 2][..1] == [0] && [1, 2][..1] == [1];
    assert CostOver(d, 0, [0, 2]) == Fin(0.0) && CostOver(d, 1, [0, 2]) == Fin(1.0);
    assert CostOver(d, 2, [0, 2]) == Fin(0.0) && CostOver(d, 3, [0, 2]) == Fin(2.0);
    assert CostOver(d, 0, [1, 2]) == Fin(1.0) && CostOver(d, 1, [1, 2]) == Fin(0.0);
    assert CostOver(d, 2, [1, 2]) == Fin(0.0) && CostOver(d, 3, [1, 2]) == Fin(3.0);
    assert Swap([0, 2], 0, 1) == [1, 2];
  }

  /** `result` holds `k` buckets listing the curves `0..i-1` by their nearest position in `centers`. */
  ghost predicate SeqBuckets(d: (nat, nat) -> real, centers: seq<nat>, i: nat, k: nat, result: seq<seq<nat>>)
  {
    |result| == k && forall x :: 0 <= x < k ==> result[x] == Members(d, centers, i, x)
  }

  /** Appending curve `i` to the bucket of its nearest center extends the buckets from `i` to `i + 1` curves. */
  lemma AppendToSeqBucket(d: (nat, nat) -> real, centers: seq<nat>, i: nat, k: nat, result: seq<seq<nat>>)
    requires 1 <= k && |centers| <= k && SeqBuckets(d, centers, i, k, result)
    ensures Nearest(d, i, centers) < k
    ensures SeqBuckets(d, centers, i + 1, k, result[Nearest(d, i, centers) := result[Nearest(d, i, centers)] + [i]])
  {
    if |centers| >= 1 {
      NearestIsFirstMinimum(d, i, centers);
    }
  }

  /**
   * The push loop of `compute_assignment`: `k` empty buckets, then every curve is pushed
   * to the bucket of its nearest center position.
   */
  method AssignToBuckets(n: nat, k: nat, centers: seq<nat>, d: (nat, nat) -> real)
    returns (buckets: seq<seq<nat>>)
    requires n >= 1 ==> 1 <= k && |centers| <= k
    ensures SeqBuckets(d, centers, n, k, buckets)
  {
    buckets := seq(k, x => []);
    var i: nat := 0;
    while i < n
      invariant i <= n && SeqBuckets(d, centers, i, k, buckets)
    {
      AppendToSeqBucket(d, centers, i, k, buckets);
      var nearest := Nearest(d, i, centers);
      buckets := buckets[nearest := buckets[nearest] + [i]];
      i := i + 1;
    }
  }

  /** The positions `0..k-1`, the center list `std::iota` builds. */
  function Positions(k: nat): (r: seq<nat>)
    ensures |r| == k && forall x :: 0 <= x < k ==> r[x] == x
  {
    seq(k, x => x)
  }

  /** `curves` are the simplifications of the curves `indices` names, in order. */
  ghost predicate SimplifiedCenters(curves: seq<Curve>, indices: seq<nat>, simplify: nat -> Curve)
  {
    |curves| == |indices| && forall t :: 0 <= t < |indices| ==> curves[t] == simplify(indices[t])
  }

  /** The loop building the result's center curves from the simplification slots of the chosen curves. */
  method CenterCurves(indices: seq<nat>, ws: Workspace, ghost simplify: nat -> Curve) returns (curves: seq<Curve>)
    requires ws.Holds(simplify) && CentersSimplified(indices, ws.simplifications)
    ensures SimplifiedCenters(curves, indices, simplify)
  {
    curves := [];
    var t := 0;
    while t < |indices|
      invariant t <= |indices| && |curves| == t
      invariant forall s :: 0 <= s < t ==> curves[s] == simplify(indices[s])
    {
      curves := curves + [ws.simplifications[indices[t]].value];
      t := t + 1;
    }
  }

  /**
   * `Clustering_Result` of `src/clustering.cpp`: the center curves, the input curves they
   * were chosen from, the objective value and an assignment with one bucket per center.
   */
  class ClusteringResult {
    var centers: seq<Curve>
    var centerIndices: seq<nat>
    var value: ExtReal
    var assignment: seq<seq<nat>>

    /** A default-constructed result has no centers, indices or buckets; its value is left unset. */
    constructor ()
      ensures centers == [] && centerIndices == [] && assignment == []
    {
      centers := [];
      centerIndices := [];
      assignment := [];
    }

    function Size(): nat
      reads this
    {
      |centers|
    }

    function Get(i: nat): Curve
      reads this
      requires i < Size()
    {
      centers[i]
    }

    /** `set(i, curve)`: afterwards `get(i)` is `curve`; the size and every other center are unchanged. */
    method Set(i: nat, curve: Curve)
      requires i < Size()
      modifies this
      ensures Size() == old(Size()) && Get(i) == curve
      ensures forall j :: 0 <= j < Size() && j != i ==> Get(j) == old(Get(j))
      ensures centerIndices == old(centerIndices) && value == old(value) && assignment == old(assignment)
    {
      centers := centers[i := curve];
    }

    /**
     * `compute_assignment` as written: one bucket per center.  On a consecutive call whose
     * matrix has one row per input curve the curves are assigned by their distance `d` to
     * the simplifications of the center indices; otherwise the global matrix is replaced by
     * one with a row per input curve and a column per center, and the curves are assigned
     * by their distance `dc` to the center curves themselves.
     */
    method ComputeAssignmentAsWritten(n: nat, consecutiveCall: bool, ws: Workspace,
                                      d: (nat, nat) -> real, dc: (nat, nat) -> real)
      requires n >= 1 ==> |centers| >= 1
      requires consecutiveCall && ws.distanceRows == n ==> |centerIndices| <= |centers|
      modifies this, ws
      ensures centers == old(centers) && centerIndices == old(centerIndices) && value == old(value)
      ensures ws.distanceRows == n && ws.simplifications == old(ws.simplifications)
      ensures consecutiveCall && old(ws.distanceRows) == n ==>
        ws.distanceColumns == old(ws.distanceColumns) &&
        SeqBuckets(d, centerIndices, n, |centers|, assignment)
      ensures !(consecutiveCall && old(ws.distanceRows) == n) ==>
        ws.distanceColumns == |centers| &&
        SeqBuckets(dc, Positions(|centers|), n, |centers|, assignment)
    {
      if consecutiveCall && ws.distanceRows == n {
        assignment := AssignToBuckets(n, |centers|, centerIndices, d);
      } else {
        ws.distanceRows := n;
        ws.distanceColumns := |centers|;
        assignment := AssignToBuckets(n, |centers|, Positions(|centers|), dc);
      }
    }

    /**
     * `compute_assignment` with the distances to the center curves kept in a matrix of
     * its own: the buckets are those of the code as written, and the global matrix and
     * slots, which a later consecutive `kl_cluster` reuses, keep their shape and contents.
     */
    method ComputeAssignment(n: nat, consecutiveCall: bool, ws: Workspace,
                             d: (nat, nat) -> real, dc: (nat, nat) -> real)
      requires n >= 1 ==> |centers| >= 1
      requires consecutiveCall && ws.distanceRows == n ==> |centerIndices| <= |centers|
      modifies this
      ensures centers == old(centers) && centerIndices == old(centerIndices) && value == old(value)
      ensures consecutiveCall && ws.distanceRows == n ==>
        SeqBuckets(d, centerIndices, n, |centers|, assignment)
      ensures !(consecutiveCall && ws.distanceRows == n) ==>
        SeqBuckets(dc, Positions(|centers|), n, |centers|, assignment)
    {
      if consecutiveCall && ws.distanceRows == n {
        assignment := AssignToBuckets(n, |centers|, centerIndices, d);
      } else {
        assignment := AssignToBuckets(n, |centers|, Positions(|centers|), dc);
      }
    }
  }

  /**
   * A fresh `kl_cluster` on `n` curves, `compute_assignment` as written on a result with
   * `k < n` centers, then the set-up of a consecutive `kl_cluster` on the same curves: the
   * set-up keeps the global matrix, which has only `k` columns, although the searches read
   * the column of every curve.
   */
  method NarrowMatrixReused(n: nat, k: nat) returns (ws: Workspace)
    requires 1 <= k < n
    ensures Reused(ws.distanceRows, n, true)
    ensures ws.distanceRows == n && ws.distanceColumns == k && ws.distanceColumns < n
  {
    ws := new Workspace();
    ws.Prepare(n, false);
    var result := new ClusteringResult();
    result.centers := seq(k, c => []);
    result.ComputeAssignmentAsWritten(n, false, ws, (a, b) => 0.0, (a, b) => 0.0);
    ws.Prepare(n, true);
  }

  /** The first center `kl_cluster` intends: the curve a uniform draw `u` selects, or curve 0. */
  function StartCenter(randomStart: bool, u: real, n: nat): (first: nat)
    requires 0.0 <= u < 1.0 && n >= 1
    ensures first < n
  {
    if randomStart then SampleIndex(u, n) else 0
  }

  /** The number of centers `kl_cluster` returns: one at least. */
  function CenterCount(numCenters: nat): nat
  {
    if numCenters <= 1 then 1 else numCenters
  }

  /** The first center and the greedy loop: the farthest-first traversal from the intended first center. */
  method GreedyPhase(numCenters: nat, n: nat, randomStart: bool, u: real, d: (nat, nat) -> real,
                     ws: Workspace, simplify: nat -> Curve)
    returns (centers: seq<nat>, value: ExtReal)
    requires n >= 1 && 0.0 <= u < 1.0 && |ws.simplifications| == n && ws.Holds(simplify)
    modifies ws
    ensures ws.distanceRows == old(ws.distanceRows) && ws.distanceColumns == old(ws.distanceColumns) && |ws.simplifications| == n
    ensures ws.Holds(simplify) && CentersSimplified(centers, ws.simplifications)
    ensures centers == GreedyCenters(d, n, StartCenter(randomStart, u, n), ExtraCenters(numCenters))
    ensures value == GreedyRadius(d, n, StartCenter(randomStart, u, n), ExtraCenters(numCenters))
  {
    var first := FirstCenter(randomStart, u, ws, simplify);
    ghost var m := ExtraCenters(numCenters);
    centers, value := GreedyLoop(numCenters, [first], n, d, ws, simplify);
    GreedyFromFirst(d, n, first, m);
  }

  /**
   * The two local searches after the greedy loop: the k-center search when `localSearch`
   * is positive, then the k-median search when `median` is set.
   */
  method SearchPhases(numCenters: nat, n: nat, localSearch: nat, median: bool, greedy: seq<nat>, radius: ExtReal,
                      d: (nat, nat) -> real, ws: Workspace, simplify: nat -> Curve)
    returns (centers: seq<nat>, value: ExtReal)
    requires n >= 1 && |ws.simplifications| == n && ws.Holds(simplify) && (forall a, b :: d(a, b) >= 0.0)
    requires |greedy| == CenterCount(numCenters) && CentersSimplified(greedy, ws.simplifications)
    requires median ==> numCenters >= 1
    modifies ws
    ensures ws.distanceRows == old(ws.distanceRows) && ws.distanceColumns == old(ws.distanceColumns) && |ws.simplifications| == n
    ensures ws.Holds(simplify) && CentersSimplified(centers, ws.simplifications) && |centers| == |greedy|
    ensures localSearch == 0 && !median ==> centers == greedy && value == radius
    ensures localSearch > 0 && !median ==> value == MaxCost(d, n, centers) && value.Le(MaxCost(d, n, greedy))
    ensures median ==> value == SumCost(d, n, centers) && SwapOptimal(d, n, centers)
    ensures median && localSearch == 0 ==> value.Le(SumCost(d, n, greedy))
  {
    centers, value := greedy, radius;
    if localSearch > 0 {
      centers, value := KCenterPhase(localSearch, numCenters, centers, n, d, ws, simplify);
    }
    if median {
      var cost;
      centers, cost := MedianSearch(numCenters, centers, n, d, ws, simplify);
      value := Fin(cost);
    }
  }

  /**
   * `kl_cluster` with the first center always chosen and the k-center search measured
   * against the cost of its own centers.  The greedy centers are the farthest-first
   * traversal from the first center; the k-center search never worsens their largest
   * cost and its result is the value; the k-median search ends in a swap-optimal center
   * list whose cost sum is the value.  The centers are the simplifications of the chosen
   * curves in order; the assignment is left empty.
   */
  method Cluster(numCenters: nat, n: nat, localSearch: nat, median: bool, consecutiveCall: bool,
                 randomStart: bool, u: real, d: (nat, nat) -> real, ws: Workspace, simplify: nat -> Curve)
    returns (result: ClusteringResult)
    requires 0.0 <= u < 1.0 && (forall a, b :: d(a, b) >= 0.0)
    requires median && n >= 1 ==> numCenters >= 1
    requires Reused(ws.distanceRows, n, consecutiveCall) ==> |ws.simplifications| == n && ws.Holds(simplify)
    modifies ws
    ensures fresh(result) && result.assignment == []
    ensures n == 0 ==> result.centers == [] && result.centerIndices == []
    ensures n >= 1 ==> ws.distanceRows == n && |ws.simplifications| == n && ws.Holds(simplify)
    ensures n >= 1 ==>
      ws.distanceColumns == if Reused(old(ws.distanceRows), n, consecutiveCall) then old(ws.distanceColumns) else n
    ensures n >= 1 ==> SimplifiedCenters(result.centers, result.centerIndices, simplify)
    ensures n >= 1 ==> |result.centerIndices| == CenterCount(numCenters)
    ensures n >= 1 && localSearch == 0 && !median ==>
      var first := StartCenter(randomStart, u, n);
      result.centerIndices == GreedyCenters(d, n, first, ExtraCenters(numCenters)) &&
      result.value == GreedyRadius(d, n, first, ExtraCenters(numCenters))
    ensures n >= 1 && localSearch > 0 && !median ==>
      result.value == MaxCost(d, n, result.centerIndices) &&
      result.value.Le(MaxCost(d, n, GreedyCenters(d, n, StartCenter(randomStart, u, n), ExtraCenters(numCenters))))
    ensures n >= 1 && median ==>
      result.value == SumCost(d, n, result.centerIndices) && SwapOptimal(d, n, result.centerIndices)
    ensures n >= 1 && median && localSearch == 0 ==>
      result.value.Le(SumCost(d, n, GreedyCenters(d, n, StartCenter(randomStart, u, n), ExtraCenters(numCenters))))
  {
    result := new ClusteringResult();
    if n == 0 {
      return;
    }
    ws.Prepare(n, consecutiveCall);
    var greedy, radius := GreedyPhase(numCenters, n, randomStart, u, d, ws, simplify);
    var centers, value := SearchPhases(numCenters, n, localSearch, median, greedy, radius, d, ws, simplify);
    var curves := CenterCurves(centers, ws, simplify);
    result.centers := curves;
    result.centerIndices := centers;
    result.value := value;
  }
}
