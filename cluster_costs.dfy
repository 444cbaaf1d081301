/**
 * The clustering objectives both clustering files compute, as functions of a distance
 * `d(i, c)` between input curve `i` and center curve `c`: the cost of a curve (its
 * distance to the nearest center), the nearest center, the farthest curve, the sum of
 * the costs, and the buckets of an assignment.  Every loop over centers and curves in
 * the source keeps a running minimum or maximum that it replaces only on a strict
 * improvement; the functions follow the loops index by index.
 */
module ClusterCosts {

  import opened ExtReals

  /** The cost of curve `i`: its distance to the nearest of `centers`, `Inf` without centers. */
  function CostOver(d: (nat, nat) -> real, i: nat, centers: seq<nat>): ExtReal
    decreases |centers|
  {
    if |centers| == 0 then Inf
    else Min(CostOver(d, i, centers[..|centers| - 1]), Fin(d(i, centers[|centers| - 1])))
  }

  /** The position in `centers` of the first nearest center of curve `i`, 0 without centers. */
  function Nearest(d: (nat, nat) -> real, i: nat, centers: seq<nat>): nat
    decreases |centers|
  {
    if |centers| <= 1 then 0
    else if Fin(d(i, centers[|centers| - 1])).Lt(CostOver(d, i, centers[..|centers| - 1])) then |centers| - 1
    else Nearest(d, i, centers[..|centers| - 1])
  }

  /**
   * The cost of a curve is the smallest of its distances to the centers, attained at the
   * nearest center, and every center before the nearest one is strictly farther.
   */
  lemma {:induction false} NearestIsFirstMinimum(d: (nat, nat) -> real, i: nat, centers: seq<nat>)
    requires |centers| >= 1
    ensures Nearest(d, i, centers) < |centers|
    ensures CostOver(d, i, centers) == Fin(d(i, centers[Nearest(d, i, centers)]))
    ensures forall t :: 0 <= t < |centers| ==> CostOver(d, i, centers).Le(Fin(d(i, centers[t])))
    ensures forall t :: 0 <= t < Nearest(d, i, centers) ==> CostOver(d, i, centers).Lt(Fin(d(i, centers[t])))
  {
    if |centers| > 1 {
      var prefix := centers[..|centers| - 1];
      NearestIsFirstMinimum(d, i, prefix);
      assert forall t :: 0 <= t < |prefix| ==> prefix[t] == centers[t];
    }
  }

  /** Without centers every curve costs `Inf` and its nearest center is position 0. */
  lemma NoCentersCostInfinity(d: (nat, nat) -> real, i: nat)
    ensures CostOver(d, i, []) == Inf && Nearest(d, i, []) == 0
  {
  }

  /**
   * The farthest of the curves `0..m-1` from `centers`: the cost and index of the first
   * curve whose cost is strictly above every earlier one and above 0, starting from
   * `(0, 0)`.
   */
  function Farthest(d: (nat, nat) -> real, m: nat, centers: seq<nat>): (ExtReal, nat)
  {
    if m == 0 then (Fin(0.0), 0)
    else
      var (v, k) := Farthest(d, m - 1, centers);
      var c := CostOver(d, m - 1, centers);
      if v.Lt(c) then (c, m - 1) else (v, k)
  }

  /**
   * The farthest curve has the largest cost (at least 0), every curve before it costs
   * strictly less, and its index is one of the curves (0 when none costs more than 0).
   */
  lemma {:induction false} FarthestIsFirstMaximum(d: (nat, nat) -> real, m: nat, centers: seq<nat>)
    ensures var (v, k) := Farthest(d, m, centers);
      (k < m || k == 0) && Fin(0.0).Le(v) &&
      (forall j :: 0 <= j < m ==> CostOver(d, j, centers).Le(v)) &&
      (forall j :: 0 <= j < k ==> CostOver(d, j, centers).Lt(v)) &&
      ((v == Fin(0.0) && k == 0) || (k < m && v == CostOver(d, k, centers)))
  {
    if m > 0 {
      FarthestIsFirstMaximum(d, m - 1, centers);
      var (v, k) := Farthest(d, m - 1, centers);
      var c := CostOver(d, m - 1, centers);
      LeTotal(v, c);
      if v.Lt(c) {
        forall j | 0 <= j < m
          ensures CostOver(d, j, centers).Le(c)
        {
          if j < m - 1 {
            LeTrans(CostOver(d, j, centers), v, c);
          }
        }
        forall j | 0 <= j < m - 1
          ensures CostOver(d, j, centers).Lt(c)
        {
          LeLtTrans(CostOver(d, j, centers), v, c);
        }
        LeTrans(Fin(0.0), v, c);
      }
    }
  }

  /** The sum of the costs of the curves `0..n-1`, accumulated from 0. */
  function SumCost(d: (nat, nat) -> real, n: nat, centers: seq<nat>): ExtReal
  {
    if n == 0 then Fin(0.0) else Add(SumCost(d, n - 1, centers), CostOver(d, n - 1, centers))
  }

  /** With at least one center and non-negative distances the cost sum is finite and non-negative. */
  lemma {:induction false} SumCostFinite(d: (nat, nat) -> real, n: nat, centers: seq<nat>)
    requires |centers| >= 1 && forall a, b :: d(a, b) >= 0.0
    ensures SumCost(d, n, centers).Fin? && SumCost(d, n, centers).v >= 0.0
  {
    if n > 0 {
      SumCostFinite(d, n - 1, centers);
      NearestIsFirstMinimum(d, n - 1, centers);
    }
  }

  /** The indices `0..n-1` whose nearest center is position `c`, in increasing order. */
  function Members(d: (nat, nat) -> real, centers: seq<nat>, n: nat, c: nat): seq<nat>
  {
    if n == 0 then []
    else Members(d, centers, n - 1, c) + (if Nearest(d, n - 1, centers) == c then [n - 1] else [])
  }

  /**
   * The buckets partition the curves: a curve is in bucket `c` exactly when its nearest
   * center is `c`, and every bucket is strictly increasing.
   */
  lemma {:induction false} MembersPartition(d: (nat, nat) -> real, centers: seq<nat>, n: nat, c: nat)
    ensures forall x: nat :: x in Members(d, centers, n, c) <==> x < n && Nearest(d, x, centers) == c
    ensures forall s, t :: 0 <= s < t < |Members(d, centers, n, c)| ==>
      Members(d, centers, n, c)[s] < Members(d, centers, n, c)[t]
  {
    if n > 0 {
      MembersPartition(d, centers, n - 1, c);
      var m := Members(d, centers, n - 1, c);
      forall s | 0 <= s < |m|
        ensures m[s] < n - 1
      {
        assert m[s] in m;
      }
    }
  }

  /**
   * Adding a center never raises a curve's cost, and with non-negative distances every
   * cost over a non-empty center list is finite and non-negative.
   */
  lemma CostOverExtend(d: (nat, nat) -> real, i: nat, centers: seq<nat>, c: nat)
    ensures CostOver(d, i, centers + [c]).Le(CostOver(d, i, centers))
    ensures CostOver(d, i, centers + [c]).Le(Fin(d(i, c)))
  {
    assert (centers + [c])[..|centers|] == centers;
  }

  /** The centers a greedy loop `for i in 1..numCenters` adds after the first one. */
  function ExtraCenters(numCenters: nat): nat
  {
    if numCenters <= 1 then 0 else numCenters - 1
  }

  /** The greedy center lists: `first`, then `m` times the farthest curve of `0..n-1` from the centers so far. */
  function GreedyCenters(d: (nat, nat) -> real, n: nat, first: nat, m: nat): (centers: seq<nat>)
    ensures |centers| == m + 1 && centers[0] == first
  {
    if m == 0 then [first]
    else
      var prev := GreedyCenters(d, n, first, m - 1);
      prev + [Farthest(d, n, prev).1]
  }

  /**
   * Farthest-first traversal: every center after the first is one of the curves, no curve
   * is farther from the earlier centers than it is, and every curve before it is strictly
   * nearer to them.
   */
  ghost predicate FarthestFirst(d: (nat, nat) -> real, n: nat, centers: seq<nat>)
  {
    forall t :: 1 <= t < |centers| ==>
      (centers[t] < n &&
       (forall x: nat :: x < n ==> CostOver(d, x, centers[..t]).Le(CostOver(d, centers[t], centers[..t]))) &&
       (forall x: nat :: x < centers[t] ==> CostOver(d, x, centers[..t]).Lt(CostOver(d, centers[t], centers[..t]))))
  }

  /**
   * On at least one curve with non-negative distances, the farthest curve is one of the
   * curves and its cost is the value `Farthest` reports.
   */
  lemma FarthestAttained(d: (nat, nat) -> real, n: nat, centers: seq<nat>)
    requires n >= 1 && |centers| >= 1 && forall a, b :: d(a, b) >= 0.0
    ensures Farthest(d, n, centers).1 < n
    ensures Farthest(d, n, centers).0 == CostOver(d, Farthest(d, n, centers).1, centers)
  {
    FarthestIsFirstMaximum(d, n, centers);
    NearestIsFirstMinimum(d, 0, centers);
  }

  lemma {:induction false} GreedyCentersAreFarthestFirst(d: (nat, nat) -> real, n: nat, first: nat, m: nat)
    requires n >= 1 && forall a, b :: d(a, b) >= 0.0
    ensures FarthestFirst(d, n, GreedyCenters(d, n, first, m))
  {
    if m > 0 {
      GreedyCentersAreFarthestFirst(d, n, first, m - 1);
      var prev := GreedyCenters(d, n, first, m - 1);
      var centers := GreedyCenters(d, n, first, m);
      FarthestIsFirstMaximum(d, n, prev);
      FarthestAttained(d, n, prev);
      forall t | 1 <= t < |centers|
        ensures centers[..t] == prev[..t] && (t < m ==> centers[t] == prev[t])
      {
      }
      assert centers[..m] == prev;
    }
  }

  /**
   * The radius the greedy traversal reports after choosing `m` centers beyond the first:
   * the largest cost seen in the scan that chose the last center, 0 when there was none.
   */
  function GreedyRadius(d: (nat, nat) -> real, n: nat, first: nat, m: nat): ExtReal
  {
    if m == 0 then Fin(0.0) else Farthest(d, n, GreedyCenters(d, n, first, m - 1)).0
  }

  /**
   * The reported radius is the cost of the last center against the earlier ones, and it
   * bounds the cost of every curve against all the centers.
   */
  lemma GreedyRadiusBoundsCosts(d: (nat, nat) -> real, n: nat, first: nat, m: nat)
    requires n >= 1 && m >= 1 && forall a, b :: d(a, b) >= 0.0
    ensures var centers := GreedyCenters(d, n, first, m);
      GreedyRadius(d, n, first, m) == CostOver(d, centers[m], centers[..m]) &&
      forall x: nat :: x < n ==> CostOver(d, x, centers).Le(GreedyRadius(d, n, first, m))
  {
    var prev := GreedyCenters(d, n, first, m - 1);
    var centers := GreedyCenters(d, n, first, m);
    var radius := Farthest(d, n, prev).0;
    FarthestIsFirstMaximum(d, n, prev);
    FarthestAttained(d, n, prev);
    assert centers[..m] == prev;
    forall x: nat | x < n
      ensures CostOver(d, x, centers).Le(radius)
    {
      CostOverExtend(d, x, prev, Farthest(d, n, prev).1);
      LeTrans(CostOver(d, x, centers), CostOver(d, x, prev), radius);
    }
  }

  /** All center lists of length `k` over the curves `0..n-1`. */
  ghost function ConfigSet(k: nat, n: nat): set<seq<nat>>
  {
    if k == 0 then {[]} else set c, x | c in ConfigSet(k - 1, n) && 0 <= x < n :: c + [x]
  }

  lemma {:induction false} InConfigSet(c: seq<nat>, n: nat)
    requires forall t :: 0 <= t < |c| ==> c[t] < n
    ensures c in ConfigSet(|c|, n)
  {
    if |c| > 0 {
      var prefix := c[..|c| - 1];
      InConfigSet(prefix, n);
      assert c == prefix + [c[|c| - 1]];
    }
  }

  /** The center lists of length `k` whose cost sum is strictly below `bound`. */
  ghost function Cheaper(d: (nat, nat) -> real, n: nat, k: nat, bound: ExtReal): set<seq<nat>>
  {
    set c | c in ConfigSet(k, n) && SumCost(d, n, c).Lt(bound)
  }

  lemma {:induction false} SubsetCard<T>(a: set<T>, b: set<T>)
    requires a <= b
    ensures |a| <= |b|
  {
    if a != {} {
      var x :| x in a;
      SubsetCard(a - {x}, b - {x});
    }
  }

  /**
   * Moving to a strictly cheaper center list removes it from the cheaper lists: the
   * finite count of lists cheaper than the current one drops, so strict-improvement
   * search terminates.
   */
  lemma ImprovementShrinks(d: (nat, nat) -> real, n: nat, centers: seq<nat>, bound: ExtReal)
    requires forall t :: 0 <= t < |centers| ==> centers[t] < n
    requires SumCost(d, n, centers).Lt(bound)
    ensures |Cheaper(d, n, |centers|, SumCost(d, n, centers))| < |Cheaper(d, n, |centers|, bound)|
  {
    InConfigSet(centers, n);
    var smaller := Cheaper(d, n, |centers|, SumCost(d, n, centers));
    var larger := Cheaper(d, n, |centers|, bound);
    assert smaller <= larger;
    assert centers in larger && centers !in smaller;
    SubsetCard(smaller + {centers}, larger);
  }

  /** `centers` with the center at position `p` replaced by curve `x`. */
  function Swap(centers: seq<nat>, p: nat, x: nat): (r: seq<nat>)
    requires p < |centers|
    ensures |r| == |centers| && r[p] == x
    ensures forall t :: 0 <= t < |centers| && t != p ==> r[t] == centers[t]
  {
    centers[p := x]
  }

  /**
   * No single swap of the center at a position below `i` for a curve of `0..n-1` that is
   * not a center lowers the cost sum strictly.
   */
  ghost predicate SwapsTried(d: (nat, nat) -> real, n: nat, centers: seq<nat>, i: nat)
  {
    i <= |centers| &&
    forall p: nat, x: nat :: p < i && x < n && x !in centers ==>
      SumCost(d, n, centers).Le(SumCost(d, n, Swap(centers, p, x)))
  }

  /** No swap of the center at position `i` for a curve of `0..n-1` that is not a center lowers the cost sum strictly. */
  ghost predicate NoBetterSwapAt(d: (nat, nat) -> real, n: nat, centers: seq<nat>, i: nat)
    requires i < |centers|
  {
    forall x: nat :: x < n && x !in centers ==> SumCost(d, n, centers).Le(SumCost(d, n, Swap(centers, i, x)))
  }

  lemma SwapsTriedStep(d: (nat, nat) -> real, n: nat, centers: seq<nat>, i: nat)
    requires i < |centers| && SwapsTried(d, n, centers, i) && NoBetterSwapAt(d, n, centers, i)
    ensures SwapsTried(d, n, centers, i + 1)
  {
  }

  /**
   * The state of one pass of swaps at position `i` after curve `j`: the working copy differs from the
   * centers at most at `i`, by a curve before `j`; the centers cost no more than the
   * starting ones, strictly less once a copy was taken; and while none was taken, no swap
   * at `i` with a curve before `j` is cheaper.
   */
  ghost predicate SwapState(d: (nat, nat) -> real, n: nat, i: nat, j: nat, centers0: seq<nat>, cost0: real,
                              candidate: seq<nat>, centers: seq<nat>, cost: real, improved: bool)
  {
    i < |candidate| == |centers| == |centers0| && Fin(cost0) == SumCost(d, n, centers0) &&
    (forall t :: 0 <= t < |centers| && t != i ==> candidate[t] == centers[t] == centers0[t]) &&
    (candidate[i] == centers[i] || candidate[i] < j) &&
    Fin(cost) == SumCost(d, n, centers) && cost <= cost0 && (improved ==> cost < cost0) &&
    (!improved ==>
      centers == centers0 &&
      forall x: nat :: x < j && x !in centers0 ==> Fin(cost0).Le(SumCost(d, n, Swap(centers0, i, x))))
  }

  /** A curve already in the working copy is skipped. */
  lemma SwapSkip(d: (nat, nat) -> real, n: nat, i: nat, j: nat, centers0: seq<nat>, cost0: real,
                   candidate: seq<nat>, centers: seq<nat>, cost: real, improved: bool)
    requires SwapState(d, n, i, j, centers0, cost0, candidate, centers, cost, improved) && j in candidate
    ensures SwapState(d, n, i, j + 1, centers0, cost0, candidate, centers, cost, improved)
  {
    if !improved {
      var t :| 0 <= t < |candidate| && candidate[t] == j;
      assert j in centers0 by {
        if t == i && candidate[i] != centers[i] {
          assert false;
        }
        assert centers0[t] == j;
      }
    }
  }

  /** A curve not in the working copy replaces its center at `i`; the copy is taken when it costs less. */
  lemma SwapReplace(d: (nat, nat) -> real, n: nat, i: nat, j: nat, centers0: seq<nat>, cost0: real,
                      candidate: seq<nat>, centers: seq<nat>, cost: real, improved: bool, taken: bool)
    requires SwapState(d, n, i, j, centers0, cost0, candidate, centers, cost, improved) && j !in candidate
    requires SumCost(d, n, candidate[i := j]).Fin? && taken == (SumCost(d, n, candidate[i := j]).v < cost)
    ensures taken ==>
      SwapState(d, n, i, j + 1, centers0, cost0, candidate[i := j], candidate[i := j], SumCost(d, n, candidate[i := j]).v, true)
    ensures !taken ==> SwapState(d, n, i, j + 1, centers0, cost0, candidate[i := j], centers, cost, improved)
  {
    assert !improved ==> candidate[i := j] == Swap(centers0, i, j);
  }

  /** A local optimum of single-swap search for the k-median cost. */
  ghost predicate SwapOptimal(d: (nat, nat) -> real, n: nat, centers: seq<nat>)
  {
    SwapsTried(d, n, centers, |centers|)
  }

  /**
   * The running minimum of `vals`: the position of the first strict minimum and its
   * value, `(0, Inf)` for no values.
   */
  function RunningMin(vals: seq<real>): (r: (ExtReal, nat))
    ensures |vals| >= 1 ==> r.1 < |vals|
  {
    if |vals| == 0 then (Inf, 0)
    else
      var (m, p) := RunningMin(vals[..|vals| - 1]);
      if Fin(vals[|vals| - 1]).Lt(m) then (Fin(vals[|vals| - 1]), |vals| - 1) else (m, p)
  }

  /** One more value replaces the running minimum exactly when it is strictly smaller. */
  lemma RunningMinStep(vals: seq<real>, i: nat)
    requires i < |vals|
    ensures RunningMin(vals[..i + 1]) ==
      if Fin(vals[i]).Lt(RunningMin(vals[..i]).0) then (Fin(vals[i]), i) else RunningMin(vals[..i])
  {
    assert vals[..i + 1][..i] == vals[..i];
  }

  lemma {:induction false} RunningMinIsFirstMinimum(vals: seq<real>)
    requires |vals| >= 1
    ensures RunningMin(vals).1 < |vals| && RunningMin(vals).0 == Fin(vals[RunningMin(vals).1])
    ensures forall t :: 0 <= t < |vals| ==> RunningMin(vals).0.v <= vals[t]
    ensures forall t :: 0 <= t < RunningMin(vals).1 ==> RunningMin(vals).0.v < vals[t]
  {
    if |vals| > 1 {
      var prefix := vals[..|vals| - 1];
      RunningMinIsFirstMinimum(prefix);
      assert forall t :: 0 <= t < |prefix| ==> prefix[t] == vals[t];
    }
  }
}
