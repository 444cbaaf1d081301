/**
 * Discrete dynamic time warping, `Dynamic_Time_Warping::Discrete::distance`
 * (src/dynamic_time_warping.cpp).
 *
 * The table sees the two curves only through their lengths `n`, `m` and the Euclidean
 * distance of point pairs, `cost(i, j) == sqrt(curve1[i].dist_sqr(curve2[j]))`; the square
 * root is not modelled, so `cost` is an oracle.
 */
module DynamicTimeWarping {

  import opened ExtReals

  /**
   * `a[i][j]`: the cheapest warping of the first `i` points of `curve1` onto the first `j`
   * points of `curve2`.  The border is `0` at `(0, 0)` and infinite elsewhere; an inner
   * cell adds its pair's cost to the cheapest of its three predecessors.
   */
  function Cell(cost: (nat, nat) -> real, i: nat, j: nat): ExtReal
    decreases i + j
  {
    if i == 0 && j == 0 then Fin(0.0)
    else if i == 0 || j == 0 then Inf
    else Add(Fin(cost(i - 1, j - 1)), Min(Min(Cell(cost, i - 1, j), Cell(cost, i, j - 1)), Cell(cost, i - 1, j - 1)))
  }

  /** The rows before `i` and the cells of row `i` before column `j` hold `Cell`; the rest is `Inf`. */
  ghost predicate Filled(cost: (nat, nat) -> real, a: array2<ExtReal>, i: nat, j: nat)
    reads a
  {
    forall x, y :: 0 <= x < a.Length0 && 0 <= y < a.Length1 ==>
      a[x, y] == if x < i || (x == i && y < j) || (x == 0 && y == 0) then Cell(cost, x, y) else Inf
  }

  /**
   * `Discrete::distance`: an `(n+1) x (m+1)` table of infinities with `a[0][0] = 0`, filled
   * row by row; the result is its last entry.
   */
  method Distance(n: nat, m: nat, cost: (nat, nat) -> real) returns (r: ExtReal)
    ensures r == Cell(cost, n, m)
  {
    var a := new ExtReal[n + 1, m + 1]((x, y) => Inf);
    a[0, 0] := Fin(0.0);
    assert Filled(cost, a, 0, m + 1);
    var i := 1;
    while i <= n
      invariant 1 <= i <= n + 1
      invariant Filled(cost, a, i, 0)
    {
      assert a[i, 0] == Cell(cost, i, 0);
      var j := 1;
      while j <= m
        invariant 1 <= j <= m + 1
        invariant Filled(cost, a, i, j)
      {
        Step(cost, a, i, j);
        j := j + 1;
      }
      i := i + 1;
    }
    r := a[n, m];
  }

  /** One cell of the table: `a[i][j] = cost(i-1, j-1)`, then `a[i][j] += min(...)`. */
  method Step(cost: (nat, nat) -> real, a: array2<ExtReal>, i: nat, j: nat)
    requires 1 <= i < a.Length0 && 1 <= j < a.Length1
    requires Filled(cost, a, i, j)
    modifies a
    ensures Filled(cost, a, i, j + 1)
  {
    assert a[i - 1, j] == Cell(cost, i - 1, j);
    assert a[i, j - 1] == Cell(cost, i, j - 1);
    assert a[i - 1, j - 1] == Cell(cost, i - 1, j - 1);
    a[i, j] := Fin(cost(i - 1, j - 1));
    a[i, j] := Add(a[i, j], Min(Min(a[i - 1, j], a[i, j - 1]), a[i - 1, j - 1]));
  }

  // ---------------------------------------------------------------------------------
  // Properties of the table.

  /** The sum of the costs `cost(0, j) .. cost(i-1, j)` of one column. */
  function ColumnSum(cost: (nat, nat) -> real, j: nat, i: nat): real
  {
    if i == 0 then 0.0 else ColumnSum(cost, j, i - 1) + cost(i - 1, j)
  }

  /** The sum of the costs `cost(i, 0) .. cost(i, j-1)` of one row. */
  function RowSum(cost: (nat, nat) -> real, i: nat, j: nat): real
  {
    if j == 0 then 0.0 else RowSum(cost, i, j - 1) + cost(i, j - 1)
  }

  /** The first inner column holds the prefix sums of the first column of costs. */
  lemma {:induction false} FirstColumnIsPrefixSum(cost: (nat, nat) -> real, i: nat)
    requires i >= 1
    ensures Cell(cost, i, 1) == Fin(ColumnSum(cost, 0, i))
  {
    if i > 1 {
      FirstColumnIsPrefixSum(cost, i - 1);
    }
  }

  /** The first inner row holds the prefix sums of the first row of costs. */
  lemma {:induction false} FirstRowIsPrefixSum(cost: (nat, nat) -> real, j: nat)
    requires j >= 1
    ensures Cell(cost, 1, j) == Fin(RowSum(cost, 0, j))
  {
    if j > 1 {
      FirstRowIsPrefixSum(cost, j - 1);
    }
  }

  /** Every inner cell is finite: its diagonal predecessor is. */
  lemma {:induction false} InnerCellsFinite(cost: (nat, nat) -> real, i: nat, j: nat)
    requires i >= 1 && j >= 1
    ensures Cell(cost, i, j).Fin?
  {
    if i > 1 && j > 1 {
      InnerCellsFinite(cost, i - 1, j - 1);
    } else if i > 1 {
      InnerCellsFinite(cost, i - 1, j);
    } else if j > 1 {
      InnerCellsFinite(cost, i, j - 1);
    }
  }

  /** With non-negative costs an inner cell is at least its own pair's cost. */
  lemma {:induction false} CellCoversOwnCost(cost: (nat, nat) -> real, i: nat, j: nat)
    requires forall x: nat, y: nat :: cost(x, y) >= 0.0
    requires i >= 1 && j >= 1
    ensures Cell(cost, i, j).Fin? && Cell(cost, i, j).v >= cost(i - 1, j - 1)
    decreases i + j
  {
    forall x: nat, y: nat | x + y < i + j
      ensures Cell(cost, x, y).Fin? ==> Cell(cost, x, y).v >= 0.0
    {
      if x >= 1 && y >= 1 {
        CellCoversOwnCost(cost, x, y);
      }
    }
    InnerCellsFinite(cost, i, j);
  }

  /** Warping is symmetric: exchanging the curves transposes the cost and the table. */
  lemma {:induction false} CellSymmetric(cost: (nat, nat) -> real, costT: (nat, nat) -> real, i: nat, j: nat)
    requires forall x: nat, y: nat :: costT(y, x) == cost(x, y)
    ensures Cell(cost, i, j) == Cell(costT, j, i)
  {
    forall x: nat, y: nat | x <= i && y <= j && x + y < i + j
      ensures Cell(cost, x, y) == Cell(costT, y, x)
    {
      CellSymmetric(cost, costT, x, y);
    }
    if i >= 1 && j >= 1 {
      var a, b := Cell(cost, i - 1, j), Cell(cost, i, j - 1);
      assert Min(a, b) == Min(b, a) by {
        LeTotal(a, b);
      }
    }
  }

  // ---------------------------------------------------------------------------------
  // The values the unit tests expect, on one-dimensional curves.

  /** On the line the distance of two points is the absolute difference. */
  function LineCost(xs: seq<real>, ys: seq<real>): (nat, nat) -> real
  {
    (i: nat, j: nat) => if i < |xs| && j < |ys| then (if xs[i] >= ys[j] then xs[i] - ys[j] else ys[j] - xs[i]) else 0.0
  }

  /** `LineCost` is the square root of the squared distance of the two one-dimensional points. */
  lemma LineCostIsRoot(xs: seq<real>, ys: seq<real>, i: nat, j: nat)
    requires i < |xs| && j < |ys|
    ensures LineCost(xs, ys)(i, j) >= 0.0
    ensures LineCost(xs, ys)(i, j) * LineCost(xs, ys)(i, j) == (xs[i] - ys[j]) * (xs[i] - ys[j])
  {
  }

  /** One inner cell from its cost and its three predecessors. */
  lemma CellFrom(c: (nat, nat) -> real, i: nat, j: nat, x: real, up: ExtReal, left: ExtReal, diag: ExtReal)
    requires i >= 1 && j >= 1 && c(i - 1, j - 1) == x
    requires Cell(c, i - 1, j) == up && Cell(c, i, j - 1) == left && Cell(c, i - 1, j - 1) == diag
    ensures Cell(c, i, j) == Add(Fin(x), Min(Min(up, left), diag))
  {
  }

  /** `[0, 1, 0, 1]` against `[0, 0.75, 0.25, 1]` warps at cost 0.5. */
  lemma ZigzagExample(c: (nat, nat) -> real)
    requires c == LineCost([0.0, 1.0, 0.0, 1.0], [0.0, 0.75, 0.25, 1.0])
    ensures Cell(c, 4, 4) == Fin(0.5)
  {
    CellFrom(c, 1, 1, 0.0, Inf, Inf, Fin(0.0));
    CellFrom(c, 1, 2, 0.75, Inf, Fin(0.0), Inf);
    CellFrom(c, 1, 3, 0.25, Inf, Fin(0.75), Inf);
    CellFrom(c, 1, 4, 1.0, Inf, Fin(1.0), Inf);
    CellFrom(c, 2, 1, 1.0, Fin(0.0), Inf, Inf);
    CellFrom(c, 2, 2, 0.25, Fin(0.75), Fin(1.0), Fin(0.0));
    CellFrom(c, 2, 3, 0.75, Fin(1.0), Fin(0.25), Fin(0.75));
    CellFrom(c, 2, 4, 0.0, Fin(2.0), Fin(1.0), Fin(1.0));
    CellFrom(c, 3, 1, 0.0, Fin(1.0), Inf, Inf);
    CellFrom(c, 3, 2, 0.75, Fin(0.25), Fin(1.0), Fin(1.0));
    CellFrom(c, 3, 3, 0.25, Fin(1.0), Fin(1.0), Fin(0.25));
    CellFrom(c, 3, 4, 1.0, Fin(1.0), Fin(0.5), Fin(1.0));
    CellFrom(c, 4, 1, 1.0, Fin(1.0), Inf, Inf);
    CellFrom(c, 4, 2, 0.25, Fin(1.0), Fin(2.0), Fin(1.0));
    CellFrom(c, 4, 3, 0.75, Fin(0.5), Fin(1.25), Fin(1.0));
    CellFrom(c, 4, 4, 0.0, Fin(1.5), Fin(1.25), Fin(0.5));
  }

  /** `[0, 1, 0, 1]` against `[0, 1]` warps at cost 1. */
  lemma SegmentExample(c: (nat, nat) -> real)
    requires c == LineCost([0.0, 1.0, 0.0, 1.0], [0.0, 1.0])
    ensures Cell(c, 4, 2) == Fin(1.0)
  {
    CellFrom(c, 1, 1, 0.0, Inf, Inf, Fin(0.0));
    CellFrom(c, 1, 2, 1.0, Inf, Fin(0.0), Inf);
    CellFrom(c, 2, 1, 1.0, Fin(0.0), Inf, Inf);
    CellFrom(c, 2, 2, 0.0, Fin(1.0), Fin(1.0), Fin(0.0));
    CellFrom(c, 3, 1, 0.0, Fin(1.0), Inf, Inf);
    CellFrom(c, 3, 2, 1.0, Fin(0.0), Fin(1.0), Fin(1.0));
    CellFrom(c, 4, 1, 1.0, Fin(1.0), Inf, Inf);
    CellFrom(c, 4, 2, 0.0, Fin(1.0), Fin(2.0), Fin(1.0));
  }

  /** `[0, 5e5, 1e6]` against `[0, 1e6]` warps at cost 5e5. */
  lemma LongSegmentExample(c: (nat, nat) -> real)
    requires c == LineCost([0.0, 500000.0, 1000000.0], [0.0, 1000000.0])
    ensures Cell(c, 3, 2) == Fin(500000.0)
  {
    CellFrom(c, 1, 1, 0.0, Inf, Inf, Fin(0.0));
    CellFrom(c, 1, 2, 1000000.0, Inf, Fin(0.0), Inf);
    CellFrom(c, 2, 1, 500000.0, Fin(0.0), Inf, Inf);
    CellFrom(c, 2, 2, 500000.0, Fin(1000000.0), Fin(500000.0), Fin(0.0));
    CellFrom(c, 3, 1, 1000000.0, Fin(500000.0), Inf, Inf);
    CellFrom(c, 3, 2, 0.0, Fin(500000.0), Fin(1500000.0), Fin(500000.0));
  }
}
