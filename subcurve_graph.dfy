/**
 * `Subcurve_Graph`: the same shortcut graph and minimum-error query as
 * `Simplification::Subcurve_Shortcut_Graph`, written a second time with `std::max`'s
 * arguments swapped and a `while` loop for the reconstruction.
 */
module CurveGraph {

  import opened ExtReals
  import opened Arith
  import opened Points
  import opened MinErrorDp

  class SubcurveGraph {

    /** The curve the graph is built over. */
    const curve: Curve
    /** The edge weights the constructor computes, as a function of the two vertex indices. */
    ghost const dist: (nat, nat) -> real
    /** `edges[i][j]`: the weight of shortcut `(i, j)` for `i < j`, infinite otherwise. */
    const edges: array2<ExtReal>

    ghost predicate Valid()
      reads edges
    {
      |curve| >= 1 && EdgesHold(dist, edges, |curve|)
    }

    /**
     * Fills the edge table row by row; `shortcut(i, j)` stands for the Fréchet distance
     * between `curve[i..j]` and the segment `curve[i] curve[j]`.
     */
    constructor (curve: Curve, shortcut: (nat, nat) -> real)
      requires |curve| >= 1
      ensures this.curve == curve && dist == shortcut
      ensures Valid()
    {
      var complexity := |curve|;
      var e := new ExtReal[complexity, complexity]((x, y) => Inf);
      var i := 0;
      while i < complexity - 1
        invariant i <= complexity - 1
        invariant EdgesFilled(shortcut, e, i, i + 1)
      {
        var j := i + 1;
        while j < complexity
          invariant i + 1 <= j <= complexity
          invariant EdgesFilled(shortcut, e, i, j)
        {
          e[i, j] := Fin(shortcut(i, j));
          j := j + 1;
        }
        i := i + 1;
      }
      this.curve := curve;
      dist := shortcut;
      edges := e;
    }

    /**
     * A simplification of `curve` with `ll` vertices, all taken from `curve`, that keeps
     * both ends and minimises the largest shortcut weight; the curve itself when `ll` is
     * at least its length, and the two end points when `ll <= 2`.
     */
    method WeakMinimumErrorSimplification(ll: nat) returns (result: Curve)
      requires Valid()
      ensures result == Simplification(curve, dist, ll)
    {
      var n := |curve|;
      if ll >= n {
        return curve;
      }
      if ll <= 2 {
        return [curve[0], curve[n - 1]];
      }
      var l := ll - 1;
      var distances, predecessors := FillTables(dist, edges, n, l, true);
      var points := Backtrack(curve, dist, predecessors, l);
      result := Reverse(points);
      ReverseInvolution(Simplification(curve, dist, ll));
    }
  }

  /**
   * The reconstruction loop: while `ell > 0`, collect the current vertex and read its
   * predecessor at level `ell - 1` of the decremented `ell`.  In the last round that level
   * is `0 - 1`, out of range (see `LevelsReadAsWritten`), and the value read is unused, so
   * the model does not perform that read.
   */
  method Backtrack(curve: Curve, ghost dist: (nat, nat) -> real, predecessors: array2<nat>, l: nat)
    returns (points: Curve)
    requires 2 <= l && l + 1 < |curve|
    requires predecessors.Length0 == |curve| && predecessors.Length1 == l
    requires forall x, y :: 0 <= x < |curve| && 0 <= y < l ==> predecessors[x, y] == Pred(dist, y, x)
    ensures points == Reverse(Simplification(curve, dist, l + 1))
  {
    var n := |curve|;
    ghost var w := Walk(dist, n - 1, l - 1);
    WalkFollowsTable(dist, predecessors, l, w);
    var ell := l;
    points := [curve[n - 1]];
    var predecessor := predecessors[n - 1, ell - 1];
    while ell > 0
      invariant ell <= l && |points| == l - ell + 1
      invariant forall t :: 0 <= t < |points| ==> points[t] == curve[w[t]]
      invariant ell > 0 ==> predecessor == w[l - ell + 1]
    {
      points := points + [curve[predecessor]];
      ell := ell - 1;
      if ell > 0 {
        predecessor := predecessors[predecessor, ell - 1];
      }
    }
    CollectedIsReversed(curve, dist, l + 1, w, points);
  }

  /**
   * The levels of `predecessors` the reconstruction reads, with `ell` a `size_t`: one read
   * at `ell - 1` before the loop and one at `ell - 1` after each decrement, the last of
   * which wraps past 0.
   */
  method LevelsReadAsWritten(l: nat) returns (levels: seq<nat>)
    requires 1 <= l < SizeMax
    ensures |levels| == l + 1
    ensures forall t :: 0 <= t < l ==> levels[t] == l - 1 - t
    ensures levels[l] == SizeMax - 1 && levels[l] >= l
  {
    var ell := l;
    levels := [SizeSub(ell, 1)];
    while ell > 0
      invariant ell <= l && |levels| == l - ell + 1
      invariant forall t :: 0 <= t < |levels| ==> levels[t] == SizeSub(l - 1, t)
    {
      ell := ell - 1;
      levels := levels + [SizeSub(ell, 1)];
    }
  }
}
