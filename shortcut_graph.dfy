/**
 * `Simplification::Subcurve_Shortcut_Graph`: the complete graph on the vertices of a
 * curve whose edge `(i, j)`, `i < j`, weighs the Fréchet distance between the subcurve
 * from vertex `i` to vertex `j` and the segment joining its ends.  Its one query finds,
 * by dynamic programming over the number of edges, a path from the first to the last
 * vertex with `ll` vertices whose heaviest edge is as light as possible.
 */
module ShortcutGraph {

  import opened ExtReals
  import opened Arith
  import opened Points
  import opened MinErrorDp

  class SubcurveShortcutGraph {

    /** The curve the graph is built over. */
    const curve: Curve
    /** The edge weights the constructor computes, as a function of the two vertex indices. */
    ghost const dist: (nat, nat) -> real
    /** `edges[i][j]`: the weight of shortcut `(i, j)` for `i < j`, infinite otherwise. */
    const edges: array2<ExtReal>

    ghost predicate Valid()
      reads edges
    {
      |curve| >= 1 && EdgesHold(dist, edges, |curve|)
    }

    /**
     * Fills the edge table row by row; `shortcut(i, j)` stands for the Fréchet distance
     * between `curve[i..j]` and the segment `curve[i] curve[j]`.
     */
    constructor (curve: Curve, shortcut: (nat, nat) -> real)
      requires |curve| >= 1
      ensures this.curve == curve && dist == shortcut
      ensures Valid()
    {
      var n := |curve|;
      var e := new ExtReal[n, n]((x, y) => Inf);
      var i := 0;
      while i < n - 1
        invariant i <= n - 1
        invariant EdgesFilled(shortcut, e, i, i + 1)
      {
        var j := i + 1;
        while j < n
          invariant i + 1 <= j <= n
          invariant EdgesFilled(shortcut, e, i, j)
        {
          e[i, j] := Fin(shortcut(i, j));
          j := j + 1;
        }
        i := i + 1;
      }
      this.curve := curve;
      dist := shortcut;
      edges := e;
    }

    /**
     * A simplification of `curve` with `ll` vertices, all taken from `curve`, that keeps
     * both ends and minimises the largest shortcut weight; the curve itself when `ll` is
     * at least its length, and the two end points when `ll <= 2`.
     */
    method WeakMinimumErrorSimplification(ll: nat) returns (result: Curve)
      requires Valid()
      ensures result == Simplification(curve, dist, ll)
    {
      var n := |curve|;
      if ll >= n {
        return curve;
      }
      if ll <= 2 {
        return [curve[0], curve[n - 1]];
      }
      var l := ll - 1;
      var distances, predecessors := FillTables(dist, edges, n, l, false);
      var points := Backtrack(curve, dist, predecessors, l);
      result := Reverse(points);
      ReverseInvolution(Simplification(curve, dist, ll));
    }
  }

  /**
   * The reconstruction loop: from the last vertex, follow the recorded predecessors down
   * the levels, collecting the vertices back to front.  The source decrements `ell` once
   * more and reads one more predecessor after the last vertex is collected; that read is
   * out of range (see `LevelsReadAsWritten`) and its value unused, so it is not performed.
   */
  method Backtrack(curve: Curve, ghost dist: (nat, nat) -> real, predecessors: array2<nat>, l: nat)
    returns (points: Curve)
    requires 2 <= l && l + 1 < |curve|
    requires predecessors.Length0 == |curve| && predecessors.Length1 == l
    requires forall x, y :: 0 <= x < |curve| && 0 <= y < l ==> predecessors[x, y] == Pred(dist, y, x)
    ensures points == Reverse(Simplification(curve, dist, l + 1))
  {
    var n := |curve|;
    ghost var w := Walk(dist, n - 1, l - 1);
    WalkFollowsTable(dist, predecessors, l, w);
    var ell := l - 1;
    points := [curve[n - 1]];
    var predecessor := predecessors[n - 1, ell];
    var i := 0;
    while i < l
      invariant i <= l && ell == if i < l then l - 1 - i else 0
      invariant |points| == i + 1
      invariant forall t :: 0 <= t <= i ==> points[t] == curve[w[t]]
      invariant i < l ==> predecessor == w[i + 1]
    {
      points := points + [curve[predecessor]];
      if ell > 0 {
        ell := ell - 1;
        predecessor := predecessors[predecessor, ell];
      }
      i := i + 1;
    }
    CollectedIsReversed(curve, dist, l + 1, w, points);
  }

  /**
   * The levels of `predecessors` the reconstruction reads, with `ell` a `size_t` that is
   * decremented before each read: the last read happens after `ell` has wrapped past 0.
   */
  method LevelsReadAsWritten(l: nat) returns (levels: seq<nat>)
    requires 1 <= l < SizeMax
    ensures |levels| == l + 1
    ensures forall t :: 0 <= t < l ==> levels[t] == l - 1 - t
    ensures levels[l] == SizeMax - 1 && levels[l] >= l
  {
    var ell := l;
    ell := SizeSub(ell, 1);
    levels := [ell];
    var i := 0;
    while i < l
      invariant i <= l && |levels| == i + 1
      invariant forall t :: 0 <= t <= i ==> levels[t] == SizeSub(l - 1, t)
      invariant ell == levels[i]
    {
      ell := SizeSub(ell, 1);
      levels := levels + [ell];
      i := i + 1;
    }
  }
}
