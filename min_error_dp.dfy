/**
 * The minimum-error dynamic program that `Subcurve_Shortcut_Graph` (include/simplification.hpp)
 * and `Subcurve_Graph` (include/graph.hpp) share.
 *
 * A simplification of a curve of `n` points keeps `ll` of its vertices, the first and the
 * last among them; its error is the largest "edge" it uses, where `edges[k][j]` is the
 * Fréchet distance of the subcurve `k..j` to the segment between its end points.  The
 * Fréchet distance itself is an oracle here: `dist(k, j)` is the value the constructor
 * stores for `k < j`.
 *
 * `Dist(i, j)` is `distances[j][i]`: the least error of reaching vertex `j` from vertex 0
 * with `i + 1` edges; `Pred(i, j)` is `predecessors[j][i]`, the first vertex that attains it.
 */
module MinErrorDp {

  import opened ExtReals
  import opened Points

  /** `edges[i][j]`: the oracle distance for `i < j`; the constructor leaves the other entries infinite. */
  function Edge(dist: (nat, nat) -> real, i: nat, j: nat): ExtReal
  {
    if i < j then Fin(dist(i, j)) else Inf
  }

  /** `max(distances[k][i-1], edges[k][j])`: the error of reaching `j` at level `i` through `k`. */
  function Via(dist: (nat, nat) -> real, i: nat, j: nat, k: nat): ExtReal
    requires i >= 1
    decreases i, 0, 0
  {
    Max(Dist(dist, i - 1, k), Edge(dist, k, j))
  }

  /**
   * `distances[j][i]`: at level 0 the edge from vertex 0; above, the error through the
   * first best predecessor; vertex 0 is never filled in and stays infinite.
   */
  function Dist(dist: (nat, nat) -> real, i: nat, j: nat): ExtReal
    decreases i, 2, 0
  {
    if j == 0 then Inf
    else if i == 0 then Edge(dist, 0, j)
    else Via(dist, i, j, Best(dist, i, j, j))
  }

  /** `std::min_element` over `others[0..m)`: the first index of a smallest entry. */
  function Best(dist: (nat, nat) -> real, i: nat, j: nat, m: nat): (b: nat)
    requires i >= 1 && m >= 1
    ensures b < m
    decreases i, 1, m
  {
    if m == 1 then 0
    else
      var b := Best(dist, i, j, m - 1);
      if Via(dist, i, j, m - 1).Lt(Via(dist, i, j, b)) then m - 1 else b
  }

  /** `predecessors[j][i]`: 0 at level 0 and for vertex 0 (never written), otherwise the best `k < j`. */
  function Pred(dist: (nat, nat) -> real, i: nat, j: nat): nat
  {
    if i == 0 || j == 0 then 0 else Best(dist, i, j, j)
  }

  /**
   * The vertices the reconstruction walks through from vertex `j` at level `i`, in the
   * order it pushes them: `j`, its predecessor at level `i`, that one's predecessor at
   * level `i - 1`, ..., the predecessor at level 0.
   */
  function Walk(dist: (nat, nat) -> real, j: nat, i: nat): (w: seq<nat>)
    ensures |w| == i + 2 && w[0] == j
    decreases i
  {
    var k := Pred(dist, i, j);
    if i == 0 then [j, k] else [j] + Walk(dist, k, i - 1)
  }

  function Reverse<T>(s: seq<T>): (r: seq<T>)
    ensures |r| == |s|
    ensures forall t :: 0 <= t < |s| ==> r[t] == s[|s| - 1 - t]
  {
    if s == [] then [] else Reverse(s[1..]) + [s[0]]
  }

  /** The vertices of the simplification with `i + 2` points ending at vertex `j`, in curve order. */
  function Path(dist: (nat, nat) -> real, j: nat, i: nat): (p: seq<nat>)
    ensures |p| == i + 2
  {
    Reverse(Walk(dist, j, i))
  }

  /** The points of `curve` at the given vertices. */
  function Pick(curve: Curve, idx: seq<nat>): (r: Curve)
    requires forall t :: 0 <= t < |idx| ==> idx[t] < |curve|
    ensures |r| == |idx| && forall t :: 0 <= t < |idx| ==> r[t] == curve[idx[t]]
  {
    seq(|idx|, t requires 0 <= t < |idx| => curve[idx[t]])
  }

  /** The largest edge used by consecutive vertices of `q`. */
  function Bottleneck(dist: (nat, nat) -> real, q: seq<nat>): ExtReal
    requires |q| >= 2
  {
    if |q| == 2 then Edge(dist, q[0], q[1])
    else Max(Bottleneck(dist, q[..|q| - 1]), Edge(dist, q[|q| - 2], q[|q| - 1]))
  }

  /**
   * `weak_minimum_error_simplification(ll)`: the curve itself when `ll` is at least its
   * complexity, its two end points when `ll <= 2`, otherwise the points of `Path` with
   * `l = ll - 1` levels.
   */
  function Simplification(curve: Curve, dist: (nat, nat) -> real, ll: nat): Curve
  {
    if ll >= |curve| then curve
    else if ll <= 2 then [curve[0], curve[|curve| - 1]]
    else
      PathInRange(dist, |curve| - 1, ll - 2);
      Pick(curve, Path(dist, |curve| - 1, ll - 2))
  }

  // ---------------------------------------------------------------------------------
  // The recurrence.

  /** `Best` is the first index of a minimum, as `std::min_element` returns it. */
  lemma {:induction false} BestIsFirstArgmin(dist: (nat, nat) -> real, i: nat, j: nat, m: nat)
    requires i >= 1 && m >= 1
    ensures forall k :: 0 <= k < m ==> Via(dist, i, j, Best(dist, i, j, m)).Le(Via(dist, i, j, k))
    ensures forall k :: 0 <= k < Best(dist, i, j, m) ==> Via(dist, i, j, Best(dist, i, j, m)).Lt(Via(dist, i, j, k))
  {
    if m > 1 {
      BestIsFirstArgmin(dist, i, j, m - 1);
      var b := Best(dist, i, j, m - 1);
      forall k | 0 <= k < m
        ensures Via(dist, i, j, Best(dist, i, j, m)).Le(Via(dist, i, j, k))
      {
        LeTotal(Via(dist, i, j, m - 1), Via(dist, i, j, b));
        if k < m - 1 {
          LeTrans(Via(dist, i, j, Best(dist, i, j, m)), Via(dist, i, j, b), Via(dist, i, j, k));
        }
      }
    }
  }

  /** The first index of a minimum is unique: any index with that property is `Best`. */
  lemma FirstArgminUnique(dist: (nat, nat) -> real, i: nat, j: nat, m: nat, b: nat)
    requires i >= 1 && b < m
    requires forall k :: 0 <= k < m ==> Via(dist, i, j, b).Le(Via(dist, i, j, k))
    requires forall k :: 0 <= k < b ==> Via(dist, i, j, b).Lt(Via(dist, i, j, k))
    ensures b == Best(dist, i, j, m)
  {
    BestIsFirstArgmin(dist, i, j, m);
    var c := Best(dist, i, j, m);
    LeTotal(Via(dist, i, j, b), Via(dist, i, j, c));
  }

  /**
   * Above level 0, `distances[j][i]` is `min over k < j of max(distances[k][i-1], edges[k][j])`,
   * attained at its predecessor, which lies before `j`.
   */
  lemma DistIsMinimum(dist: (nat, nat) -> real, i: nat, j: nat)
    requires i >= 1 && j >= 1
    ensures Pred(dist, i, j) < j && Dist(dist, i, j) == Via(dist, i, j, Pred(dist, i, j))
    ensures forall k :: 0 <= k < j ==> Dist(dist, i, j).Le(Via(dist, i, j, k))
  {
    BestIsFirstArgmin(dist, i, j, j);
  }

  /** With every edge `i < j` finite, vertex `j` is reachable with `i + 1` edges exactly when `j > i`. */
  lemma {:induction false} DistFiniteIff(dist: (nat, nat) -> real, i: nat, j: nat)
    ensures Dist(dist, i, j).Fin? <==> j >= i + 1
  {
    if i >= 1 && j >= 1 {
      DistIsMinimum(dist, i, j);
      forall k | 0 <= k < j
        ensures Via(dist, i, j, k).Fin? <==> k >= i
      {
        DistFiniteIff(dist, i - 1, k);
        MaxIsLub(Dist(dist, i - 1, k), Edge(dist, k, j), Inf);
      }
      if j >= i + 1 {
        assert Dist(dist, i, j).Le(Via(dist, i, j, i));
      }
    }
  }

  // ---------------------------------------------------------------------------------
  // The reconstruction.

  /** Every vertex of the walk from `j` is at most `j`: predecessors lie before their vertex. */
  lemma {:induction false} WalkBounded(dist: (nat, nat) -> real, j: nat, i: nat)
    ensures forall t :: 0 <= t < |Walk(dist, j, i)| ==> Walk(dist, j, i)[t] <= j
    ensures Walk(dist, j, i)[i + 1] == 0
  {
    var k := Pred(dist, i, j);
    if j >= 1 && i >= 1 {
      DistIsMinimum(dist, i, j);
    }
    if i > 0 {
      WalkBounded(dist, k, i - 1);
    }
  }

  /** The vertices of `Path` are vertices of a curve with more than `j` points. */
  lemma {:induction false} PathInRange(dist: (nat, nat) -> real, j: nat, i: nat)
    ensures forall t :: 0 <= t < |Path(dist, j, i)| ==> Path(dist, j, i)[t] <= j
  {
    WalkBounded(dist, j, i);
  }

  /**
   * From a reachable vertex the walk descends strictly to vertex 0: the simplification's
   * vertices are distinct and in curve order.
   */
  lemma {:induction false} WalkDescends(dist: (nat, nat) -> real, j: nat, i: nat)
    requires j >= i + 1
    ensures forall t :: 0 <= t < i + 1 ==> Walk(dist, j, i)[t + 1] < Walk(dist, j, i)[t]
    ensures Walk(dist, j, i)[i + 1] == 0
  {
    WalkBounded(dist, j, i);
    if i > 0 {
      var k := Pred(dist, i, j);
      DistIsMinimum(dist, i, j);
      DistFiniteIff(dist, i, j);
      MaxIsLub(Dist(dist, i - 1, k), Edge(dist, k, j), Inf);
      DistFiniteIff(dist, i - 1, k);
      WalkDescends(dist, k, i - 1);
    }
  }

  /** Each step of a walk follows the predecessor recorded one level down. */
  lemma {:induction false} WalkStep(dist: (nat, nat) -> real, j: nat, i: nat, s: nat)
    requires s <= i
    ensures Walk(dist, j, i)[s + 1] == Pred(dist, i - s, Walk(dist, j, i)[s])
  {
    if i > 0 && s > 0 {
      WalkStep(dist, Pred(dist, i, j), i - 1, s - 1);
    }
  }

  /** Picking the vertices of a reversed index sequence is reversing the picked vertices. */
  lemma {:induction false} ReversePick(curve: Curve, idx: seq<nat>)
    requires forall t :: 0 <= t < |idx| ==> idx[t] < |curve|
    ensures Reverse(Pick(curve, idx)) == Pick(curve, Reverse(idx))
  {
    var a, b := Reverse(Pick(curve, idx)), Pick(curve, Reverse(idx));
    forall t | 0 <= t < |a|
      ensures a[t] == b[t]
    {
      assert a[t] == Pick(curve, idx)[|idx| - 1 - t];
      assert Reverse(idx)[t] == idx[|idx| - 1 - t];
    }
  }

  lemma {:induction false} ReverseInvolution<T>(s: seq<T>)
    ensures Reverse(Reverse(s)) == s
  {
    var r := Reverse(Reverse(s));
    forall t | 0 <= t < |s|
      ensures r[t] == s[t]
    {
      assert r[t] == Reverse(s)[|s| - 1 - t];
    }
  }

  /** Reversing `[x] + s` puts `x` last. */
  lemma {:induction false} ReverseCons<T>(x: T, s: seq<T>)
    ensures Reverse([x] + s) == Reverse(s) + [x]
  {
    assert ([x] + s)[1..] == s;
  }

  /** The bottleneck of a path extended by one vertex. */
  lemma {:induction false} BottleneckSnoc(dist: (nat, nat) -> real, q: seq<nat>, x: nat)
    requires |q| >= 2
    ensures Bottleneck(dist, q + [x]) == Max(Bottleneck(dist, q), Edge(dist, q[|q| - 1], x))
  {
    assert (q + [x])[..|q|] == q;
  }

  /** The error `distances[j][i]` is the largest edge on the reconstructed path. */
  lemma {:induction false} DistIsAttained(dist: (nat, nat) -> real, j: nat, i: nat)
    ensures Path(dist, j, i)[0] == 0 && Path(dist, j, i)[i + 1] == j
    ensures Dist(dist, i, j) == Bottleneck(dist, Path(dist, j, i))
  {
    if i == 0 {
      assert Walk(dist, j, 0) == [j, 0];
      assert Path(dist, j, 0) == [0, j];
    } else {
      DistIsAttained(dist, Pred(dist, i, j), i - 1);
      AttainedStep(dist, j, i, Pred(dist, i, j));
    }
  }

  /** One level of `DistIsAttained`: the path to `j` is the path to its predecessor `k`, then `j`. */
  lemma {:induction false} AttainedStep(dist: (nat, nat) -> real, j: nat, i: nat, k: nat)
    requires i >= 1 && k == Pred(dist, i, j)
    requires Path(dist, k, i - 1)[0] == 0
    requires Dist(dist, i - 1, k) == Bottleneck(dist, Path(dist, k, i - 1))
    ensures Path(dist, j, i)[0] == 0 && Path(dist, j, i)[i + 1] == j
    ensures Dist(dist, i, j) == Bottleneck(dist, Path(dist, j, i))
  {
    ReverseCons(j, Walk(dist, k, i - 1));
    assert Path(dist, j, i) == Path(dist, k, i - 1) + [j];
    assert Path(dist, k, i - 1)[i] == k;
    BottleneckSnoc(dist, Path(dist, k, i - 1), j);
    if j >= 1 {
      DistIsMinimum(dist, i, j);
    } else {
      MaxIsLub(Bottleneck(dist, Path(dist, k, i - 1)), Inf, Inf);
    }
  }

  /**
   * No path of `i + 2` vertices from vertex 0 to vertex `j` has a smaller largest edge than
   * `distances[j][i]`: the dynamic program finds the minimum error.
   */
  lemma {:induction false} DistIsOptimal(dist: (nat, nat) -> real, i: nat, j: nat, q: seq<nat>)
    requires |q| == i + 2 && q[0] == 0 && q[i + 1] == j
    ensures Dist(dist, i, j).Le(Bottleneck(dist, q))
  {
    if i > 0 {
      var q' := q[..i + 1];
      var k := q[i];
      DistIsOptimal(dist, i - 1, k, q');
      assert Bottleneck(dist, q) == Max(Bottleneck(dist, q'), Edge(dist, k, j));
      if k < j {
        DistIsMinimum(dist, i, j);
        MaxMonotone(Dist(dist, i - 1, k), Edge(dist, k, j), Bottleneck(dist, q'), Edge(dist, k, j));
        LeTrans(Dist(dist, i, j), Via(dist, i, j, k), Bottleneck(dist, q));
      } else {
        MaxIsLub(Bottleneck(dist, q'), Inf, Inf);
      }
    }
  }

  /**
   * For `2 < ll < complexity` the simplification has exactly `ll` points, starts with the
   * curve's first point and ends with its last one, visits vertices in strictly increasing
   * order, and no other choice of `ll` vertices from the first to the last has a smaller
   * error.
   */
  lemma {:induction false} SimplificationIsMinimumError(curve: Curve, dist: (nat, nat) -> real, ll: nat, q: seq<nat>)
    requires 2 < ll < |curve|
    requires |q| == ll && q[0] == 0 && q[ll - 1] == |curve| - 1
    ensures var p := Path(dist, |curve| - 1, ll - 2);
      |Simplification(curve, dist, ll)| == ll &&
      Simplification(curve, dist, ll)[0] == curve[0] &&
      Simplification(curve, dist, ll)[ll - 1] == curve[|curve| - 1] &&
      Ascending(p) &&
      Bottleneck(dist, p).Le(Bottleneck(dist, q))
  {
    var n, i := |curve|, ll - 2;
    PathAscends(dist, n - 1, i);
    DistIsAttained(dist, n - 1, i);
    SimplificationEnds(curve, dist, ll);
    DistIsOptimal(dist, i, n - 1, q);
  }

  /** Each vertex comes strictly after the one before it. */
  ghost predicate Ascending(p: seq<nat>)
  {
    forall t :: 0 <= t < |p| - 1 ==> p[t] < p[t + 1]
  }

  /** The reconstructed path visits vertices in strictly increasing order. */
  lemma {:induction false} PathAscends(dist: (nat, nat) -> real, j: nat, i: nat)
    requires j >= i + 1
    ensures Ascending(Path(dist, j, i))
  {
    var w, p := Walk(dist, j, i), Path(dist, j, i);
    WalkDescends(dist, j, i);
    forall t | 0 <= t < i + 1
      ensures p[t] < p[t + 1]
    {
      assert p[t] == w[i + 1 - t] && p[t + 1] == w[i - t];
    }
  }

  /** The simplification has `ll` points, from the curve's first point to its last. */
  lemma {:induction false} SimplificationEnds(curve: Curve, dist: (nat, nat) -> real, ll: nat)
    requires 2 < ll < |curve|
    requires Path(dist, |curve| - 1, ll - 2)[0] == 0 && Path(dist, |curve| - 1, ll - 2)[ll - 1] == |curve| - 1
    ensures |Simplification(curve, dist, ll)| == ll
    ensures Simplification(curve, dist, ll)[0] == curve[0] && Simplification(curve, dist, ll)[ll - 1] == curve[|curve| - 1]
  {
    PathInRange(dist, |curve| - 1, ll - 2);
  }

  /**
   * A table of predecessors holding `Pred` lets the backwards walk be read off it: each
   * vertex of the walk is the recorded predecessor of the one before, one level down.
   */
  lemma {:induction false} WalkFollowsTable(dist: (nat, nat) -> real, predecessors: array2<nat>, l: nat, w: seq<nat>)
    requires 1 <= l && predecessors.Length0 >= 1 && predecessors.Length1 == l
    requires forall x, y :: 0 <= x < predecessors.Length0 && 0 <= y < l ==> predecessors[x, y] == Pred(dist, y, x)
    requires w == Walk(dist, predecessors.Length0 - 1, l - 1)
    ensures |w| == l + 1 && w[0] == predecessors.Length0 - 1
    ensures forall t :: 0 <= t < |w| ==> w[t] < predecessors.Length0
    ensures forall s :: 0 <= s < l ==> predecessors[w[s], l - 1 - s] == w[s + 1]
  {
    WalkBounded(dist, predecessors.Length0 - 1, l - 1);
    forall s | 0 <= s < l
      ensures predecessors[w[s], l - 1 - s] == w[s + 1]
    {
      WalkStep(dist, predecessors.Length0 - 1, l - 1, s);
    }
  }

  /** The vertices of the backwards walk, in walk order, are the simplification reversed. */
  lemma {:induction false} CollectedIsReversed(curve: Curve, dist: (nat, nat) -> real, ll: nat, w: seq<nat>, points: Curve)
    requires 2 < ll < |curve| && w == Walk(dist, |curve| - 1, ll - 2)
    requires |points| == |w| && forall t :: 0 <= t < |w| ==> w[t] < |curve| && points[t] == curve[w[t]]
    ensures points == Reverse(Simplification(curve, dist, ll))
  {
    var pick := Pick(curve, w);
    assert points == pick;
    assert Simplification(curve, dist, ll) == Pick(curve, Reverse(w));
    ReversePick(curve, w);
    ReverseInvolution(pick);
  }

  // ---------------------------------------------------------------------------------
  // The table-filling loops both classes run.

  /** The edge table holds `Edge` for every pair of vertices. */
  ghost predicate EdgesHold(dist: (nat, nat) -> real, edges: array2<ExtReal>, n: nat)
    reads edges
  {
    edges.Length0 == n && edges.Length1 == n &&
    forall x, y :: 0 <= x < n && 0 <= y < n ==> edges[x, y] == Edge(dist, x, y)
  }

  /** `e` holds `Edge` in the rows before `i` and in row `i` before column `j`, and `Inf` elsewhere. */
  ghost predicate EdgesFilled(dist: (nat, nat) -> real, e: array2<ExtReal>, i: nat, j: nat)
    reads e
  {
    forall x, y :: 0 <= x < e.Length0 && 0 <= y < e.Length1 ==>
      e[x, y] == if x < i || (x == i && y < j) then Edge(dist, x, y) else Inf
  }

  /** `distances[x][y]` holds `Dist(y, x)` for the cells filled before `(i, j)`, and `Inf` elsewhere. */
  ghost predicate DistancesFilled(dist: (nat, nat) -> real, distances: array2<ExtReal>, i: nat, j: nat)
    reads distances
  {
    forall x, y :: 0 <= x < distances.Length0 && 0 <= y < distances.Length1 ==>
      distances[x, y] == if y < i || (y == i && x < j) then Dist(dist, y, x) else Inf
  }

  /** `predecessors[x][y]` holds `Pred(y, x)` for the cells filled before `(i, j)`, and 0 elsewhere. */
  ghost predicate PredecessorsFilled(dist: (nat, nat) -> real, predecessors: array2<nat>, i: nat, j: nat)
    reads predecessors
  {
    forall x, y :: 0 <= x < predecessors.Length0 && 0 <= y < predecessors.Length1 ==>
      predecessors[x, y] == if y < i || (y == i && x < j) then Pred(dist, y, x) else 0
  }

  /**
   * The loops of `weak_minimum_error_simplification` that fill `distances` and
   * `predecessors` (`n` rows of `l` levels) from the edge table: level 0 copies the edges
   * out of vertex 0, every higher level takes the first best predecessor.  `edgeFirst`
   * selects the argument order of `std::max`, which the two classes write differently.
   */
  method FillTables(ghost dist: (nat, nat) -> real, edges: array2<ExtReal>, n: nat, l: nat, edgeFirst: bool)
    returns (distances: array2<ExtReal>, predecessors: array2<nat>)
    requires EdgesHold(dist, edges, n)
    ensures fresh(distances) && fresh(predecessors)
    ensures distances.Length0 == n && distances.Length1 == l
    ensures predecessors.Length0 == n && predecessors.Length1 == l
    ensures forall x, y :: 0 <= x < n && 0 <= y < l ==>
      distances[x, y] == Dist(dist, y, x) && predecessors[x, y] == Pred(dist, y, x)
  {
    distances := new ExtReal[n, l]((x, y) => Inf);
    predecessors := new nat[n, l]((x, y) => 0);
    var i := 0;
    while i < l
      invariant i <= l
      invariant DistancesFilled(dist, distances, i, 0) && PredecessorsFilled(dist, predecessors, i, 0)
    {
      if i == 0 {
        var j := 1;
        while j < n
          invariant 1 <= j && (j <= n || n == 0)
          invariant DistancesFilled(dist, distances, 0, j) && PredecessorsFilled(dist, predecessors, 0, j)
        {
          distances[j, 0] := edges[0, j];
          predecessors[j, 0] := 0;
          j := j + 1;
        }
      } else {
        var j := 1;
        while j < n
          invariant 1 <= j && (j <= n || n == 0)
          invariant DistancesFilled(dist, distances, i, j) && PredecessorsFilled(dist, predecessors, i, j)
        {
          FillCell(dist, edges, distances, predecessors, i, j, edgeFirst);
          j := j + 1;
        }
      }
      i := i + 1;
    }
  }

  /**
   * One cell above level 0: `others[k] = max(distances[k][i-1], edges[k][j])` for `k < j`
   * (or `max(edges[k][j], distances[k][i-1])`), then the first minimum of `others` and its index.
   */
  method FillCell(ghost dist: (nat, nat) -> real, edges: array2<ExtReal>,
                  distances: array2<ExtReal>, predecessors: array2<nat>, i: nat, j: nat, edgeFirst: bool)
    requires EdgesHold(dist, edges, distances.Length0) && edges != distances
    requires predecessors.Length0 == distances.Length0 && predecessors.Length1 == distances.Length1
    requires 1 <= i < distances.Length1 && 1 <= j < distances.Length0
    requires DistancesFilled(dist, distances, i, j) && PredecessorsFilled(dist, predecessors, i, j)
    modifies distances, predecessors
    ensures DistancesFilled(dist, distances, i, j + 1) && PredecessorsFilled(dist, predecessors, i, j + 1)
  {
    var others: seq<ExtReal> := [];
    var k := 0;
    while k < j
      invariant k <= j && |others| == k
      invariant forall t :: 0 <= t < k ==> others[t] == Via(dist, i, j, t)
    {
      assert distances[k, i - 1] == Dist(dist, i - 1, k);
      var other := if edgeFirst then Max(edges[k, j], distances[k, i - 1]) else Max(distances[k, i - 1], edges[k, j]);
      others := others + [other];
      k := k + 1;
    }
    var best := MinElement(others);
    FirstArgminUnique(dist, i, j, j, best);
    distances[j, i] := others[best];
    predecessors[j, i] := best;
  }

  /** `std::min_element`: the index of the first smallest entry of a non-empty sequence. */
  method MinElement(s: seq<ExtReal>) returns (b: nat)
    requires |s| >= 1
    ensures b < |s|
    ensures forall k :: 0 <= k < |s| ==> s[b].Le(s[k])
    ensures forall k :: 0 <= k < b ==> s[b].Lt(s[k])
  {
    b := 0;
    var t := 1;
    while t < |s|
      invariant 1 <= t <= |s| && b < t
      invariant forall k :: 0 <= k < t ==> s[b].Le(s[k])
      invariant forall k :: 0 <= k < b ==> s[b].Lt(s[k])
    {
      if s[t].Lt(s[b]) {
        b := t;
      }
      t := t + 1;
    }
  }
}
