/**
 * `Fred/hd_fs.py`: whether a curve exists that visits, in order, points within the given
 * radii of all input curves at once.  The free space of the `l` curves is a lattice of
 * cells indexed by one segment per curve (`alpha`); a cell border is crossed at a point
 * found by a second-order cone program.  The search collects feasible borders by
 * depth-first exploration, sorts them by their lattice key and chains them backwards
 * from the end point to the start point.
 *
 * Oracle: `conelp`, the cone-program solver, maps a program to a status and a witness,
 * or raises.  The model builds the programs exactly and leaves solving to the oracle.
 */
module CellBorders {

  import opened Wrappers
  import opened Points
  import opened Arith

  /** A cone program `min c x` subject to `G x + s = h`, `s` in `linear` half-lines and second-order cones of the given sizes. */
  datatype ConeProgram = ConeProgram(c: seq<real>, G: seq<seq<real>>, h: seq<real>, linear: nat, cones: seq<nat>)

  /** What the solver does with a program: it raises, or returns its status and perhaps a witness. */
  datatype SolverResult = Raised | Returned(optimal: bool, x: Option<seq<real>>)

  /** `_intersection_point`: the solver raised (the exception propagates), or the status and the witness. */
  datatype PointResult = PointFailed | PointDone(optimal: bool, x: Option<seq<real>>)

  /** `_cellborder`: a failure, or the status and perhaps the border's lattice offsets `y` and its point. */
  datatype CellResult = CellFailed | CellDone(optimal: bool, border: Option<(seq<real>, Coords)>)

  /** A collected border: its lattice key and the point where the curve crosses it. */
  datatype Border = Border(key: seq<real>, point: Coords)

  /** The answer of `curve_within_radii`: `(False,)`, `(True, curve)`, or an exception. */
  datatype Outcome = Infeasible | Found(curve: seq<Coords>) | Failed

  /** The line of curve `i` in a cell program: a fixed point (curve `j`) or a segment `base - t * dir`. */
  datatype Line = Fixed(point: Coords) | Free(dir: Coords, base: Coords)

  function Zs(n: nat): (r: seq<real>)
    ensures |r| == n && forall k :: 0 <= k < n ==> r[k] == 0.0
  {
    seq(n, k => 0.0)
  }

  function Ones(n: nat): (r: seq<real>)
    ensures |r| == n && forall k :: 0 <= k < n ==> r[k] == 1.0
  {
    seq(n, k => 1.0)
  }

  function Filled(n: nat, v: nat): (r: seq<nat>)
    ensures |r| == n && forall k :: 0 <= k < n ==> r[k] == v
  {
    seq(n, k => v)
  }

  /** `k * [0.] + [v] + (n - k - 1) * [0.]` */
  function Unit(n: nat, k: nat, v: real): (r: seq<real>)
    requires k < n
    ensures |r| == n && forall q :: 0 <= q < n ==> r[q] == if q == k then v else 0.0
  {
    Zs(k) + [v] + Zs(n - k - 1)
  }

  function Neg(p: Coords): (r: Coords)
    ensures |r| == |p| && forall k :: 0 <= k < |p| ==> r[k] == -p[k]
  {
    seq(|p|, k requires 0 <= k < |p| => -p[k])
  }

  /** The point at parameter `v` on the segment from `p` to `q`: `(1 - v) * p + v * q`. */
  function Lerp(p: Coords, q: Coords, v: real): (r: Coords)
    requires |q| >= |p|
    ensures |r| == |p| && forall k :: 0 <= k < |p| ==> r[k] == (1.0 - v) * p[k] + v * q[k]
  {
    seq(|p|, k requires 0 <= k < |p| => (1.0 - v) * p[k] + v * q[k])
  }

  /** Python list concatenation of the blocks, in order. */
  function Flatten(bs: seq<seq<real>>): seq<real>
  {
    if |bs| == 0 then [] else Flatten(bs[..|bs| - 1]) + bs[|bs| - 1]
  }

  /** Flattening one more block appends it. */
  lemma FlattenPrefix(bs: seq<seq<real>>, i: nat)
    requires i < |bs|
    ensures Flatten(bs[..i + 1]) == Flatten(bs[..i]) + bs[i]
  {
    assert bs[..i + 1][..i] == bs[..i];
  }

  /** Blocks of one width `w` flatten to `|bs| * w` entries. */
  lemma {:induction false} FlattenLength(bs: seq<seq<real>>, w: nat)
    requires forall q :: 0 <= q < |bs| ==> |bs[q]| == w
    ensures |Flatten(bs)| == |bs| * w
  {
    if |bs| > 0 {
      FlattenLength(bs[..|bs| - 1], w);
      MulSucc(w, |bs| - 1);
    }
  }

  /** The input is `l >= 1` curves of at least two points each, every point of the first curve's dimension. */
  ghost predicate WellFormed(T: seq<Curve>)
  {
    |T| >= 1 && (forall i :: 0 <= i < |T| ==> |T[i]| >= 2) &&
    forall i, p :: 0 <= i < |T| && 0 <= p < |T[i]| ==> |T[i][p]| == |T[0][0]|
  }

  /** `T[0].dimensions` */
  function Dim(T: seq<Curve>): nat
    requires |T| >= 1 && |T[0]| >= 1
  {
    |T[0][0]|
  }

  /** A lattice position: one segment `alpha[i] - 1 .. alpha[i]` of every curve. */
  ghost predicate Valid(T: seq<Curve>, alpha: seq<nat>)
  {
    |alpha| == |T| && forall i :: 0 <= i < |T| ==> 1 <= alpha[i] < |T[i]|
  }

  /** The segment `alpha[i] - 1 .. alpha[i]` of curve `i` is well inside the curve. */
  lemma SegmentPoints(T: seq<Curve>, alpha: seq<nat>, i: nat)
    requires WellFormed(T) && Valid(T, alpha) && i < |T|
    ensures |T[i][alpha[i] - 1]| == Dim(T) && |T[i][alpha[i]]| == Dim(T)
  {
  }

  // ---------------------------------------------------------------------------
  // `_intersection_point`
  // ---------------------------------------------------------------------------

  /** The points on every curve's segment at the given parameters. */
  function IntersectionLines(T: seq<Curve>, alpha: seq<nat>, values: seq<real>): (lines: seq<Coords>)
    requires WellFormed(T) && Valid(T, alpha) && |values| == |T|
    ensures |lines| == |T| && forall i :: 0 <= i < |T| ==> |lines[i]| == Dim(T)
  {
    seq(|T|, i requires 0 <= i < |T| =>
      SegmentPoints(T, alpha, i);
      Lerp(T[i][alpha[i] - 1], T[i][alpha[i]], values[i]))
  }

  /** `len(T) * ([0.] + k * [0.] + [-1] + (d - k - 1) * [0.])`: coordinate `k` of the point, once per cone. */
  function PointColumn(l: nat, d: nat, k: nat): seq<real>
    requires k < d
  {
    Flatten(seq(l, q => Unit(d + 1, k + 1, -1.0)))
  }

  /** The cone rows of `h`: for each curve its radius, then the negated center. */
  function ConeRows(radii: seq<real>, centers: seq<Coords>): seq<real>
    requires |radii| >= |centers|
  {
    Flatten(seq(|centers|, i requires 0 <= i < |centers| => [radii[i]] + Neg(centers[i])))
  }

  /** The program `_intersection_point` hands the solver: a point within `radii[i]` of every line point. */
  function IntersectionProgram(T: seq<Curve>, radii: seq<real>, alpha: seq<nat>, values: seq<real>): ConeProgram
    requires WellFormed(T) && Valid(T, alpha) && |values| == |T| && |radii| >= |T|
  {
    var d := Dim(T);
    ConeProgram(Zs(d), seq(d, k requires 0 <= k < d => PointColumn(|T|, d, k)),
                ConeRows(radii, IntersectionLines(T, alpha, values)), 0, Filled(|T|, 1 + d))
  }

  lemma PointColumnLength(l: nat, d: nat, k: nat)
    requires k < d
    ensures |PointColumn(l, d, k)| == l * (d + 1)
  {
    FlattenLength(seq(l, q => Unit(d + 1, k + 1, -1.0)), d + 1);
  }

  lemma ConeRowsLength(radii: seq<real>, centers: seq<Coords>, d: nat)
    requires |radii| >= |centers| && forall i :: 0 <= i < |centers| ==> |centers[i]| == d
    ensures |ConeRows(radii, centers)| == |centers| * (d + 1)
  {
    FlattenLength(seq(|centers|, i requires 0 <= i < |centers| => [radii[i]] + Neg(centers[i])), d + 1);
  }

  /**
   * The shape of `_intersection_point`'s program: `c` has `d` entries, `G` has `d`
   * columns, `h` and every column have `l(d + 1)` rows (one cone of `1 + d` rows per
   * curve: the radius, then the point minus the curve's line point), and `dims` is no
   * half-lines and `l` cones of `1 + d` rows.
   */
  lemma IntersectionProgramShape(T: seq<Curve>, radii: seq<real>, alpha: seq<nat>, values: seq<real>)
    requires WellFormed(T) && Valid(T, alpha) && |values| == |T| && |radii| >= |T|
    ensures var P := IntersectionProgram(T, radii, alpha, values);
      |P.c| == Dim(T) && |P.G| == Dim(T) && P.linear == 0 && P.cones == Filled(|T|, 1 + Dim(T)) &&
      |P.h| == |T| * (Dim(T) + 1) && forall k :: 0 <= k < Dim(T) ==> |P.G[k]| == |T| * (Dim(T) + 1)
  {
    var d := Dim(T);
    ConeRowsLength(radii, IntersectionLines(T, alpha, values), d);
    forall k | 0 <= k < d
      ensures |PointColumn(|T|, d, k)| == |T| * (d + 1)
    {
      PointColumnLength(|T|, d, k);
    }
  }

  /** The `lines` loop of `_intersection_point`: the point on every curve's segment at its parameter. */
  method BuildIntersectionLines(T: seq<Curve>, alpha: seq<nat>, values: seq<real>) returns (lines: seq<Coords>)
    requires WellFormed(T) && Valid(T, alpha) && |values| == |T|
    ensures lines == IntersectionLines(T, alpha, values)
  {
    ghost var target := IntersectionLines(T, alpha, values);
    lines := [];
    var i := 0;
    while i < |T|
      invariant i <= |T| && lines == target[..i]
    {
      SegmentPoints(T, alpha, i);
      lines := lines + [Lerp(T[i][alpha[i] - 1], T[i][alpha[i]], values[i])];
      i := i + 1;
    }
  }

  /** The loop appending the `d` point columns. */
  method BuildPointColumns(l: nat, d: nat) returns (G: seq<seq<real>>)
    ensures G == seq(d, k requires 0 <= k < d => PointColumn(l, d, k))
  {
    G := [];
    var k := 0;
    while k < d
      invariant k <= d && G == seq(k, q requires 0 <= q < k => PointColumn(l, d, q))
    {
      G := G + [PointColumn(l, d, k)];
      k := k + 1;
    }
  }

  /** The loop `h += [radii[i]] + [-c for c in center_i]`. */
  method BuildConeRows(radii: seq<real>, centers: seq<Coords>) returns (h: seq<real>)
    requires |radii| >= |centers|
    ensures h == ConeRows(radii, centers)
  {
    ghost var blocks := seq(|centers|, q requires 0 <= q < |centers| => [radii[q]] + Neg(centers[q]));
    h := [];
    var i := 0;
    while i < |centers|
      invariant i <= |centers| && h == Flatten(blocks[..i])
    {
      assert blocks[..i + 1][..i] == blocks[..i];
      h := h + [radii[i]] + Neg(centers[i]);
      i := i + 1;
    }
    assert blocks[..|centers|] == blocks;
  }

  /** The loops of `_intersection_point` that assemble `lines`, `G` and `h`. */
  method BuildIntersectionProgram(T: seq<Curve>, radii: seq<real>, alpha: seq<nat>, values: seq<real>)
    returns (P: ConeProgram)
    requires WellFormed(T) && Valid(T, alpha) && |values| == |T| && |radii| >= |T|
    ensures P == IntersectionProgram(T, radii, alpha, values)
  {
    var l, d := |T|, |T[0][0]|;
    var lines := BuildIntersectionLines(T, alpha, values);
    var G := BuildPointColumns(l, d);
    var h := BuildConeRows(radii, lines);
    P := ConeProgram(Zs(d), G, h, 0, Filled(l, 1 + d));
  }

  /** The solver's answer for `_intersection_point`: an exception propagates, otherwise status and witness. */
  function PointOutcome(sol: SolverResult): PointResult
  {
    match sol
    case Raised => PointFailed
    case Returned(optimal, x) => PointDone(optimal, x)
  }

  /** `_intersection_point`: builds the program and reports the solver's status and witness. */
  method IntersectionPoint(T: seq<Curve>, radii: seq<real>, alpha: seq<nat>, values: seq<real>,
                           conelp: ConeProgram -> SolverResult)
    returns (r: PointResult)
    requires WellFormed(T) && Valid(T, alpha) && |values| == |T| && |radii| >= |T|
    ensures r == PointOutcome(conelp(IntersectionProgram(T, radii, alpha, values)))
    ensures r.PointDone? <==> !conelp(IntersectionProgram(T, radii, alpha, values)).Raised?
  {
    var P := BuildIntersectionProgram(T, radii, alpha, values);
    var sol := conelp(P);
    if sol.Raised? {
      return PointFailed;
    }
    r := PointDone(sol.optimal, sol.x);
  }

  // ---------------------------------------------------------------------------
  // `_cellborder`
  // ---------------------------------------------------------------------------

  /** The lines of a cell program: curve `j` at the point of parameter `value`, every other curve's segment. */
  function CellLines(T: seq<Curve>, alpha: seq<nat>, j: nat, value: real): (lines: seq<Line>)
    requires WellFormed(T) && Valid(T, alpha)
    ensures |lines| == |T|
    ensures forall i :: 0 <= i < |T| ==>
      (if i == j then lines[i].Fixed? && |lines[i].point| == Dim(T)
       else lines[i].Free? && |lines[i].dir| == Dim(T) && |lines[i].base| == Dim(T))
  {
    seq(|T|, i requires 0 <= i < |T| =>
      SegmentPoints(T, alpha, i);
      var p, q := T[i][alpha[i] - 1], T[i][alpha[i]];
      if i == j then Fixed(Lerp(p, q, value)) else Free(Sub(p, q), p))
  }

  /** The point of a line the cone of its curve is centered on. */
  function Center(line: Line): Coords
  {
    if line.Fixed? then line.point else line.base
  }

  /** The curve whose parameter is variable `s`: the curves other than `j`, in order. */
  function Other(s: nat, j: nat): nat
  {
    if s < j then s else s + 1
  }

  /** The variable of curve `i != j`: its position among the curves other than `j`. */
  function Slot(i: nat, j: nat): nat
    requires i != j
  {
    if i < j then i else i - 1
  }

  /**
   * The column of curve `i`'s parameter: `+1` and `-1` at its slot of the two half-line
   * blocks, then in cone `i` a 0 and the negated direction of the segment.
   */
  function ParamColumn(l: nat, d: nat, i: nat, j: nat, dir: Coords): seq<real>
    requires i < l && j < l && i != j
  {
    Unit(l - 1, Slot(i, j), 1.0) + Unit(l - 1, Slot(i, j), -1.0) +
    Zs(i * (d + 1)) + [0.0] + Neg(dir) + Zs((l - i - 1) * (d + 1))
  }

  /** The program `_cellborder` hands the solver for the border of curve `j` at parameter `value`. */
  function CellProgram(T: seq<Curve>, radii: seq<real>, alpha: seq<nat>, j: nat, value: real): ConeProgram
    requires WellFormed(T) && Valid(T, alpha) && j < |T| && |radii| >= |T|
  {
    var l, d := |T|, Dim(T);
    var lines := CellLines(T, alpha, j, value);
    ConeProgram(
      Zs(l - 1) + Zs(d),
      seq(l - 1, s requires 0 <= s < l - 1 => ParamColumn(l, d, Other(s, j), j, lines[Other(s, j)].dir)) +
      seq(d, k requires 0 <= k < d => Zs(2 * (l - 1)) + PointColumn(l, d, k)),
      Ones(l - 1) + Zs(l - 1) + ConeRows(radii, seq(l, i requires 0 <= i < l => Center(lines[i]))),
      2 * (l - 1), Filled(l, 1 + d))
  }

  lemma MulAddDistrib(a: nat, b: nat, w: nat)
    ensures a * w + b * w == (a + b) * w
  {
  }

  lemma ParamColumnLength(l: nat, d: nat, i: nat, j: nat, dir: Coords)
    requires i < l && j < l && i != j && |dir| == d
    ensures |ParamColumn(l, d, i, j, dir)| == 2 * (l - 1) + l * (d + 1)
    ensures ParamColumn(l, d, i, j, dir)[..2 * (l - 1)] == Unit(l - 1, Slot(i, j), 1.0) + Unit(l - 1, Slot(i, j), -1.0)
  {
    MulAddDistrib(i, 1, d + 1);
    MulAddDistrib(i + 1, l - i - 1, d + 1);
  }

  /**
   * The shape of `_cellborder`'s program: `c` has `(l - 1) + d` entries, as many as `G`
   * has columns; `h` and every column have `2(l - 1) + l(d + 1)` rows; `dims` is
   * `2(l - 1)` half-lines and `l` cones of `1 + d` rows.
   */
  lemma CellProgramShape(T: seq<Curve>, radii: seq<real>, alpha: seq<nat>, j: nat, value: real)
    requires WellFormed(T) && Valid(T, alpha) && j < |T| && |radii| >= |T|
    ensures var P := CellProgram(T, radii, alpha, j, value); var l, d := |T|, Dim(T);
      |P.c| == (l - 1) + d && |P.G| == (l - 1) + d && P.linear == 2 * (l - 1) && P.cones == Filled(l, 1 + d) &&
      |P.h| == 2 * (l - 1) + l * (d + 1) &&
      forall col :: 0 <= col < |P.G| ==> |P.G[col]| == 2 * (l - 1) + l * (d + 1)
  {
    var P := CellProgram(T, radii, alpha, j, value);
    var l, d := |T|, Dim(T);
    var lines := CellLines(T, alpha, j, value);
    ConeRowsLength(radii, seq(l, i requires 0 <= i < l => Center(lines[i])), d);
    forall col | 0 <= col < |P.G|
      ensures |P.G[col]| == 2 * (l - 1) + l * (d + 1)
    {
      if col < l - 1 {
        ParamColumnLength(l, d, Other(col, j), j, lines[Other(col, j)].dir);
      } else {
        PointColumnLength(l, d, col - (l - 1));
      }
    }
  }

  /**
   * The half-line block of `_cellborder`'s program bounds every parameter to `[0, 1]`:
   * `h` starts with `l - 1` ones and `l - 1` zeros, parameter column `s` has `+1` at row
   * `s` and `-1` at row `l - 1 + s` of that block, and the point columns are 0 there.
   */
  lemma CellProgramBounds(T: seq<Curve>, radii: seq<real>, alpha: seq<nat>, j: nat, value: real)
    requires WellFormed(T) && Valid(T, alpha) && j < |T| && |radii| >= |T|
    ensures var P := CellProgram(T, radii, alpha, j, value); var l, d := |T|, Dim(T);
      |P.G| == (l - 1) + d && |P.h| >= 2 * (l - 1) &&
      P.h[..2 * (l - 1)] == Ones(l - 1) + Zs(l - 1) &&
      (forall s :: 0 <= s < l - 1 ==> |P.G[s]| >= 2 * (l - 1) && P.G[s][..2 * (l - 1)] == Unit(l - 1, s, 1.0) + Unit(l - 1, s, -1.0)) &&
      (forall col :: l - 1 <= col < |P.G| ==> |P.G[col]| >= 2 * (l - 1) && P.G[col][..2 * (l - 1)] == Zs(2 * (l - 1)))
  {
    var l, d := |T|, Dim(T);
    var lines := CellLines(T, alpha, j, value);
    forall s | 0 <= s < l - 1
      ensures ParamColumn(l, d, Other(s, j), j, lines[Other(s, j)].dir)[..2 * (l - 1)] == Unit(l - 1, s, 1.0) + Unit(l - 1, s, -1.0)
    {
      ParamColumnLength(l, d, Other(s, j), j, lines[Other(s, j)].dir);
      assert Slot(Other(s, j), j) == s;
    }
  }

  /** The `lines` loop of `_cellborder`. */
  method BuildCellLines(T: seq<Curve>, alpha: seq<nat>, j: nat, value: real) returns (lines: seq<Line>)
    requires WellFormed(T) && Valid(T, alpha)
    ensures lines == CellLines(T, alpha, j, value)
  {
    ghost var target := CellLines(T, alpha, j, value);
    lines := [];
    var i := 0;
    while i < |T|
      invariant i <= |T| && lines == target[..i]
    {
      SegmentPoints(T, alpha, i);
      if i == j {
        lines := lines + [Fixed(Lerp(T[i][alpha[i] - 1], T[i][alpha[i]], value))];
      } else {
        lines := lines + [Free(Sub(T[i][alpha[i] - 1], T[i][alpha[i]]), T[i][alpha[i] - 1])];
      }
      i := i + 1;
    }
  }

  /** The number of parameter columns after the curves `0..i-1` are visited: curve `j` adds none. */
  function Visited(i: nat, j: nat): nat
  {
    if i <= j then i else i - 1
  }

  /** The first column loop of `_cellborder`: one parameter column per curve other than `j`. */
  method BuildParamColumns(l: nat, d: nat, j: nat, lines: seq<Line>) returns (G: seq<seq<real>>)
    requires j < l && |lines| == l
    requires forall i :: 0 <= i < l && i != j ==> lines[i].Free?
    ensures G == seq(l - 1, s requires 0 <= s < l - 1 => ParamColumn(l, d, Other(s, j), j, lines[Other(s, j)].dir))
  {
    G := [];
    var i := 0;
    while i < l
      invariant i <= l
      invariant G == seq(Visited(i, j), s requires 0 <= s < Visited(i, j) => ParamColumn(l, d, Other(s, j), j, lines[Other(s, j)].dir))
    {
      if i == j {
      } else {
        assert Other(Visited(i, j), j) == i;
        G := G + [ParamColumn(l, d, i, j, lines[i].dir)];
      }
      i := i + 1;
    }
  }

  /** The `h` of `_cellborder`: ones and zeros for the half-lines, then each curve's radius and negated center. */
  method BuildCellRows(radii: seq<real>, lines: seq<Line>) returns (h: seq<real>)
    requires |lines| >= 1 && |radii| >= |lines|
    ensures h == Ones(|lines| - 1) + Zs(|lines| - 1) + ConeRows(radii, seq(|lines|, i requires 0 <= i < |lines| => Center(lines[i])))
  {
    var l := |lines|;
    ghost var centers := seq(l, i requires 0 <= i < l => Center(lines[i]));
    ghost var blocks := seq(l, q requires 0 <= q < l => [radii[q]] + Neg(centers[q]));
    h := Ones(l - 1);
    h := h + Zs(l - 1);
    ghost var head := h;
    var i := 0;
    while i < l
      invariant i <= l && h == head + Flatten(blocks[..i])
    {
      var center;
      if lines[i].Fixed? {
        center := lines[i].point;
      } else {
        center := lines[i].base;
      }
      FlattenPrefix(blocks, i);
      var block := [radii[i]] + Neg(center);
      assert block == blocks[i];
      h := h + block;
      i := i + 1;
    }
    assert blocks[..l] == blocks;
  }

  /** The second column loop of `_cellborder`: a point column under `2(l - 1)` zero rows per coordinate. */
  method BuildCellPointColumns(l: nat, d: nat) returns (G: seq<seq<real>>)
    requires l >= 1
    ensures G == seq(d, k requires 0 <= k < d => Zs(2 * (l - 1)) + PointColumn(l, d, k))
  {
    var points := BuildPointColumns(l, d);
    G := [];
    var k := 0;
    while k < d
      invariant k <= d && G == seq(k, q requires 0 <= q < k => Zs(2 * (l - 1)) + PointColumn(l, d, q))
    {
      G := G + [Zs(2 * (l - 1)) + points[k]];
      k := k + 1;
    }
  }

  /** The loops of `_cellborder` that assemble `lines`, `G` and `h`. */
  method BuildCellProgram(T: seq<Curve>, radii: seq<real>, alpha: seq<nat>, j: nat, value: real)
    returns (P: ConeProgram)
    requires WellFormed(T) && Valid(T, alpha) && j < |T| && |radii| >= |T|
    ensures P == CellProgram(T, radii, alpha, j, value)
  {
    var l, d := |T|, |T[0][0]|;
    var lines := BuildCellLines(T, alpha, j, value);
    var params := BuildParamColumns(l, d, j, lines);
    var points := BuildCellPointColumns(l, d);
    var h := BuildCellRows(radii, lines);
    P := ConeProgram(Zs(l - 1) + Zs(d), params + points, h, 2 * (l - 1), Filled(l, 1 + d));
  }

  /**
   * The offsets of the border in the lattice: `value` for curve `j`, the solver's
   * parameters in order for the other curves.
   */
  function Reconstruct(x: seq<real>, l: nat, j: nat, value: real): (y: seq<real>)
    requires j < l && |x| >= l - 1
    ensures |y| == l && y[j] == value
  {
    seq(l, i requires 0 <= i < l => if i < j then x[i] else if i == j then value else x[i - 1])
  }

  /** Dropping slot `j` from the offsets gives back the solver's `l - 1` parameters. */
  lemma ReconstructDropsSlot(x: seq<real>, l: nat, j: nat, value: real)
    requires j < l && |x| >= l - 1
    ensures var y := Reconstruct(x, l, j, value); y[..j] + y[j + 1..] == x[..l - 1]
  {
    var y := Reconstruct(x, l, j, value);
    assert forall i :: 0 <= i < l - 1 ==> (y[..j] + y[j + 1..])[i] == y[Other(i, j)];
  }

  /** The `y` loop of `_cellborder`, filling a fresh array slot by slot. */
  method ReconstructY(x: seq<real>, l: nat, j: nat, value: real) returns (y: seq<real>)
    requires j < l && |x| >= l - 1
    ensures y == Reconstruct(x, l, j, value)
  {
    var a := new real[l];
    var i := 0;
    while i < l
      invariant i <= l && forall q :: 0 <= q < i ==> a[q] == Reconstruct(x, l, j, value)[q]
    {
      if i < j {
        a[i] := x[i];
      } else if i == j {
        a[j] := value;
      } else {
        a[i] := x[i - 1];
      }
      i := i + 1;
    }
    y := a[..];
  }

  /**
   * What `_cellborder` answers for a solver result, with the solver's exception caught
   * and read as an infeasible border.  A witness too short for the parameter slots
   * fails on the index.
   */
  function CellOutcome(l: nat, j: nat, value: real, sol: SolverResult): (r: CellResult)
    requires j < l
    ensures sol.Raised? ==> r == CellDone(false, None)
    ensures r.CellDone? && r.border.Some? ==>
      sol.Returned? && sol.x.Some? && |sol.x.value| >= l - 1 && r.optimal == sol.optimal &&
      r.border.value == (Reconstruct(sol.x.value, l, j, value), sol.x.value[l - 1..])
  {
    match sol
    case Raised => CellDone(false, None)
    case Returned(optimal, None) => CellDone(optimal, None)
    case Returned(optimal, Some(x)) =>
      if |x| < l - 1 then CellFailed else CellDone(optimal, Some((Reconstruct(x, l, j, value), x[l - 1..])))
  }

  /**
   * `_cellborder` as written: when the solver raises, the exception is only printed and
   * the unbound `sol` is read next, so the call fails instead of reporting an infeasible
   * border.
   */
  function CellOutcomeAsWritten(l: nat, j: nat, value: real, sol: SolverResult): (r: CellResult)
    requires j < l
    ensures sol.Raised? ==> r == CellFailed
    ensures !sol.Raised? ==> r == CellOutcome(l, j, value, sol)
  {
    if sol.Raised? then CellFailed else CellOutcome(l, j, value, sol)
  }

  /** The two versions differ exactly on a raising solver: as written the call fails, intended it is infeasible. */
  lemma RaisingSolverFails(l: nat, j: nat, value: real)
    requires j < l
    ensures CellOutcomeAsWritten(l, j, value, Raised) == CellFailed
    ensures CellOutcome(l, j, value, Raised) == CellDone(false, None)
  {
  }

  /** `_cellborder`: builds the program, solves it and reads the border's offsets and point off the witness. */
  method CellBorder(T: seq<Curve>, radii: seq<real>, alpha: seq<nat>, j: nat, value: real,
                    conelp: ConeProgram -> SolverResult)
    returns (r: CellResult)
    requires WellFormed(T) && Valid(T, alpha) && j < |T| && |radii| >= |T|
    ensures r == CellOutcome(|T|, j, value, conelp(CellProgram(T, radii, alpha, j, value)))
  {
    var l := |T|;
    var P := BuildCellProgram(T, radii, alpha, j, value);
    var sol := conelp(P);
    match sol {
      case Raised =>
        r := CellDone(false, None);
      case Returned(optimal, None) =>
        r := CellDone(optimal, None);
      case Returned(optimal, Some(x)) =>
        if |x| < l - 1 {
          r := CellFailed;
        } else {
          var y := ReconstructY(x, l, j, value);
          r := CellDone(optimal, Some((y, x[l - 1..])));
        }
    }
  }

  // ---------------------------------------------------------------------------
  // `_compute_borders`
  // ---------------------------------------------------------------------------

  /** How many more steps the lattice position `alpha` can take: `sum(points_i - 1 - alpha[i])`. */
  function Slack(T: seq<Curve>, alpha: seq<nat>): nat
    requires |alpha| == |T| && forall i :: 0 <= i < |T| ==> alpha[i] < |T[i]|
    decreases |T|
  {
    if |T| == 0 then 0 else (|T[0]| - 1 - alpha[0]) + Slack(T[1..], alpha[1..])
  }

  /** `alpha + mask` with `mask[j] = 1`. */
  function Advanced(alpha: seq<nat>, j: nat): (next: seq<nat>)
    requires j < |alpha|
    ensures |next| == |alpha| && next[j] == alpha[j] + 1
    ensures forall i :: 0 <= i < |alpha| && i != j ==> next[i] == alpha[i]
  {
    alpha[j := alpha[j] + 1]
  }

  /** Advancing curve `j` while `alpha[j] + 1 < points_j` keeps the position valid and uses up one step of slack. */
  lemma {:induction false} AdvanceValid(T: seq<Curve>, alpha: seq<nat>, j: nat)
    requires Valid(T, alpha) && j < |T| && alpha[j] + 1 < |T[j]|
    ensures Valid(T, Advanced(alpha, j))
    ensures Slack(T, Advanced(alpha, j)) + 1 == Slack(T, alpha)
  {
    var next := Advanced(alpha, j);
    if j > 0 {
      assert next[1..] == Advanced(alpha[1..], j - 1);
      AdvanceValid(T[1..], alpha[1..], j - 1);
    } else {
      assert next[1..] == alpha[1..];
    }
  }

  /** `alpha + y` as the float list `_compute_borders` appends. */
  function Shift(alpha: seq<nat>, y: seq<real>): (key: seq<real>)
    requires |y| == |alpha|
    ensures |key| == |alpha|
  {
    seq(|alpha|, i requires 0 <= i < |alpha| => alpha[i] as real + y[i])
  }

  /**
   * The borders `_compute_borders(T, radii, alpha, ...)` leaves in a list that held `acc`,
   * visiting curves `j..l-1` of the loop at `alpha`; `None` when an exception escapes:
   * a witness too short to read, or an optimal status without a witness (`border[1][0]`
   * on `None`).
   */
  function Explore(T: seq<Curve>, radii: seq<real>, conelp: ConeProgram -> SolverResult,
                   alpha: seq<nat>, j: nat, acc: seq<Border>): Option<seq<Border>>
    requires WellFormed(T) && Valid(T, alpha) && |radii| >= |T| && j <= |T|
    decreases Slack(T, alpha), |T| - j
  {
    if j == |T| then Some(acc)
    else if alpha[j] + 1 < |T[j]| then
      match CellOutcome(|T|, j, 1.0, conelp(CellProgram(T, radii, alpha, j, 1.0)))
      case CellFailed => None
      case CellDone(optimal, border) =>
        if !optimal then Explore(T, radii, conelp, alpha, j + 1, acc)
        else if border.None? then None
        else
          var (y, point) := border.value;
          AdvanceValid(T, alpha, j);
          match Explore(T, radii, conelp, Advanced(alpha, j), 0, acc + [Border(Shift(alpha, y), point)])
          case None => None
          case Some(after) => Explore(T, radii, conelp, alpha, j + 1, after)
    else Explore(T, radii, conelp, alpha, j + 1, acc)
  }

  /** The list is only ever appended to: whatever exploration returns extends what it was given. */
  lemma {:induction false} ExploreExtends(T: seq<Curve>, radii: seq<real>, conelp: ConeProgram -> SolverResult,
                                          alpha: seq<nat>, j: nat, acc: seq<Border>)
    requires WellFormed(T) && Valid(T, alpha) && |radii| >= |T| && j <= |T|
    ensures var r := Explore(T, radii, conelp, alpha, j, acc); r.Some? ==> acc <= r.value
    decreases Slack(T, alpha), |T| - j
  {
    if j < |T| {
      if alpha[j] + 1 < |T[j]| {
        match CellOutcome(|T|, j, 1.0, conelp(CellProgram(T, radii, alpha, j, 1.0)))
        case CellFailed =>
        case CellDone(optimal, border) =>
          if !optimal {
            ExploreExtends(T, radii, conelp, alpha, j + 1, acc);
          } else if border.Some? {
            var (y, point) := border.value;
            var acc' := acc + [Border(Shift(alpha, y), point)];
            AdvanceValid(T, alpha, j);
            ExploreExtends(T, radii, conelp, Advanced(alpha, j), 0, acc');
            match Explore(T, radii, conelp, Advanced(alpha, j), 0, acc')
            case None =>
            case Some(after) =>
              ExploreExtends(T, radii, conelp, alpha, j + 1, after);
          }
      } else {
        ExploreExtends(T, radii, conelp, alpha, j + 1, acc);
      }
    }
  }

  /** One border `_compute_borders` recorded: the cell it came from and the offsets the solver gave. */
  datatype Cell = Cell(alpha: seq<nat>, j: nat, offsets: seq<real>)

  /**
   * `b` is the border of cell `c`: the position is valid, curve `c.j` could still advance,
   * the cell program was solved to optimality with offsets `c.offsets` and point
   * `b.point`, and the key is `alpha + offsets`.
   */
  ghost predicate Recorded(T: seq<Curve>, radii: seq<real>, conelp: ConeProgram -> SolverResult, c: Cell, b: Border)
  {
    WellFormed(T) && |radii| >= |T| && Valid(T, c.alpha) && c.j < |T| && c.alpha[c.j] + 1 < |T[c.j]| &&
    CellOutcome(|T|, c.j, 1.0, conelp(CellProgram(T, radii, c.alpha, c.j, 1.0))) == CellDone(true, Some((c.offsets, b.point))) &&
    |c.offsets| == |T| && b.key == Shift(c.alpha, c.offsets)
  }

  /**
   * A recorded key has one entry per curve; on the advanced curve it is `alpha[j] + 1`, and
   * the other entries are `alpha` plus the solver's parameters in order.
   */
  lemma RecordedKey(T: seq<Curve>, radii: seq<real>, conelp: ConeProgram -> SolverResult, c: Cell, b: Border)
    requires Recorded(T, radii, conelp, c, b)
    ensures |b.key| == |T| && b.key[c.j] == (c.alpha[c.j] + 1) as real
    ensures var sol := conelp(CellProgram(T, radii, c.alpha, c.j, 1.0));
      sol.Returned? && sol.x.Some? && |sol.x.value| >= |T| - 1 &&
      forall i :: 0 <= i < |T| && i != c.j ==> b.key[i] == c.alpha[i] as real + sol.x.value[Slot(i, c.j)]
  {
    var sol := conelp(CellProgram(T, radii, c.alpha, c.j, 1.0));
    var x := sol.x.value;
    assert c.offsets == Reconstruct(x, |T|, c.j, 1.0);
  }

  /** The state of `curve_within_radii` that `_compute_borders` appends to. */
  class Explorer {
    const T: seq<Curve>
    const radii: seq<real>
    const conelp: ConeProgram -> SolverResult
    /** `borders`: the start and end borders, then every border found, in the order found. */
    var borders: seq<Border>
    /** The cell of every border after the first two. */
    ghost var cells: seq<Cell>

    ghost predicate Inv()
      reads this
    {
      |borders| == |cells| + 2 &&
      forall c :: 0 <= c < |cells| ==> Recorded(T, radii, conelp, cells[c], borders[c + 2])
    }

    constructor(T: seq<Curve>, radii: seq<real>, conelp: ConeProgram -> SolverResult, start: Border, end: Border)
      ensures this.T == T && this.radii == radii && this.conelp == conelp
      ensures borders == [start, end] && Inv()
    {
      this.T := T;
      this.radii := radii;
      this.conelp := conelp;
      borders := [start, end];
      cells := [];
    }

    /** Records one more border with its cell. */
    method Record(c: Cell, b: Border)
      requires Inv() && Recorded(T, radii, conelp, c, b)
      modifies this
      ensures borders == old(borders) + [b] && cells == old(cells) + [c] && Inv()
    {
      borders := borders + [b];
      cells := cells + [c];
    }

    /**
     * `_compute_borders(T, radii, alpha, borders)`: the list ends as `Explore` says, every
     * new border is recorded with its cell, and `failed` reports an escaping exception.
     */
    method ComputeBorders(alpha: seq<nat>) returns (failed: bool)
      requires WellFormed(T) && Valid(T, alpha) && |radii| >= |T| && Inv()
      modifies this
      ensures Inv() && old(borders) <= borders && old(cells) <= cells
      ensures failed <==> Explore(T, radii, conelp, alpha, 0, old(borders)).None?
      ensures !failed ==> Explore(T, radii, conelp, alpha, 0, old(borders)) == Some(borders)
      decreases Slack(T, alpha), 1
    {
      failed := false;
      var j := 0;
      while j < |T|
        invariant j <= |T| && Inv() && old(borders) <= borders && old(cells) <= cells
        invariant Explore(T, radii, conelp, alpha, 0, old(borders)) == Explore(T, radii, conelp, alpha, j, borders)
        decreases |T| - j
      {
        if alpha[j] + 1 < |T[j]| {
          failed := VisitCell(alpha, j);
          if failed {
            return;
          }
        }
        j := j + 1;
      }
    }

    /** One turn of the loop of `_compute_borders` for a curve `j` that can advance. */
    method VisitCell(alpha: seq<nat>, j: nat) returns (failed: bool)
      requires WellFormed(T) && Valid(T, alpha) && |radii| >= |T| && Inv()
      requires j < |T| && alpha[j] + 1 < |T[j]|
      modifies this
      ensures Inv() && old(borders) <= borders && old(cells) <= cells
      ensures failed ==> Explore(T, radii, conelp, alpha, j, old(borders)).None?
      ensures !failed ==> Explore(T, radii, conelp, alpha, j, old(borders)) == Explore(T, radii, conelp, alpha, j + 1, borders)
      decreases Slack(T, alpha), 0
    {
      var r := CellBorder(T, radii, alpha, j, 1.0, conelp);
      if r.CellFailed? || (r.optimal && r.border.None?) {
        return true;
      }
      if !r.optimal {
        return false;
      }
      var (y, point) := r.border.value;
      var key := ShiftKey(alpha, y);
      Record(Cell(alpha, j, y), Border(key, point));
      AdvanceValid(T, alpha, j);
      failed := ComputeBorders(Advanced(alpha, j));
    }
  }

  /** `[alpha[i] + y[i] for i in range(len(alpha))]` */
  method ShiftKey(alpha: seq<nat>, y: seq<real>) returns (key: seq<real>)
    requires |y| == |alpha|
    ensures key == Shift(alpha, y)
  {
    key := [];
    var i := 0;
    while i < |alpha|
      invariant i <= |alpha| && key == Shift(alpha, y)[..i]
    {
      key := key + [alpha[i] as real + y[i]];
      i := i + 1;
    }
  }

  // ---------------------------------------------------------------------------
  // `curve_within_radii`
  // ---------------------------------------------------------------------------

  /** Python's `<` on lists of numbers: the first differing entry decides, a proper prefix is smaller. */
  predicate LexLt(a: seq<real>, b: seq<real>)
    decreases |a|
  {
    if |b| == 0 then false
    else if |a| == 0 then true
    else if a[0] != b[0] then a[0] < b[0]
    else LexLt(a[1..], b[1..])
  }

  /** List order is a strict total order: exactly one of `a < b`, `a == b`, `b < a`. */
  lemma {:induction false} LexTrichotomy(a: seq<real>, b: seq<real>)
    ensures a == b || LexLt(a, b) || LexLt(b, a)
    ensures !(LexLt(a, b) && LexLt(b, a))
    decreases |a|
  {
    if |a| > 0 && |b| > 0 {
      LexTrichotomy(a[1..], b[1..]);
      if a[0] == b[0] && a[1..] == b[1..] {
        assert a == [a[0]] + a[1..] && b == [b[0]] + b[1..];
      }
    }
  }

  lemma {:induction false} LexIrreflexive(a: seq<real>)
    ensures !LexLt(a, a)
    decreases |a|
  {
    if |a| > 0 {
      LexIrreflexive(a[1..]);
    }
  }

  /** Adjacent borders are in key order. */
  ghost predicate SortedByKey(bs: seq<Border>)
  {
    forall i :: 0 <= i < |bs| - 1 ==> !LexLt(bs[i + 1].key, bs[i].key)
  }

  /** Places `b` after every border whose key is not larger, as a stable sort does. */
  function InsertByKey(b: Border, s: seq<Border>): (r: seq<Border>)
    ensures multiset(r) == multiset(s) + multiset{b} && |r| == |s| + 1
    ensures r[0] == b || (|s| >= 1 && r[0] == s[0])
  {
    if |s| == 0 then [b]
    else if LexLt(b.key, s[0].key) then [b] + s
    else
      assert s == [s[0]] + s[1..];
      [s[0]] + InsertByKey(b, s[1..])
  }

  lemma {:induction false} InsertKeepsSorted(b: Border, s: seq<Border>)
    requires SortedByKey(s)
    ensures SortedByKey(InsertByKey(b, s))
  {
    var r := InsertByKey(b, s);
    if |s| > 0 {
      if LexLt(b.key, s[0].key) {
        LexTrichotomy(b.key, s[0].key);
        assert r == [b] + s;
      } else {
        InsertKeepsSorted(b, s[1..]);
        var rest := InsertByKey(b, s[1..]);
        assert r == [s[0]] + rest;
        assert !LexLt(rest[0].key, s[0].key);
      }
    }
  }

  /** `sorted(borders, key=lambda border: border[0])` */
  function SortByKey(bs: seq<Border>): (r: seq<Border>)
    ensures multiset(r) == multiset(bs) && |r| == |bs|
  {
    if |bs| == 0 then []
    else
      assert bs == bs[..|bs| - 1] + [bs[|bs| - 1]];
      InsertByKey(bs[|bs| - 1], SortByKey(bs[..|bs| - 1]))
  }

  /** The sorted list is ordered by key. */
  lemma {:induction false} SortByKeySorted(bs: seq<Border>)
    ensures SortedByKey(SortByKey(bs))
  {
    if |bs| > 0 {
      SortByKeySorted(bs[..|bs| - 1]);
      InsertKeepsSorted(bs[|bs| - 1], SortByKey(bs[..|bs| - 1]));
    }
  }

  /**
   * The test of the backward loop, negated: no entry of `key` is more than 1 below
   * `alpha`, none is above it, and not all are equal.
   */
  predicate Accepts(alpha: seq<real>, key: seq<real>)
    requires |key| == |alpha|
  {
    !((exists i :: 0 <= i < |alpha| && alpha[i] - key[i] > 1.0) ||
      (exists i :: 0 <= i < |alpha| && key[i] > alpha[i]) ||
      (forall i :: 0 <= i < |alpha| ==> key[i] == alpha[i]))
  }

  /** `lo` is one step below `hi` in the lattice: component-wise lower by at most 1, and different. */
  ghost predicate UnitStepBelow(lo: seq<real>, hi: seq<real>)
  {
    |lo| == |hi| && lo != hi && forall i :: 0 <= i < |hi| ==> hi[i] - 1.0 <= lo[i] <= hi[i]
  }

  /** The backward loop accepts a key exactly when it is a unit step below the current one. */
  lemma AcceptsIsUnitStep(alpha: seq<real>, key: seq<real>)
    requires |key| == |alpha|
    ensures Accepts(alpha, key) <==> UnitStepBelow(key, alpha)
  {
    if Accepts(alpha, key) {
      var i :| 0 <= i < |alpha| && key[i] != alpha[i];
    }
    if UnitStepBelow(key, alpha) {
      assert exists i :: 0 <= i < |alpha| && key[i] != alpha[i];
    }
  }

  function Sum(v: seq<real>): real
  {
    if |v| == 0 then 0.0 else v[0] + Sum(v[1..])
  }

  /** Along a unit step the entry sum drops by more than 0 and at most the number of curves. */
  lemma {:induction false} UnitStepSum(lo: seq<real>, hi: seq<real>)
    requires |lo| == |hi| && forall i :: 0 <= i < |hi| ==> hi[i] - 1.0 <= lo[i] <= hi[i]
    ensures Sum(hi) - (|hi| as real) <= Sum(lo) <= Sum(hi)
    ensures lo != hi ==> Sum(lo) < Sum(hi)
  {
    if |lo| > 0 {
      UnitStepSum(lo[1..], hi[1..]);
      if lo != hi && lo[0] == hi[0] {
        assert lo == [lo[0]] + lo[1..] && hi == [hi[0]] + hi[1..];
      }
    }
  }

  /** The key the backward loop compares with after accepting `chosen[..k+1]`: the end key at first. */
  function Current(sorted: seq<Border>, top: seq<real>, chosen: seq<nat>, k: nat): seq<real>
    requires k < |chosen| && forall q :: 0 <= q < |chosen| ==> chosen[q] < |sorted|
  {
    if k == 0 then top else sorted[chosen[k]].key
  }

  /**
   * `chosen` lists the indices the backward loop accepted after visiting `lo..n-2`:
   * it starts at the last border, the indices decrease, every accepted key is accepted
   * against the current key, and every index visited but not accepted was rejected
   * against the current key of its time.
   */
  ghost predicate ChainUpTo(sorted: seq<Border>, top: seq<real>, chosen: seq<nat>, lo: nat)
  {
    |sorted| >= 1 && |chosen| >= 1 && chosen[0] == |sorted| - 1 && lo <= |sorted| &&
    (forall b :: b in sorted ==> |b.key| == |top|) &&
    Descending(|sorted|, chosen, lo) && AcceptedSteps(sorted, top, chosen) && RejectedRest(sorted, top, chosen, lo)
  }

  /** The accepted indices lie in `lo..n-1` and strictly decrease. */
  ghost predicate Descending(n: nat, chosen: seq<nat>, lo: nat)
  {
    (forall q :: 0 <= q < |chosen| ==> lo <= chosen[q] < n) &&
    (forall q :: 0 <= q < |chosen| - 1 ==> chosen[q + 1] < chosen[q])
  }

  /** Every accepted key after the first was accepted against the key current at its turn. */
  ghost predicate AcceptedSteps(sorted: seq<Border>, top: seq<real>, chosen: seq<nat>)
  {
    (forall b :: b in sorted ==> |b.key| == |top|) &&
    (forall q :: 0 <= q < |chosen| ==> chosen[q] < |sorted|) &&
    forall q :: 1 <= q < |chosen| ==> Accepts(Current(sorted, top, chosen, q - 1), sorted[chosen[q]].key)
  }

  /** Every index of `lo..n-1` passed over was rejected against the key current at its turn. */
  ghost predicate RejectedRest(sorted: seq<Border>, top: seq<real>, chosen: seq<nat>, lo: nat)
  {
    (forall b :: b in sorted ==> |b.key| == |top|) &&
    (forall q :: 0 <= q < |chosen| ==> chosen[q] < |sorted|) &&
    forall q, i :: 0 <= q < |chosen| && lo <= i < chosen[q] && (q == |chosen| - 1 || chosen[q + 1] < i) ==>
      !Accepts(Current(sorted, top, chosen, q), sorted[i].key)
  }

  /** The accepted keys descend from the end key by unit steps, so their sums strictly decrease. */
  lemma ChainDescends(sorted: seq<Border>, top: seq<real>, chosen: seq<nat>, lo: nat, q: nat)
    requires ChainUpTo(sorted, top, chosen, lo) && 1 <= q < |chosen|
    ensures UnitStepBelow(sorted[chosen[q]].key, Current(sorted, top, chosen, q - 1))
    ensures Sum(sorted[chosen[q]].key) < Sum(Current(sorted, top, chosen, q - 1))
  {
    var hi := Current(sorted, top, chosen, q - 1);
    var key := sorted[chosen[q]].key;
    assert sorted[chosen[q]] in sorted;
    if q > 1 {
      assert sorted[chosen[q - 1]] in sorted;
    }
    AcceptsIsUnitStep(hi, key);
    UnitStepSum(key, hi);
  }

  lemma ChainStart(sorted: seq<Border>, top: seq<real>)
    requires |sorted| >= 1 && forall b :: b in sorted ==> |b.key| == |top|
    ensures ChainUpTo(sorted, top, [|sorted| - 1], |sorted| - 1)
  {
  }

  /** The current key depends only on the indices accepted so far. */
  lemma CurrentPrefix(sorted: seq<Border>, top: seq<real>, chosen: seq<nat>, i: nat, k: nat)
    requires i < |sorted| && k < |chosen| && forall q :: 0 <= q < |chosen| ==> chosen[q] < |sorted|
    ensures Current(sorted, top, chosen + [i], k) == Current(sorted, top, chosen, k)
  {
  }

  lemma ChainAccept(sorted: seq<Border>, top: seq<real>, chosen: seq<nat>, i: nat)
    requires ChainUpTo(sorted, top, chosen, i + 1)
    requires Accepts(Current(sorted, top, chosen, |chosen| - 1), sorted[i].key)
    ensures ChainUpTo(sorted, top, chosen + [i], i)
  {
    DescendingAppend(|sorted|, chosen, i);
    AcceptedAppend(sorted, top, chosen, i);
    RejectedAppend(sorted, top, chosen, i);
  }

  lemma DescendingAppend(n: nat, chosen: seq<nat>, i: nat)
    requires |chosen| >= 1 && i < n && Descending(n, chosen, i + 1)
    ensures Descending(n, chosen + [i], i)
  {
    var c := chosen + [i];
    forall q | 0 <= q < |c| - 1
      ensures c[q + 1] < c[q]
    {
      if q < |chosen| - 1 {
        assert c[q + 1] == chosen[q + 1];
      }
    }
  }

  lemma AcceptedAppend(sorted: seq<Border>, top: seq<real>, chosen: seq<nat>, i: nat)
    requires |chosen| >= 1 && i < |sorted| && AcceptedSteps(sorted, top, chosen)
    requires Accepts(Current(sorted, top, chosen, |chosen| - 1), sorted[i].key)
    ensures AcceptedSteps(sorted, top, chosen + [i])
  {
    var c := chosen + [i];
    forall q | 1 <= q < |c|
      ensures Accepts(Current(sorted, top, c, q - 1), sorted[c[q]].key)
    {
      CurrentPrefix(sorted, top, chosen, i, q - 1);
      if q < |chosen| {
        assert c[q] == chosen[q];
      }
    }
  }

  lemma RejectedAppend(sorted: seq<Border>, top: seq<real>, chosen: seq<nat>, i: nat)
    requires |chosen| >= 1 && i < |sorted| && RejectedRest(sorted, top, chosen, i + 1) && Descending(|sorted|, chosen, i + 1)
    ensures RejectedRest(sorted, top, chosen + [i], i)
  {
    var c := chosen + [i];
    forall q, i' | 0 <= q < |c| && i <= i' < c[q] && (q == |c| - 1 || c[q + 1] < i')
      ensures !Accepts(Current(sorted, top, c, q), sorted[i'].key)
    {
      assert q < |chosen|;
      CurrentPrefix(sorted, top, chosen, i, q);
      assert c[q] == chosen[q];
      if q < |chosen| - 1 {
        assert c[q + 1] == chosen[q + 1];
      }
      assert i + 1 <= i' < chosen[q] && (q == |chosen| - 1 || chosen[q + 1] < i');
    }
  }

  lemma ChainReject(sorted: seq<Border>, top: seq<real>, chosen: seq<nat>, i: nat)
    requires ChainUpTo(sorted, top, chosen, i + 1)
    requires !Accepts(Current(sorted, top, chosen, |chosen| - 1), sorted[i].key)
    ensures ChainUpTo(sorted, top, chosen, i)
  {
  }

  /** The backward loop of `curve_within_radii` over the sorted borders. */
  method BackwardChain(sorted: seq<Border>, top: seq<real>) returns (chosen: seq<nat>)
    requires |sorted| >= 1 && forall b :: b in sorted ==> |b.key| == |top|
    ensures ChainUpTo(sorted, top, chosen, 0)
  {
    chosen := [|sorted| - 1];
    var alpha := top;
    var i: nat := |sorted| - 1;
    ChainStart(sorted, top);
    while i > 0
      invariant i <= |sorted| - 1 && ChainUpTo(sorted, top, chosen, i)
      invariant alpha == Current(sorted, top, chosen, |chosen| - 1)
      decreases i
    {
      i := i - 1;
      assert sorted[i] in sorted;
      if Accepts(alpha, sorted[i].key) {
        ChainAccept(sorted, top, chosen, i);
        chosen := chosen + [i];
        alpha := sorted[i].key;
      } else {
        ChainReject(sorted, top, chosen, i);
      }
    }
  }

  /** `[sol[1] for sol in reversed(solution)]`: the accepted points, earliest key first. */
  function ChainPoints(sorted: seq<Border>, chosen: seq<nat>): (curve: seq<Coords>)
    requires forall q :: 0 <= q < |chosen| ==> chosen[q] < |sorted|
    ensures |curve| == |chosen|
    ensures forall q :: 0 <= q < |chosen| ==> curve[q] == sorted[chosen[|chosen| - 1 - q]].point
  {
    seq(|chosen|, q requires 0 <= q < |chosen| => sorted[chosen[|chosen| - 1 - q]].point)
  }

  /** The key `[1] * l` of the start border. */
  function StartKey(l: nat): seq<real>
  {
    Ones(l)
  }

  /** The key `[T[i].points for i in range(l)]` of the end border. */
  function EndKey(T: seq<Curve>): (key: seq<real>)
    ensures |key| == |T|
  {
    seq(|T|, i requires 0 <= i < |T| => |T[i]| as real)
  }

  /** `[T[i].points - 1 for i in range(l)]`: the last segment of every curve. */
  function LastSegments(T: seq<Curve>): (alpha: seq<nat>)
    requires WellFormed(T)
    ensures Valid(T, alpha)
  {
    seq(|T|, i requires 0 <= i < |T| => |T[i]| - 1)
  }

  /**
   * The outcome of the start or end program, when it settles the answer: an exception or
   * `(False,)`.  An optimal status without a witness also ends the model's run, as
   * `Failed`, where the code goes on with the missing point.
   */
  function Settles(r: PointResult): Option<Outcome>
  {
    match r
    case PointFailed => Some(Failed)
    case PointDone(optimal, x) => if !optimal then Some(Infeasible) else if x.None? then Some(Failed) else None
  }

  /** What the solver makes of the start program: every curve at its first point. */
  function StartResult(T: seq<Curve>, radii: seq<real>, conelp: ConeProgram -> SolverResult): PointResult
    requires WellFormed(T) && |radii| >= |T|
  {
    PointOutcome(conelp(IntersectionProgram(T, radii, Filled(|T|, 1), Zs(|T|))))
  }

  /** What the solver makes of the end program: every curve at its last point. */
  function EndResult(T: seq<Curve>, radii: seq<real>, conelp: ConeProgram -> SolverResult): PointResult
    requires WellFormed(T) && |radii| >= |T|
  {
    PointOutcome(conelp(IntersectionProgram(T, radii, LastSegments(T), Ones(|T|))))
  }

  /**
   * The borders of `curve_within_radii` after `_compute_borders` from `[1] * l`: the
   * start and end borders, then what the exploration appends, or `failed` when an
   * exception escapes it.
   */
  method CollectBorders(T: seq<Curve>, radii: seq<real>, conelp: ConeProgram -> SolverResult, start: Border, end: Border)
    returns (failed: bool, borders: seq<Border>)
    requires WellFormed(T) && |radii| >= |T| && |start.key| == |T| && |end.key| == |T|
    ensures failed <==> Explore(T, radii, conelp, Filled(|T|, 1), 0, [start, end]).None?
    ensures !failed ==> Explore(T, radii, conelp, Filled(|T|, 1), 0, [start, end]) == Some(borders)
    ensures !failed ==> |borders| >= 2 && forall b :: b in borders ==> |b.key| == |T|
  {
    var explorer := new Explorer(T, radii, conelp, start, end);
    failed := explorer.ComputeBorders(Filled(|T|, 1));
    borders := explorer.borders;
    if !failed {
      KeysHaveLength(explorer);
    }
  }

  /**
   * The end of `curve_within_radii` once the borders are known: sort them by key, walk
   * back from the last one, and find the curve only if the walk ends at the smallest.
   */
  method Assemble(borders: seq<Border>, top: seq<real>) returns (outcome: Outcome, sorted: seq<Border>, chosen: seq<nat>)
    requires |borders| >= 1 && forall b :: b in borders ==> |b.key| == |top|
    ensures multiset(sorted) == multiset(borders) && SortedByKey(sorted)
    ensures ChainUpTo(sorted, top, chosen, 0)
    ensures outcome == if chosen[|chosen| - 1] == 0 then Found(ChainPoints(sorted, chosen)) else Infeasible
  {
    sorted := SortByKey(borders);
    SortByKeySorted(borders);
    forall b | b in sorted
      ensures |b.key| == |top|
    {
      assert b in multiset(borders);
    }
    chosen := BackwardChain(sorted, top);
    if chosen[|chosen| - 1] != 0 {
      outcome := Infeasible;
    } else {
      outcome := Found(ChainPoints(sorted, chosen));
    }
  }

  /**
   * `curve_within_radii(T, radii)`: an exception or `(False,)` as soon as the start or
   * the end program settles it, the end program not even being built when the start one
   * does; otherwise the borders explored from `[1] * l`, sorted by key, are walked back
   * from the last one, and the curve is found only when the walk ends at the smallest
   * border.
   */
  method WithinRadii(T: seq<Curve>, radii: seq<real>, conelp: ConeProgram -> SolverResult)
    returns (outcome: Outcome, borders: seq<Border>, sorted: seq<Border>, chosen: seq<nat>)
    requires WellFormed(T) && |radii| >= |T|
    ensures Settles(StartResult(T, radii, conelp)).Some? ==> outcome == Settles(StartResult(T, radii, conelp)).value
    ensures Settles(StartResult(T, radii, conelp)).None? && Settles(EndResult(T, radii, conelp)).Some? ==>
      outcome == Settles(EndResult(T, radii, conelp)).value
    ensures
      var start, end := StartResult(T, radii, conelp), EndResult(T, radii, conelp);
      Settles(start).None? && Settles(end).None? ==>
      var explored := Explore(T, radii, conelp, Filled(|T|, 1), 0, [Border(StartKey(|T|), start.x.value), Border(EndKey(T), end.x.value)]);
      (outcome.Failed? <==> explored.None?) &&
      (explored.Some? ==>
        explored == Some(borders) &&
        multiset(sorted) == multiset(borders) && SortedByKey(sorted) &&
        ChainUpTo(sorted, EndKey(T), chosen, 0) &&
        outcome == if chosen[|chosen| - 1] == 0 then Found(ChainPoints(sorted, chosen)) else Infeasible)
    ensures outcome.Found? ==> Settles(StartResult(T, radii, conelp)).None? && Settles(EndResult(T, radii, conelp)).None?
  {
    borders, sorted, chosen := [], [], [];
    var l := |T|;
    var start := IntersectionPoint(T, radii, Filled(l, 1), Zs(l), conelp);
    var settled := Settles(start);
    if settled.Some? {
      return settled.value, borders, sorted, chosen;
    }
    var end := IntersectionPoint(T, radii, LastSegments(T), Ones(l), conelp);
    settled := Settles(end);
    if settled.Some? {
      return settled.value, borders, sorted, chosen;
    }
    var failed;
    failed, borders := CollectBorders(T, radii, conelp, Border(StartKey(l), start.x.value), Border(EndKey(T), end.x.value));
    if failed {
      return Failed, borders, sorted, chosen;
    }
    outcome, sorted, chosen := Assemble(borders, EndKey(T));
  }

  /** Every border the explorer holds has one key entry per curve. */
  lemma KeysHaveLength(e: Explorer)
    requires e.Inv() && |e.borders| >= 2 && |e.borders[0].key| == |e.T| && |e.borders[1].key| == |e.T|
    ensures forall b :: b in e.borders ==> |b.key| == |e.T|
  {
    forall b | b in e.borders
      ensures |b.key| == |e.T|
    {
      var i :| 0 <= i < |e.borders| && e.borders[i] == b;
      if i >= 2 {
        RecordedKey(e.T, e.radii, e.conelp, e.cells[i - 2], b);
      }
    }
  }
}
