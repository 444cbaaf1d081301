# Fred: a verified model of its combinatorial core

Fred computes Fréchet distances between polygonal curves and clusters curves by them. Under
its floating-point geometry sits a good deal of index and table logic:
- dynamic programs over point pairs;
- a greedy walk and a bisection on the distance;
- minimum-error and minimum-link simplification;
- farthest-first traversal and swap-based local search;
- a mixed-radix grid enumeration;
- the ball-stabbing and cell-border searches behind the approximate Fréchet median.

This project models that logic in Dafny over exact `real` arithmetic and proves what the code
promises about it. The numeric primitives the logic calls are parameters of the model (oracles):
- square roots;
- Fréchet distances of subcurves to segments;
- free-space intervals;
- ball containment;
- the cone-program solver;
- the global optimizer;
- random draws.

Each source file becomes one module, in the form the source has. Code that fills tables and
updates counters becomes methods with loops, proved against specification functions. Objects
updated in place become classes. Pure code becomes functions and lemmas.

| file | module | what it holds |
|---|---|---|
| common.dfy | `Wrappers`, `ExtReals`, `Arith` | `Option`; `distance_t` as a real extended by infinity, with `std::min`/`std::max`; small arithmetic helpers |
| points.dfy | `Points` | `Point` arithmetic: copying operators as functions on coordinate sequences; `+=`, `-=`, `/=` on a `Point` object; `dist_sqr`, `length_sqr` and the dot product as loops proved against recursive sums |
| interval.dfy | `Intervals` | the `Interval` value type: emptiness below machine epsilon, closed overlap, lexicographic `<` |
| frechet.dfy | `Frechet` | the memoised discrete Fréchet recursion; the greedy two-index upper bound; the bisection on the distance; the free-space reachability tables of `_lessThan` |
| dtw.dfy | `DynamicTimeWarping` | the dynamic time warping table |
| min_error_dp.dfy | `MinErrorDp` | the minimum-error dynamic program shared by the two shortcut graphs: tables, first-argmin predecessors, backtracking and optimality |
| shortcut_graph.dfy | `ShortcutGraph` | `Simplification::Subcurve_Shortcut_Graph` (include/simplification.hpp) |
| subcurve_graph.dfy | `CurveGraph` | `Subcurve_Graph` (include/graph.hpp) |
| simplification.dfy | `ApproximateSimplification` | approximate minimum-link simplification (exponential then binary search); approximate minimum-error simplification (bisection on epsilon, then padding) |
| cluster_costs.dfy | `ClusterCosts` | the clustering objectives as functions: cost of a curve, nearest center, farthest curve, cost sum, buckets, greedy centers, the strict-improvement swap search and its termination measure |
| clustering.dfy | `Clustering` | include/clustering.hpp: the distance cache with its `-1` sentinel, assignment, Gonzalez with Arya's local search, both 1-median heuristics |
| kl_cluster.dfy | `KlCluster` | src/clustering.cpp: `Clustering_Result` and `kl_cluster` with its persistent simplification slots |
| grid.dfy | `CubeGrid` | `Grid::build_cube_grid`: axis coordinates and the odometer |
| hd_fs.dfy | `CellBorders` | Fred/hd_fs.py: the cone programs of `_intersection_point` and `_cellborder`, the depth-first border exploration, the sort and the backward chain of `curve_within_radii` |
| stabbing.dfy | `Stabbing` | Fred/stabbing.py: `rejection_sampling`, `unit_vector`, `f`, `compute_stabber`, `is_stabbable` and the window loop of `stabbing_path` |
| median.dfy | `Median` | Fred/median.py `frechet_median`: multiplicities, radius grids, pruning, candidate collection and argmin selection |

py/Fred/median.py holds the same `frechet_median` as Fred/median.py, nine lines earlier:
py/Fred/median.py:8-47 is Fred/median.py:17-56. `Median` models both; the table below cites
Fred/median.py.

Two files model the same shortcut graph, include/simplification.hpp and include/graph.hpp.
Both rest on `MinErrorDp`, and each keeps its own class, constructor, query and reconstruction
loop. The C++ headers and sources come from different revisions, so each file is modelled as
it is written.

## Model

One row per modelled member. The source column cites the lines the member models. The last column says what its contract states.

| member | source | states |
|---|---|---|
| Points.Add | include/point.hpp:61-68 | `operator+`: the coordinate-wise sum, as long as the left operand |
| Points.Sub | include/point.hpp:70-77 | `operator-`: the coordinate-wise difference, as long as the left operand |
| Points.Scale | include/point.hpp:79-86 | `operator*(mult)`: every coordinate multiplied by the factor |
| Points.Divide | include/point.hpp:96-103 | `operator/(dist)`: every coordinate divided by a non-zero divisor |
| Points.AddSubCancel | include/point.hpp:61-77 | subtracting what was added gives the point back: `(p + q) - q == p` |
| Points.DivideIsScale | include/point.hpp:79-103 | dividing by `d` is multiplying by `1/d` |
| Points.SqDistNonNegative | include/point.hpp:105-113 | `dist_sqr` is never negative |
| Points.SqLengthNonNegative | include/point.hpp:119-125 | `length_sqr` is never negative |
| Points.InnerPrefix | include/point.hpp:88-94 | the dot product reads only as many coordinates of the right operand as the left one has |
| Points.SqDistPrefix | include/point.hpp:105-113 | `dist_sqr` reads only as many coordinates of the argument as the point has |
| Points.InnerCommutes | include/point.hpp:88-94 | the dot product of two points of equal dimension is symmetric |
| Points.SqLengthIsInner | include/point.hpp:119-125 | `length_sqr` is the dot product of the point with itself |
| Points.SqDistSymmetric | include/point.hpp:105-113 | `dist_sqr` is symmetric for points of equal dimension |
| Points.SqDistSelf | include/point.hpp:105-113 | the squared distance of a point to itself is 0 |
| Points.SqDistIsSqLengthOfDifference | include/point.hpp:105-125 | `p.dist_sqr(q) == (p - q).length_sqr()` |
| Points.SqLengthScale | include/point.hpp:79-125 | scaling by `c` scales `length_sqr` by `c * c` |
| Points.Point.constructor | include/point.hpp:26 | the point holds the given coordinates |
| Points.Point.AddAssign | include/point.hpp:40-45 | `+=` leaves the coordinate-wise sum in place (the argument may be the point itself) |
| Points.Point.SubAssign | include/point.hpp:47-52 | `-=` leaves the coordinate-wise difference in place |
| Points.Point.DivAssign | include/point.hpp:54-59 | `/=` divides every coordinate in place |
| Points.Point.Dot | include/point.hpp:88-94 | the accumulating loop returns the dot product |
| Points.Point.DistSqr | include/point.hpp:105-113 | the accumulating loop returns the squared distance, which is non-negative |
| Points.Point.LengthSqr | include/point.hpp:119-125 | the accumulating loop returns the squared length, the dot product of the point with itself |
| Intervals.Interval.Begin | include/interval.hpp:44-46 | `begin()` returns the stored start |
| Intervals.Interval.End | include/interval.hpp:48-50 | `end()` returns the stored end |
| Intervals.Interval.Reset | include/interval.hpp:52-55 | `reset()` gives the default interval `[1, 0]`, which is empty |
| Intervals.Default | include/interval.hpp:23 | the default interval is `[1, 0]` and is empty |
| Intervals.BeginEndRoundTrip | include/interval.hpp:25-50 | the two-argument constructor is read back unchanged |
| Intervals.IsEmptyIffNarrow | include/interval.hpp:31-34 | `is_empty()` holds exactly when `end - begin` is below the epsilon of `parameter_t` (`long double`, 2^-63) |
| Intervals.NonEmptyIsProper | include/interval.hpp:31-34 | a non-empty interval has `begin < end` with a gap of at least the `long double` epsilon 2^-63 |
| Intervals.IntersectsIffOverlap | include/interval.hpp:36-42 | `intersects` holds exactly for two non-empty intervals with `max(begins) <= min(ends)` |
| Intervals.IntersectsSymmetric | include/interval.hpp:36-42 | `intersects` is symmetric |
| Intervals.LessIrreflexive | include/interval.hpp:27-29 | `operator<` is irreflexive |
| Intervals.LessTransitive | include/interval.hpp:27-29 | `operator<` is transitive |
| Intervals.LessTotal | include/interval.hpp:27-29 | any two distinct intervals are ordered one way, a strict lexicographic order |
| DynamicTimeWarping.Distance | src/dynamic_time_warping.cpp:27-44 | the table loop returns the last entry of the recursive warping table `Cell(n, m)` |
| DynamicTimeWarping.Step | src/dynamic_time_warping.cpp:34-35 | one cell is its pair's cost plus the least of its three predecessors, and the fill front advances by one cell |
| DynamicTimeWarping.FirstColumnIsPrefixSum | src/dynamic_time_warping.cpp:30-35 | the first inner column holds prefix sums of the costs against the first point of `curve2` |
| DynamicTimeWarping.FirstRowIsPrefixSum | src/dynamic_time_warping.cpp:30-35 | the first inner row holds prefix sums of the costs against the first point of `curve1` |
| DynamicTimeWarping.InnerCellsFinite | src/dynamic_time_warping.cpp:30-35 | every inner cell is finite, although the border is infinite |
| DynamicTimeWarping.CellCoversOwnCost | src/dynamic_time_warping.cpp:34-35 | with non-negative costs an inner cell is at least its own pair's cost |
| DynamicTimeWarping.CellSymmetric | src/dynamic_time_warping.cpp:30-35 | exchanging the curves transposes the table: the distance is symmetric |
| DynamicTimeWarping.LineCostIsRoot | src/dynamic_time_warping.cpp:34 | on the line the pair cost is the non-negative root of the squared distance |
| DynamicTimeWarping.CellFrom | src/dynamic_time_warping.cpp:34-35 | an inner cell is its cost plus the minimum of its three predecessors |
| DynamicTimeWarping.ZigzagExample | test/test.py:35-39 | `[0,1,0,1]` against `[0,0.75,0.25,1]` warps at cost 0.5 |
| DynamicTimeWarping.SegmentExample | test/test.py:35-40 | `[0,1,0,1]` against `[0,1]` warps at cost 1 |
| DynamicTimeWarping.LongSegmentExample | test/test.py:42-45 | `[0,5e5,1e6]` against `[0,1e6]` warps at cost 5e5 |
| Frechet.PairOf | src/frechet.cpp:199-203 | the pair's lengths are the curves' lengths and each entry is the squared distance `curve1[i].dist_sqr(curve2[j])` |
| Frechet.PairOfValid | src/frechet.cpp:199-203 | two non-empty curves of one dimension give a valid pair with non-negative squared distances |
| Frechet.PairOfTransposed | src/frechet.cpp:199-203 | swapping the curves transposes the squared distances |
| Frechet.PrefixDistCoversEnds | src/frechet.cpp:199-212 | the prefix distance is at least the distance of its first pair and of its last pair |
| Frechet.PrefixDistSymmetric | src/frechet.cpp:199-212 | the recurrence of `_dp` gives the same value with the curves swapped |
| Frechet.SymmetricStep | src/frechet.cpp:204-211 | the interior case of the symmetry: min of the three predecessors, max with the pair |
| Frechet.DiscreteDistSymmetric | src/frechet.cpp:215-225 | the discrete Fréchet distance does not depend on the order of the curves |
| Frechet.StepBound | src/frechet.cpp:204-211 | one coupling step raises the prefix distance to at most the larger of the old value and the new pair's distance |
| Frechet.Dp | src/frechet.cpp:199-213 | the memoised recursion returns the recurrence's value and keeps every memo entry `-1` or correct |
| Frechet.DiscreteDistance | src/frechet.cpp:215-225 | a fresh `-1` table and `_dp` at the far corner give the squared discrete distance, at least the first and last pair's |
| Frechet.Line | test/test.py:21-31 | a one-dimensional curve through the given values |
| Frechet.LineDist | test/test.py:21-31 | on the line the squared distance of two points is their squared difference |
| Frechet.ZigzagExample | test/test.py:21-25 | `[0,1,0,1]` against `[0,0.75,0.25,1]` has discrete distance 0.25 |
| Frechet.SegmentExample | test/test.py:21-26 | `[0,1,0,1]` against `[0,1]` has discrete distance 1 |
| Frechet.LongSegmentExample | test/test.py:28-31 | `[0,5e5,1e6]` against `[0,1e6]` has discrete distance 5e5 |
| Frechet.Next | src/frechet.cpp:46-63 | one greedy step stays on the curves and advances the first curve, the second or both |
| Frechet.Walk | src/frechet.cpp:40-63 | the greedy walk starts at the given pair, ends at the last pair and stays on the curves |
| Frechet.WalkMonotone | src/frechet.cpp:46-63 | the greedy walk is a coupling: every step advances one curve or both |
| Frechet.Bottleneck | src/frechet.cpp:41-63 | the running maximum of `_greedyUpperBound` is non-negative |
| Frechet.BottleneckCovers | src/frechet.cpp:47-63 | the running maximum is at least the distance of each visited pair |
| Frechet.WalkBoundsPrefixDist | src/frechet.cpp:40-63 | along the walk the prefix distance is bounded by the walk's bottleneck: a coupling never beats the optimum |
| Frechet.GreedyBoundIsUpperBound | src/frechet.cpp:22-66 | the corrected greedy bound is at least the squared discrete distance and at least the lower bound of `distance` |
| Frechet.GreedyAsWrittenBelowLowerBound | src/frechet.cpp:46-63 | as written, for `[0,10]` against `[0,0]` the bound is 0 while the last pair is 10 apart |
| Frechet.GreedyUpperBoundAsWritten | src/frechet.cpp:40-66 | the loops as written compute the maximum over every visited pair but the final one |
| Frechet.GreedyStep | src/frechet.cpp:47-58 | one pass of the `while` body moves to the closest neighbour pair, ties in the code's order |
| Frechet.GreedyTail1 | src/frechet.cpp:61 | the first tail loop walks the first curve to its last point, tracking the running maximum |
| Frechet.GreedyTail2 | src/frechet.cpp:63 | the second tail loop walks the second curve, ending with the maximum over the walk but its final pair |
| Frechet.GreedyUpperBound | src/frechet.cpp:40-66 | the corrected loops include the final pair, and the result bounds the squared discrete distance |
| Frechet.Visit | src/frechet.cpp:46-63 | visiting one pair of the walk takes its distance into the running maximum and continues the walk |
| Frechet.Reach1 | src/frechet.cpp:143-175 | a finite `reachable1` entry past the first column lies within its free interval |
| Frechet.Reach2 | src/frechet.cpp:147-185 | a finite `reachable2` entry past the first row lies within its free interval |
| Frechet.LessThanBelowLowerBound | src/frechet.cpp:117 | no distance below the first or the last pair's distance passes `_lessThan` |
| Frechet.Fill | src/frechet.cpp:119-141 | the reset loops set every entry of a table |
| Frechet.LessThan | src/frechet.cpp:108-192 | `_lessThan` answers whether the last cell is reachable (false at once for a far first or last pair) and leaves every table filled |
| Frechet.IntervalRadiusAsWrittenSquaresTwice | src/frechet.cpp:114-160 | as written, `intersection_interval` receives `dist_sqr` and squares it again, so above distance 1 it measures against more than `dist_sqr`, and at 0.5 against 0.0625 instead of 0.25 |
| Frechet.IntervalRadius | src/frechet.cpp:114-160 | the radius meant for a distance makes `intersection_interval` measure against `dist_sqr`, the same bound as the end points and the boundary loops |
| Frechet.FreeIntervals | src/frechet.cpp:152-162 | the interval loops store the free interval of every cell the propagation reads |
| Frechet.Propagate | src/frechet.cpp:164-187 | the propagation loops fill both reachability tables cell by cell in row-major order |
| Frechet.PropagateCell1 | src/frechet.cpp:166-175 | one `reachable1` cell: entered from below at the interval's start, or from the left at the larger parameter |
| Frechet.PropagateCell2 | src/frechet.cpp:176-185 | one `reachable2` cell, the same with the roles of the curves exchanged |
| Frechet.Borders | src/frechet.cpp:143-150 | the boundary loops set 0 up to the first point farther than the distance from the other curve's first point |
| Frechet.RoundMillis | src/frechet.cpp:100 | rounding to three decimals moves a value by at most 0.0005 |
| Frechet.Bisect | src/frechet.cpp:68-106 | the bisection leaves `ub` traversable and `lb` not (or at their initial values), at most `eps` apart after exactly `searches` halvings, and returns the rounded midpoint |
| Frechet.BisectStep | src/frechet.cpp:85-93 | one round keeps the half that `_lessThan` at the midpoint selects |
| Frechet.DistanceAsWritten | src/frechet.cpp:22-38 | with bounds already within `eps` (also when the upper bound is below the lower one) no search is made and the rounded midpoint is returned |
| Frechet.Distance | src/frechet.cpp:22-38 | with the corrected bound the result lies between the lower and upper bound up to rounding and brackets a traversable distance |
| Frechet.DistanceAsWrittenBelowLowerBound | src/frechet.cpp:22-38 | for `[0,10]` against `[0,0]` the code as written returns 5, below the lower bound 10 |
| Frechet.DpInterior | src/frechet.cpp:204-211 | an interior cell gets the larger of its own distance and the least of its three predecessors, and the table stays `-1` or correct everywhere |
| Frechet.Memoise | src/frechet.cpp:205-210 | storing a correct prefix distance keeps every table entry `-1` or correct |
| Frechet.PrefixDistInterior | src/frechet.cpp:205-210 | an interior prefix distance combines the three predecessor values as the recursion does |
| Frechet.NewMemo | src/frechet.cpp:218 | the fresh table holds `-1` everywhere, so no entry claims a value |
| Frechet.GreedyHead | src/frechet.cpp:46-58 | the `while` loop stops with one curve at its last point, on the greedy walk, holding the maximum over the pairs before it |
| Frechet.ColumnStep | src/frechet.cpp:61 | one round of the first tail loop takes the current pair into the maximum and moves one pair along the walk |
| Frechet.RowStep | src/frechet.cpp:63 | one round of the second tail loop takes the current pair into the maximum and moves one pair along the walk |
| Frechet.VisitLastColumn | src/frechet.cpp:61 | with the second curve at its last point, the walk's next pair advances the first curve and the maximum grows by the current pair |
| Frechet.VisitLastRow | src/frechet.cpp:63 | with the first curve at its last point, the walk's next pair advances the second curve and the maximum grows by the current pair |
| Frechet.WalkEnds | src/frechet.cpp:63-65 | at the final pair of both curves one position of the walk remains, so the maximum so far leaves out exactly the final pair |
| Frechet.MonotoneCons | src/frechet.cpp:46-63 | a step that advances one curve or both, in front of a coupling, gives a coupling |
| Frechet.BisectLoop | src/frechet.cpp:84-97 | the loop ends with a bracket at most `eps` wide, reached by exact halvings, with `ub` traversable or initial and `lb` not traversable or initial |
| Frechet.BisectAdvance | src/frechet.cpp:85-93 | keeping the half `_lessThan` selects is one more exact halving and keeps what both ends satisfy |
| MinErrorDp.Best | include/simplification.hpp:98 | `std::min_element` over the `j` candidates returns an index below `j` |
| MinErrorDp.Walk | include/simplification.hpp:106-114 | the walk of the reconstruction holds `l + 1` vertices and starts at the last vertex |
| MinErrorDp.Reverse | include/simplification.hpp:116 | `std::reverse` keeps the length and puts entry `t` at `|s| - 1 - t` |
| MinErrorDp.Path | include/simplification.hpp:106-116 | the reversed walk holds `l + 1` vertices |
| MinErrorDp.Pick | include/simplification.hpp:108-112 | the reconstructed points are the curve's points at the walk's vertices |
| MinErrorDp.BestIsFirstArgmin | include/simplification.hpp:92-98 | the chosen predecessor attains the least `max(distances[k][i-1], edges[k][j])` and every earlier `k` is strictly worse |
| MinErrorDp.FirstArgminUnique | include/simplification.hpp:98 | any first index of a minimum is the one `std::min_element` returns |
| MinErrorDp.DistIsMinimum | include/simplification.hpp:88-101 | above level 0, `distances[j][i]` is the minimum over `k < j` of the error through `k`, attained at `predecessors[j][i] < j` |
| MinErrorDp.DistFiniteIff | include/simplification.hpp:69-101 | with finite shortcuts, vertex `j` is reachable with `i + 1` edges exactly when `j > i` |
| MinErrorDp.WalkBounded | include/simplification.hpp:106-114 | every vertex of the walk lies at or before its start, and it ends at vertex 0 |
| MinErrorDp.PathInRange | include/simplification.hpp:106-116 | every vertex of the reconstructed path is a vertex of the curve |
| MinErrorDp.WalkDescends | include/simplification.hpp:106-114 | from a reachable vertex the walk descends strictly to vertex 0, so the simplification's vertices are distinct and in curve order |
| MinErrorDp.WalkStep | include/simplification.hpp:109-113 | each step of the walk reads the predecessor one level further down |
| MinErrorDp.PathAscends | include/simplification.hpp:106-116 | the reconstructed path, read first to last, visits vertices in strictly increasing order |
| MinErrorDp.SimplificationEnds | include/simplification.hpp:104-118 | the simplification has `ll` points, from the curve's first point to its last |
| MinErrorDp.ReversePick | include/simplification.hpp:112-116 | reversing the picked points is picking the reversed vertices |
| MinErrorDp.ReverseInvolution | include/simplification.hpp:116 | reversing twice gives the sequence back |
| MinErrorDp.ReverseCons | include/simplification.hpp:116 | reversing `[x] + s` appends `x` to the reversed `s` |
| MinErrorDp.BottleneckSnoc | include/simplification.hpp:94 | extending a path by one vertex takes the larger of its error and the new shortcut |
| MinErrorDp.DistIsAttained | include/simplification.hpp:69-116 | the reconstructed path runs from vertex 0 to `j` and its largest shortcut is exactly `distances[j][i]` |
| MinErrorDp.AttainedStep | include/simplification.hpp:94-101 | one level of that: the path to `j` is the path to its predecessor followed by `j` |
| MinErrorDp.DistIsOptimal | include/simplification.hpp:75-104 | no path of `i + 2` vertices from vertex 0 to `j` has a smaller largest shortcut than `distances[j][i]` |
| MinErrorDp.SimplificationIsMinimumError | include/simplification.hpp:56-118 | for `2 < ll < complexity` the result has `ll` points, keeps both ends, visits vertices in increasing order, and no choice of `ll` vertices from first to last has a smaller error |
| MinErrorDp.WalkFollowsTable | include/simplification.hpp:106-114 | a predecessor table holding the program's values yields the walk: each vertex is the recorded predecessor of the previous one, one level down |
| MinErrorDp.CollectedIsReversed | include/simplification.hpp:106-116 | the points collected back to front are the simplification reversed |
| MinErrorDp.FillTables | include/simplification.hpp:69-104 | the filling loops leave every `distances` and `predecessors` entry equal to the dynamic program's value |
| MinErrorDp.FillCell | include/simplification.hpp:88-101 | one cell above level 0: the minimum of the candidate errors and its first index |
| MinErrorDp.MinElement | include/simplification.hpp:98 | `std::min_element` returns the first index of a smallest entry |
| ShortcutGraph.SubcurveShortcutGraph.constructor | include/simplification.hpp:33-54 | the edge table holds the shortcut weight for `i < j` and infinity elsewhere |
| ShortcutGraph.SubcurveShortcutGraph.WeakMinimumErrorSimplification | include/simplification.hpp:56-118 | the result is the minimum-error simplification with `ll` vertices, the curve itself for `ll >= complexity` and its two ends for `ll <= 2` |
| ShortcutGraph.Backtrack | include/simplification.hpp:106-116 | the reconstruction loop collects the minimum-error path back to front |
| ShortcutGraph.LevelsReadAsWritten | include/simplification.hpp:106-113 | as written, the last predecessor read uses level `SIZE_MAX`, after `ell` wraps below 0 |
| CurveGraph.SubcurveGraph.constructor | include/graph.hpp:31-45 | the edge table holds the shortcut weight for `i < j` and infinity elsewhere |
| CurveGraph.SubcurveGraph.WeakMinimumErrorSimplification | include/graph.hpp:47-105 | the same minimum-error simplification, with `std::max`'s arguments in the other order |
| CurveGraph.Backtrack | include/graph.hpp:94-103 | the `while` reconstruction collects the minimum-error path back to front |
| CurveGraph.LevelsReadAsWritten | include/graph.hpp:94-100 | as written, the last predecessor read uses level `0 - 1`, which wraps to `SIZE_MAX` |
| ApproximateSimplification.MinLinkSimplification | src/simplification.cpp:13-64 | the result is a chain of the curve's vertices from the first to the last, in increasing order, with every shortcut within `epsilon`; with every shortcut within `epsilon` it is the single segment; when every shortcut over one vertex from an even-numbered vertex exceeds `epsilon`, it keeps every vertex |
| ApproximateSimplification.MinLinkRound | src/simplification.cpp:24-62 | one round of the loop moves strictly forward and appends the new vertex, keeping the chain and the single-segment and one-vertex-per-round cases |
| ApproximateSimplification.NextVertex | src/simplification.cpp:25-59 | one round moves to a later vertex, at most the last, whose shortcut is within `epsilon`; after a probe beyond `epsilon`, or when the shortcut over the next vertex fails, it moves by exactly one vertex |
| ApproximateSimplification.SingleStepsNext | src/simplification.cpp:24-62 | a round that starts at an even-numbered vertex with the last probe within `epsilon`, or at an odd one after a failed probe, moves one vertex and alternates the two states |
| ApproximateSimplification.DoublingSearch | src/simplification.cpp:27-39 | no probe when the carried distance already exceeds `epsilon`; otherwise every probe but the last was within `epsilon`, including the first (two vertices ahead) once `j >= 2`, and the last is past the curve or beyond `epsilon` |
| ApproximateSimplification.BinarySearch | src/simplification.cpp:41-57 | the binary search returns an offset in `[low, high]`, at least 1, whose shortcut is within `epsilon`, and `high` itself when every shortcut is; over `[0, 1]` it returns 1, and over `[0, 2]` with a failing shortcut at 2 it returns 1 with that failed probe as the carried distance |
| ApproximateSimplification.LowStartAsWritten | src/simplification.cpp:43 | the start of the binary search is defined for `1 <= j < 65` |
| ApproximateSimplification.SkippedDoublingHasNoStart | src/simplification.cpp:27-43 | for `j == 0` the exponent `j - 1` wraps to `SIZE_MAX` and the start is undefined |
| ApproximateSimplification.GrowRadius | src/simplification.cpp:74-81 | the doubling loop ends with a radius at least the initial one whose simplification is a chain of at most `ell` vertices; the radius is unchanged when it already bounds every shortcut |
| ApproximateSimplification.DoubledReaches | src/simplification.cpp:78-81 | doubling a positive radius below a bound can happen only a bounded number of times |
| ApproximateSimplification.DoubledScales | src/simplification.cpp:79 | doubling `k` times multiplies by `2^k` |
| ApproximateSimplification.Bisection | src/simplification.cpp:83-93 | the bisection keeps the last probe with at most `ell` vertices, a chain within the final upper radius; if none is kept the initial simplification is returned; none is kept when the curve has more than `ell` vertices and, for every radius in the bracket, every shortcut over one vertex from an even-numbered vertex exceeds it |
| ApproximateSimplification.Pad | src/simplification.cpp:95-99 | padding repeats the last vertex up to exactly `ell` vertices and keeps the prefix; it fails exactly when the curve to pad is empty |
| ApproximateSimplification.MinErrorSimplificationAsWritten | src/simplification.cpp:66-101 | as written, for `ell > 2` the result is undefined exactly when no bisection probe was kept, since the bisection starts from an empty curve; in particular it is undefined when the curve has more than `ell` vertices, the initial radius (discrete distance plus 1) bounds every shortcut, and every shortcut over one vertex from an even-numbered vertex is at least that radius |
| ApproximateSimplification.EmptySeedExample | src/simplification.cpp:66-101 | on the curve `[0, 2, 0, 1]` with `ell = 3` the discrete distance to the end segment is 1 and, with the corrected minimum-link simplification, every radius below 2 keeps all vertices, which meets the undefined case above; the minimum-link code as written reaches the `j == 0` wrap on this curve first |
| ApproximateSimplification.MinErrorSimplification | src/simplification.cpp:66-101 | the two end points for `ell <= 2`; otherwise exactly `ell` vertices: a chain from the first to the last vertex within the final radius, padded with the last vertex; that radius is at most the radius `grown` the doubling loop reached, which is at least `discrete + 1` and exactly that when every shortcut is within `discrete + 1` |
| ClusterCosts.NearestIsFirstMinimum | include/clustering.hpp:66-99 | with centers, a curve's cost is its least distance to a center, attained at `nearest_center`'s position, and every earlier center is strictly farther |
| ClusterCosts.NoCentersCostInfinity | include/clustering.hpp:68-71 | without centers a curve costs infinity and its nearest center is position 0 |
| ClusterCosts.FarthestIsFirstMaximum | include/clustering.hpp:152-166 | the farthest-curve scan returns the largest cost (at least 0) at the first curve attaining it, 0 when no cost is positive |
| ClusterCosts.SumCostFinite | include/clustering.hpp:101-111 | with at least one center the cost sum is finite and non-negative |
| ClusterCosts.MembersPartition | include/clustering.hpp:113-125 | a curve is in bucket `c` exactly when its nearest center is `c`, and each bucket is increasing |
| ClusterCosts.CostOverExtend | include/clustering.hpp:150-171 | adding a center never raises a curve's cost and bounds it by the distance to the new center |
| ClusterCosts.GreedyCenters | include/clustering.hpp:138-173 | the greedy list starts at the first center and holds one center per round |
| ClusterCosts.FarthestAttained | include/clustering.hpp:152-166 | the farthest curve is one of the curves and its cost is the reported maximum |
| ClusterCosts.GreedyCentersAreFarthestFirst | include/clustering.hpp:150-173 | every center after the first is a farthest curve from the earlier centers, and every curve before it is strictly nearer |
| ClusterCosts.GreedyRadiusBoundsCosts | include/clustering.hpp:150-173 | the reported radius is the last center's cost and bounds every curve's cost against all the centers |
| ClusterCosts.InConfigSet | include/clustering.hpp:184-209 | every center list over the curves is one of the finitely many lists of its length |
| ClusterCosts.ImprovementShrinks | include/clustering.hpp:184-209 | a strict improvement removes the new list from the finite set of cheaper lists, so the swap search terminates |
| ClusterCosts.Swap | include/clustering.hpp:197 | the swapped list replaces the center at position `i` by `j` and keeps the others |
| ClusterCosts.SwapsTriedStep | include/clustering.hpp:188-207 | a position without an improving swap extends the positions tried |
| ClusterCosts.RunningMin | include/clustering.hpp:247-266 | the running minimum's position is one of the values |
| ClusterCosts.RunningMinStep | include/clustering.hpp:262-265 | one more value replaces the running minimum exactly when it is strictly smaller |
| ClusterCosts.RunningMinIsFirstMinimum | include/clustering.hpp:247-266 | the running minimum is the smallest value, at its first position |
| Clustering.NewCache | include/clustering.hpp:143 | the distance cache starts with every entry unset (`-1`) |
| Clustering.CheapDist | include/clustering.hpp:57-64 | afterwards both `[i][j]` and `[j][i]` hold the distance; nothing changes when it was set; no other entry changes |
| Clustering.NearestCenter | include/clustering.hpp:66-82 | returns the position of the first nearest center, 0 without centers |
| Clustering.CurveCost | include/clustering.hpp:84-99 | returns the curve's least distance to a center, infinity without centers |
| Clustering.CenterCostSum | include/clustering.hpp:101-111 | returns the sum of all curves' costs |
| Clustering.EmptyBuckets | include/clustering.hpp:120 | one empty bucket for each center position and no other key |
| Clustering.AppendToBucket | include/clustering.hpp:122 | appending a curve to its nearest center's bucket extends the assignment by that curve |
| Clustering.ClusterAssignment | include/clustering.hpp:113-125 | empty without centers; otherwise bucket `c` lists, in increasing order, exactly the curves whose nearest center is `c` |
| Clustering.FarthestCurve | include/clustering.hpp:152-166 | the scan returns the first curve of largest cost and that cost, starting from `(0, 0)` |
| Clustering.GreedyLoop | include/clustering.hpp:138-173 | the centers are the farthest-first traversal from curve 0 and the value the last scan's maximum |
| Clustering.SwapPass | include/clustering.hpp:188-207 | one position's pass never raises the cost sum, lowers it strictly when it swaps, and without a swap no single swap at that position is cheaper |
| Clustering.SwapGamma | include/clustering.hpp:180 | the integer `1 / (3 k n)` is 0, so any strict improvement is taken |
| Clustering.ZeroDiagonal | include/clustering.hpp:146 | every curve's distance to itself is preset to 0 |
| Clustering.LocalSearch | include/clustering.hpp:176-211 | the swap search ends at a single-swap local optimum whose cost sum is no more than the start's |
| Clustering.Gonzalez | include/clustering.hpp:127-226 | no centers for no curves; otherwise the farthest-first centers and radius, or with `arya` a local optimum no costlier than the traversal, plus the assignment on request |
| Clustering.RowObjective | include/clustering.hpp:295-300 | a candidate's objective is its distance sum to all curves |
| Clustering.OneMedianExhaustive | include/clustering.hpp:280-318 | the center is the first curve of least distance sum and the value that sum; curve 0 at infinity for no curves |
| Clustering.CandidateObjectives | include/clustering.hpp:250-261 | one objective per candidate draw: its distance sum to the witness curves |
| Clustering.SampledMedianIsFirstMinimum | include/clustering.hpp:247-267 | the chosen curve is drawn by a candidate of least objective, and every earlier candidate's objective is larger |
| Clustering.OneMedianSampling | include/clustering.hpp:228-278 | the center is the sampled median and the value its cost sum over all curves |
| Clustering.BestCandidate | include/clustering.hpp:247-266 | the candidate loop returns the sampled median, a curve index |
| Clustering.WitnessObjective | include/clustering.hpp:253-260 | one candidate's objective is its cached distance sum to the witnesses |
| ClusterCosts.SwapSkip | include/clustering.hpp:193-194 | skipping a curve that is already in the working copy keeps the state of the pass |
| ClusterCosts.SwapReplace | include/clustering.hpp:196-204 | putting a curve that is not a center at position `i` keeps the state of the pass, whether or not the copy is taken, and a taken copy lowers the cost sum strictly |
| Clustering.SwapTry | include/clustering.hpp:192-205 | one curve of the swap pass: a curve in the working copy is skipped; otherwise it replaces position `i` and the copy is taken exactly when its cost sum is strictly lower, and the pass state holds for the next curve |
| Clustering.GreedyRound | include/clustering.hpp:150-171 | one round adds the farthest curve from the centers so far, extending the farthest-first traversal by one center, and reports that curve's cost as the radius |
| Clustering.LeastRow | include/clustering.hpp:291-307 | the scan returns the first curve of least distance sum and that sum; with no curves it returns curve 0 and infinity |
| Clustering.LeastRowStep | include/clustering.hpp:303-306 | a curve is taken exactly when its sum is strictly below the best so far, which keeps the first curve of least sum |
| CubeGrid.HalfCount | include/grid.hpp:33 | the number of grid points on each side is the ceiling of `edge_length / width` |
| CubeGrid.AxisAsWritten | include/grid.hpp:37-41 | as written, the axis holds `2h` entries computed with the unsigned negation of `h - i` |
| CubeGrid.Axis | include/grid.hpp:37-41 | the axis holds `2h` entries `(k - h) * width`: `h` negative steps, then 0 and the positive ones |
| CubeGrid.AxisNegationWraps | include/grid.hpp:39 | as written, the first entry is `(SIZE_MAX + 1 - h) * width`, a huge positive value above the centre entry, where `-h * width` is intended |
| CubeGrid.AxisIncreasing | include/grid.hpp:37-41 | consecutive corrected axis entries are `width` apart |
| CubeGrid.Zeros | include/grid.hpp:44 | the counter starts as `dimensions` zeros |
| CubeGrid.Next | include/grid.hpp:54-61 | the counter's increment keeps its length |
| CubeGrid.ValueBound | include/grid.hpp:44-61 | a counter with digits below the base reads as a number below `base^dimensions` |
| CubeGrid.CarryStep | include/grid.hpp:58-60 | a full first digit resets to 0 and carries into the rest |
| CubeGrid.NextValue | include/grid.hpp:54-61 | below the last tuple, one increment adds exactly 1 to the counter's value |
| CubeGrid.ValueInjective | include/grid.hpp:44-61 | two counters of one length with the same value are equal |
| CubeGrid.Counter | include/grid.hpp:44-61 | the counter after `i` increments has `dimensions` digits |
| CubeGrid.CounterValue | include/grid.hpp:44-61 | the counter after `i` increments reads as `i` |
| CubeGrid.ZerosValue | include/grid.hpp:44 | the initial counter reads as 0 |
| CubeGrid.EveryTupleOnce | include/grid.hpp:35-62 | the counters of the `base^dimensions` iterations are pairwise distinct and every digit tuple occurs among them |
| CubeGrid.CarryStart | include/grid.hpp:54 | the carry loop starts in its invariant |
| CubeGrid.CarryMove | include/grid.hpp:58-60 | resetting a full digit moves the carry one digit on |
| CubeGrid.CarryStop | include/grid.hpp:55-57 | incrementing a digit below the maximum completes the increment |
| CubeGrid.Advance | include/grid.hpp:54-61 | the carry loop increments the counter, except after the last point, where the comma operator leaves it unchanged |
| CubeGrid.GridPoint | include/grid.hpp:47-53 | point `i` is the axis entry of each counter digit, shifted by `p` |
| CubeGrid.PointAt | include/grid.hpp:47-53 | the point loop computes that shifted point |
| CubeGrid.BuildCubeGrid | include/grid.hpp:32-65 | the grid holds `(2h)^dimensions` points, one per digit tuple, each being its axis entries shifted by `p` |
| CubeGrid.CarryDigit | include/grid.hpp:55-60 | one digit: incremented when below its largest value, which completes the step, else cleared with the carry moving to the next digit |
| KlCluster.Workspace.constructor | src/clustering.cpp:18 | before the first call the distance matrix and the simplification slots are empty |
| KlCluster.Workspace.Allocate | src/clustering.cpp:123-125 | allocation gives an `n` by `n` matrix and `n` empty simplification slots |
| KlCluster.Workspace.Prepare | src/clustering.cpp:121-141 | a consecutive call on input of the matrix's non-zero size keeps both globals; every other call reallocates them for `n` curves |
| KlCluster.Workspace.EnsureSimplified | src/clustering.cpp:205-208 | a curve's slot is computed only when empty, and no other slot changes |
| KlCluster.EnsureKeepsHolds | src/clustering.cpp:205-208 | filling an empty slot keeps every computed slot and every slot correct |
| KlCluster.Traverse | src/clustering.cpp:185-211 | the greedy loop adds one center per round |
| KlCluster.TraverseFromFirst | src/clustering.cpp:160-211 | from a first center the loop builds the farthest-first center list |
| KlCluster.FarthestWithoutCenters | src/clustering.cpp:187-202 | without centers every curve is infinitely far and the scan picks curve 0 |
| KlCluster.TraverseFromNone | src/clustering.cpp:170-211 | started with no center, the loop first picks curve 0 and then continues as from curve 0 |
| KlCluster.FarthestScan | src/clustering.cpp:187-202 | the scan returns the first curve of largest cost and that cost, starting from `(0, 0)` |
| KlCluster.GreedyLoop | src/clustering.cpp:185-211 | the loop builds the farthest-first list from its start and reports the last scan's maximum, simplifying every chosen center |
| KlCluster.GreedyStep | src/clustering.cpp:187-209 | one round appends the farthest curve, after its simplification is computed |
| KlCluster.GrownTrans | src/clustering.cpp:205-208 | slots that only grow in two steps only grow overall |
| KlCluster.FarthestBelow | src/clustering.cpp:193-200 | the farthest curve is one of the curves |
| KlCluster.FirstCenterAsWritten | src/clustering.cpp:160-175 | as written, a random start pushes the drawn curve, but a fixed start pushes curve 0 only when its slot was empty, and otherwise pushes nothing |
| KlCluster.FirstCenter | src/clustering.cpp:160-175 | the first center is the drawn curve or curve 0, always pushed and simplified |
| KlCluster.MissingFirstCenterLosesOne | src/clustering.cpp:170-211 | without the first center, `k >= 2` requested centers yield only `k - 1` centers, and one requested center yields none |
| KlCluster.KCenterSweep | src/clustering.cpp:229-251 | one sweep takes only swaps whose largest cost is strictly below the cost held, and the working copy is not reset |
| KlCluster.KCenterSearch | src/clustering.cpp:216-254 | the k-center search only takes centers whose largest cost is strictly below the cost it holds |
| KlCluster.MedianGamma | src/clustering.cpp:261 | the integer `1 / (10 k)` is 0, so any strict improvement is taken |
| KlCluster.MedianSweep | src/clustering.cpp:271-299 | one position's sweep never raises the cost sum, lowers it strictly when it swaps, and without a swap no single swap at that position is cheaper |
| KlCluster.MedianSearch | src/clustering.cpp:256-302 | the k-median search ends at a single-swap local optimum whose cost sum is no more than the start's |
| KlCluster.CentersBelow | src/clustering.cpp:304-305 | simplified centers index the slots |
| KlCluster.KCenterPhaseAsWritten | src/clustering.cpp:214-254 | as written, the search starts from the greedy radius and the value stays the radius whatever centers it ends with |
| KlCluster.KCenterPhase | src/clustering.cpp:214-254 | the search starts from the greedy centers' largest cost and reports its own centers' largest cost, never above the greedy one |
| KlCluster.RadiusBaselineAcceptsWorse | src/clustering.cpp:214-247 | on four curves the greedy centers cost 2 but the radius is 10, and the first swap, costing 3, is accepted |
| KlCluster.AppendToSeqBucket | src/clustering.cpp:53-59 | pushing a curve to its nearest center's bucket extends the assignment by that curve |
| KlCluster.AssignToBuckets | src/clustering.cpp:51-59 | one bucket per center, each listing in order the curves whose nearest center it is |
| KlCluster.Positions | src/clustering.cpp:56-57 | `std::iota` builds the positions `0..k-1` |
| KlCluster.CenterCurves | src/clustering.cpp:304-305 | the result's curves are the chosen curves' simplifications, in order |
| KlCluster.ClusteringResult.constructor | src/clustering.cpp:117 | a default result has no centers, indices or buckets |
| KlCluster.ClusteringResult.Set | src/clustering.cpp:33-35 | `set(i, curve)` replaces center `i` only |
| KlCluster.ClusteringResult.ComputeAssignmentAsWritten | src/clustering.cpp:49-61 | a consecutive call on same-sized input assigns by the simplified center indices and keeps the matrix; otherwise the global matrix becomes `n` rows by one column per center and the curves are assigned to the center curves |
| KlCluster.ClusteringResult.ComputeAssignment | src/clustering.cpp:49-61 | the same buckets, with the distances to the center curves kept apart, so the global matrix and slots are left as they were |
| KlCluster.NarrowMatrixReused | src/clustering.cpp:49-61 | after `compute_assignment` with `k < n` centers, a consecutive `kl_cluster` on the same `n` curves passes the reuse check and keeps a matrix of only `k` columns |
| KlCluster.StartCenter | src/clustering.cpp:161-172 | the intended first center is a curve index |
| KlCluster.GreedyPhase | src/clustering.cpp:160-212 | the centers are the farthest-first traversal from the intended first center, with its radius |
| KlCluster.SearchPhases | src/clustering.cpp:216-302 | no search keeps the greedy result; the k-center search never worsens the largest cost; the k-median search ends swap-optimal with the cost sum as value |
| KlCluster.Cluster | src/clustering.cpp:113-313 | corrected `kl_cluster` (the first center always pushed, `FirstCenter`; the k-center value kept current, `KCenterPhase`; see Findings): no centers for no curves; otherwise `max(1, k)` simplified centers with the value of the last phase run, and an `n`-row matrix whose columns are kept on reuse and number `n` otherwise |
| KlCluster.MedianTry | src/clustering.cpp:277-297 | one curve of the sweep: a curve in the working copy is skipped; otherwise its simplification is ensured, it replaces position `i`, and the copy is taken exactly when its cost sum is strictly lower |
| CellBorders.Zs | Fred/hd_fs.py:47 | `n * [0.]`: `n` zeros |
| CellBorders.Ones | Fred/hd_fs.py:97 | `n * [1.]`: `n` ones |
| CellBorders.Filled | Fred/hd_fs.py:9 | `[v] * n`: `n` copies of `v` |
| CellBorders.Unit | Fred/hd_fs.py:80-86 | a list of `n` zeros with `v` at position `k` |
| CellBorders.Neg | Fred/hd_fs.py:56 | the entry-wise negation of a point |
| CellBorders.Lerp | Fred/hd_fs.py:45 | the point at parameter `v` between two points, coordinate by coordinate |
| CellBorders.FlattenLength | Fred/hd_fs.py:50-56 | concatenating blocks of width `w` gives `|blocks| * w` entries |
| CellBorders.SegmentPoints | Fred/hd_fs.py:45 | the two points of a valid lattice position's segment exist and have the curves' dimension |
| CellBorders.IntersectionLines | Fred/hd_fs.py:43-45 | one line point per curve, of the curves' dimension |
| CellBorders.PointColumnLength | Fred/hd_fs.py:50 | a point column has `l(d + 1)` rows |
| CellBorders.ConeRowsLength | Fred/hd_fs.py:54-56 | the cone rows of `h` number `l(d + 1)` |
| CellBorders.IntersectionProgramShape | Fred/hd_fs.py:47-58 | `c` has `d` entries, `G` has `d` columns of `l(d + 1)` rows like `h`, and `dims` is `l` cones of `1 + d` rows |
| CellBorders.BuildIntersectionLines | Fred/hd_fs.py:43-45 | the `lines` loop computes each curve's point at its parameter |
| CellBorders.BuildPointColumns | Fred/hd_fs.py:48-51 | the column loop builds the `d` point columns |
| CellBorders.BuildConeRows | Fred/hd_fs.py:54-56 | the `h` loop appends each radius and negated line point |
| CellBorders.BuildIntersectionProgram | Fred/hd_fs.py:42-58 | the loops build exactly the intersection program |
| CellBorders.IntersectionPoint | Fred/hd_fs.py:42-60 | the result is the solver's status and witness, and is defined exactly when the solver does not raise |
| CellBorders.CellLines | Fred/hd_fs.py:63-69 | curve `j` is the point at `value` on its segment; every other curve is its segment's direction and base |
| CellBorders.ParamColumnLength | Fred/hd_fs.py:79-88 | a parameter column has `2(l - 1) + l(d + 1)` rows and its half-line block is `+1` and `-1` at the curve's slot |
| CellBorders.CellProgramShape | Fred/hd_fs.py:71-105 | `c` has `(l - 1) + d` entries, as many as `G` has columns; `h` and every column have `2(l - 1) + l(d + 1)` rows; `dims` is `2(l - 1)` half-lines and `l` cones |
| CellBorders.CellProgramBounds | Fred/hd_fs.py:76-98 | the half-line block bounds every curve parameter to `[0, 1]` |
| CellBorders.BuildCellLines | Fred/hd_fs.py:63-69 | the `lines` loop builds the cell's lines |
| CellBorders.BuildParamColumns | Fred/hd_fs.py:76-88 | the first column loop builds one parameter column per curve other than `j`, in order |
| CellBorders.BuildCellRows | Fred/hd_fs.py:97-105 | `h` is `l - 1` ones, `l - 1` zeros, then each curve's radius and negated line point |
| CellBorders.BuildCellPointColumns | Fred/hd_fs.py:90-93 | the second column loop builds the point columns under the half-line block |
| CellBorders.BuildCellProgram | Fred/hd_fs.py:62-105 | the loops build exactly the cell program |
| CellBorders.Reconstruct | Fred/hd_fs.py:112-119 | the offsets have one entry per curve and `value` at `j` |
| CellBorders.ReconstructDropsSlot | Fred/hd_fs.py:112-119 | dropping entry `j` gives back the solver's parameters in order |
| CellBorders.ReconstructY | Fred/hd_fs.py:112-119 | the `y` loop fills the offsets |
| CellBorders.CellOutcome | Fred/hd_fs.py:106-120 | a raising solver means no border; a border's offsets and point are read off the witness |
| CellBorders.CellOutcomeAsWritten | Fred/hd_fs.py:106-120 | as written, a raising solver leaves `sol` unbound and the call fails; otherwise as intended |
| CellBorders.RaisingSolverFails | Fred/hd_fs.py:106-110 | the two versions differ on a raising solver: failure as written, no border as intended |
| CellBorders.CellBorder | Fred/hd_fs.py:62-120 | corrected `_cellborder` (a raising solver means no border, `CellOutcome`; see Findings): answers the cell program's outcome |
| CellBorders.Advanced | Fred/hd_fs.py:37-40 | `alpha + mask` raises entry `j` by one and keeps the others |
| CellBorders.AdvanceValid | Fred/hd_fs.py:34-40 | advancing a curve that can advance keeps the position valid and uses one step of slack, so the recursion ends |
| CellBorders.Shift | Fred/hd_fs.py:39 | the border key has one entry per curve |
| CellBorders.ExploreExtends | Fred/hd_fs.py:32-40 | the exploration only appends to the border list |
| CellBorders.RecordedKey | Fred/hd_fs.py:35-39 | a recorded key is `alpha + 1` on the advanced curve and `alpha` plus the solver's parameters elsewhere |
| CellBorders.Explorer.constructor | Fred/hd_fs.py:15 | the border list starts with the start and end borders |
| CellBorders.Explorer.Record | Fred/hd_fs.py:39 | a border is appended to the list |
| CellBorders.Explorer.ComputeBorders | Fred/hd_fs.py:32-40 | the recursive exploration appends exactly the borders of the reference exploration, or fails when it does |
| CellBorders.Explorer.VisitCell | Fred/hd_fs.py:34-40 | one loop turn records the cell's border and explores from the advanced position |
| CellBorders.ShiftKey | Fred/hd_fs.py:39 | the key loop adds the offsets to the position |
| CellBorders.LexTrichotomy | Fred/hd_fs.py:17 | list order is total and asymmetric |
| CellBorders.LexIrreflexive | Fred/hd_fs.py:17 | no list is below itself |
| CellBorders.InsertByKey | Fred/hd_fs.py:17 | inserting keeps every border and adds the new one |
| CellBorders.InsertKeepsSorted | Fred/hd_fs.py:17 | inserting into a key-sorted list keeps it sorted |
| CellBorders.SortByKey | Fred/hd_fs.py:17 | sorting permutes the borders |
| CellBorders.SortByKeySorted | Fred/hd_fs.py:17 | the sorted list is in key order |
| CellBorders.AcceptsIsUnitStep | Fred/hd_fs.py:22-24 | the backward loop accepts a key exactly when it is a unit lattice step below the current one |
| CellBorders.UnitStepSum | Fred/hd_fs.py:22-26 | a unit step lowers the key sum, by at most the number of curves |
| CellBorders.ChainDescends | Fred/hd_fs.py:21-26 | each accepted key is a unit step below the previous one, with a strictly smaller sum |
| CellBorders.ChainStart | Fred/hd_fs.py:18-20 | the chain starts at the last border |
| CellBorders.CurrentPrefix | Fred/hd_fs.py:26 | the current key depends only on the borders accepted so far |
| CellBorders.ChainAccept | Fred/hd_fs.py:24-26 | accepting a border extends the chain |
| CellBorders.AcceptedAppend | Fred/hd_fs.py:24-26 | an accepted border keeps every accepted key a unit step |
| CellBorders.RejectedAppend | Fred/hd_fs.py:22-26 | rejected borders stay rejected against the key of their turn |
| CellBorders.ChainReject | Fred/hd_fs.py:22-24 | rejecting a border extends the chain's scan |
| CellBorders.BackwardChain | Fred/hd_fs.py:18-26 | the backward loop accepts exactly the borders that are unit steps below the current key, scanning all the others |
| CellBorders.ChainPoints | Fred/hd_fs.py:29-30 | the result's points are the accepted borders' points, earliest key first |
| CellBorders.EndKey | Fred/hd_fs.py:15 | the end key has one entry per curve |
| CellBorders.LastSegments | Fred/hd_fs.py:12 | the last segments form a valid lattice position |
| CellBorders.CollectBorders | Fred/hd_fs.py:15-16 | the exploration from `[1] * l` extends the start and end borders, every key with one entry per curve, or fails |
| CellBorders.Assemble | Fred/hd_fs.py:17-30 | the borders are sorted into a permutation, walked back, and the curve is found exactly when the walk ends at the smallest |
| CellBorders.WithinRadii | Fred/hd_fs.py:7-30 | the start or end program settles the answer when it is not optimal; otherwise the call fails exactly when the exploration from `[1] * l` fails, and else the explored borders are sorted by key and walked back from the largest, and the curve is found exactly when the walk ends at the smallest border (`(False,)` otherwise), the found curve being the chain of unit steps from the smallest border to the largest |
| CellBorders.KeysHaveLength | Fred/hd_fs.py:15-39 | every collected key has one entry per curve |
| Stabbing.Centered | Fred/stabbing.py:22 | a draw in `[0, 1)^d` is mapped to `[-1, 1)^d`, keeping its dimension |
| Stabbing.AcceptedAt | Fred/stabbing.py:21-25 | the rejection loop ends at the first draw at or after `k` that lies in the unit ball |
| Stabbing.Place | Fred/stabbing.py:26-27 | the scaled and shifted point keeps the dimension |
| Stabbing.PlaceInBall | Fred/stabbing.py:26-27 | a point of the unit ball, scaled by the radius and shifted by the center, lies in the ball |
| Stabbing.PicksAppend | Fred/stabbing.py:20-28 | one more accepted draw extends the record of accepted draws |
| Stabbing.DrawAccepted | Fred/stabbing.py:21-25 | the loop returns the first draw from `k` on that lies in the unit ball, the one at `AcceptedAt(k)`; every draw it skips lies outside |
| Stabbing.FirstAcceptedExists | Fred/stabbing.py:21-25 | below any accepted draw there is a first accepted draw at or after `k`, so the retry loop has a first stop |
| Stabbing.RejectionSampling | Fred/stabbing.py:15-29 | radius 0 gives the center alone; otherwise `n` accepted draws, scaled and shifted; every point lies in the ball |
| Stabbing.UnitVector | Fred/stabbing.py:31-34 | a zero vector is returned as is; any other vector is scaled to length 1 |
| Stabbing.MaxOf | Fred/stabbing.py:58 | `max` returns an element no smaller than any other |
| Stabbing.Chosen | Fred/stabbing.py:48-53 | the objective's curve has one sample per variable |
| Stabbing.Vectors | Fred/stabbing.py:54-55 | one difference vector per consecutive pair of points |
| Stabbing.NegatedTurns | Fred/stabbing.py:56-57 | one negated angle per consecutive pair of vectors |
| Stabbing.Objective | Fred/stabbing.py:42-58 | fewer than three variables give `-pi`; otherwise the largest negated angle along the chosen curve |
| Stabbing.ObjectiveRange | Fred/stabbing.py:36-58 | with angles in `[0, pi]` the objective lies in `[-pi, 0]` |
| Stabbing.Lower | Fred/stabbing.py:61-64 | one lower bound 0 per ball of the window |
| Stabbing.Upper | Fred/stabbing.py:62-65 | one upper bound `len(samples[i]) - 0.001` per ball of the window |
| Stabbing.ConsistentIffNonEmpty | Fred/stabbing.py:60-67 | every lower bound is below its upper bound exactly when every ball of the window has a sample |
| Stabbing.PyIndex | Fred/stabbing.py:71 | Python indexing succeeds exactly for `-len <= t < len` and returns an element |
| Stabbing.Pick | Fred/stabbing.py:69-71 | the stabber takes one sample of each ball of the window |
| Stabbing.StabberInBox | Fred/stabbing.py:60-72 | an optimizer answer within the bounds picks, for every ball, the sample at its truncated coordinate |
| Stabbing.StabberEmptyFails | Fred/stabbing.py:60-72 | a ball of the window without samples makes the stabber fail |
| Stabbing.ComputeStabber | Fred/stabbing.py:60-72 | `compute_stabber` builds the bounds, asks the optimizer and reads the samples off its answer |
| Stabbing.Keep | Fred/stabbing.py:188 | the kept points are exactly the sample points the containment test accepts |
| Stabbing.FilterBall | Fred/stabbing.py:183-191 | the inner loop refilters ball `j` against every earlier ball of the window, stops at the first that keeps nothing, and changes no other ball |
| Stabbing.FilteredStep | Fred/stabbing.py:183-189 | one filtered ball extends the filtered prefix |
| Stabbing.AllKeptStep | Fred/stabbing.py:182-192 | one passing ball extends the passing prefix |
| Stabbing.IsStabbable | Fred/stabbing.py:181-192 | `is_stabbable` is true exactly when every filter of the window keeps a point, and changes only the balls strictly inside the window |
| Stabbing.SingleBallGetsNoSamples | Fred/stabbing.py:196-202 | as written, a single ball gets 0 samples and its stabber fails |
| Stabbing.DefaultSampleCount | Fred/stabbing.py:196-197 | the corrected default gives every ball at least one sample and never fewer than as written |
| Stabbing.FailedWindowSkipsBall | Fred/stabbing.py:212-217 | as written, ball `e - 1` is in neither that window nor the next, which starts at `e`; the corrected window ends at `e`. This is index arithmetic on the window bounds: no member runs the loop as written |
| Stabbing.TilesCover | Fred/stabbing.py:204-225 | every ball below the last window's end lies in one of the windows |
| Stabbing.Concat | Fred/stabbing.py:227 | `np.concatenate` puts both ends of every segment in order |
| Stabbing.InitialSamples | Fred/stabbing.py:201-203 | every initial sample lies in its ball, and every ball gets a sample when `n >= 1` |
| Stabbing.Segment | Fred/stabbing.py:214-215 | a segment joins a sample of the window's first ball to one of its last, and exists when every ball has a sample and the optimizer keeps to its bounds |
| Stabbing.Extend | Fred/stabbing.py:208-211 | one extension reports stabbability exactly when every filter keeps a point, and keeps every sample in its ball |
| Stabbing.ProgressAppend | Fred/stabbing.py:212-217 | a new window adjacent to the last extends the tiling and its segment |
| Stabbing.Copy | Fred/stabbing.py:209 | the copy holds the same sample sets |
| Stabbing.Finish | Fred/stabbing.py:219-226 | a stabbable end covers the last ball with the last window; otherwise the last window stops before it and the path ends with the last ball's first sample |
| Stabbing.StabbingPath | Fred/stabbing.py:194-227 | corrected `stabbing_path` (the failed window ends where the next starts, `FailedWindow`; the default sample count is at least 1, `DefaultSampleCount`; see Findings): the windows tile the balls from ball 0, every path point is a sample of its ball, and the path exists when every ball gets a sample and the optimizer keeps to its bounds |
| Median.Dedup | Fred/median.py:24 | the distinct curve indices hold exactly the coreset's indices, each once |
| Median.MultiplicitiesSnoc | Fred/median.py:26 | one more coreset entry adds one to the total multiplicity when it is among the distinct indices |
| Median.CountAbsent | Fred/median.py:26 | an index not in the coreset occurs 0 times |
| Median.MultiplicitiesSum | Fred/median.py:23-26 | the multiplicities of the distinct indices add up to the coreset's size |
| Median.CollectMembers | Fred/median.py:25-28 | the loop collects the input curve of every distinct index, in order |
| Median.Ceil | Fred/median.py:32 | `np.ceil` returns the least integer not below its argument |
| Median.ZeroCostFails | Fred/median.py:32 | a coreset of cost 0 divides by zero in the grid size |
| Median.GridSizeDivisors | Fred/median.py:32 | a defined grid size has non-zero cost, `epsilon`, `lambd` and `Lambd` |
| Median.StepBelow | Fred/median.py:32 | every step multiple within the grid stays within the range |
| Median.LinspaceSpans | Fred/median.py:32 | `np.linspace(0, cost, num)` has `num` points, from 0 to `cost` when `num >= 2`, all within the range |
| Median.GridsSnoc | Fred/median.py:31-34 | one more grid extends the list of grids |
| Median.BuildGrids | Fred/median.py:29-34 | the grid loop fails exactly when a grid size is undefined; otherwise it returns every distinct index's grid and the product of their sizes |
| Median.ExpandLength | Fred/median.py:38 | one more factor multiplies the number of tuples by its size |
| Median.SizeProductCons | Fred/median.py:33 | `length` is the first grid's size times the size of the rest |
| Median.ProductLength | Fred/median.py:33-38 | `itertools.product` yields exactly `length` tuples |
| Median.ExpandMembers | Fred/median.py:38 | a tuple is produced with one more factor exactly when its head is in that factor and its tail among the other tuples |
| Median.ProductMembers | Fred/median.py:38 | a tuple is produced exactly when each entry is in its grid |
| Median.PrunedMembers | Fred/median.py:41-43 | a radius tuple is queried exactly when its sum lies in `[cost / 6, cost]` |
| Median.PrunedAppend | Fred/median.py:38-43 | pruning is done tuple by tuple |
| Median.FeasibleMembers | Fred/median.py:44-46 | a curve is a candidate exactly when some queried tuple yields it |
| Median.FeasibleAppend | Fred/median.py:38-46 | candidates are collected tuple by tuple, in order |
| Median.CollectCandidates | Fred/median.py:35-46 | the loop counts every tuple, queries exactly the tuples in range and collects exactly the curves found |
| Median.ScoreNonNegative | Fred/median.py:50-52 | with non-negative weights and distances a score is non-negative |
| Median.ScoreOf | Fred/median.py:50-52 | the inner loop computes a candidate's weighted distance sum |
| Median.Scores | Fred/median.py:49-52 | one score per candidate |
| Median.FirstMinEarliest | Fred/median.py:53-55 | the first minimum comes before every other position of the same score |
| Median.SelectMedian | Fred/median.py:47-56 | no candidates fail on the index; otherwise the first candidate of least score is returned |
| Median.Weights | Fred/median.py:52 | one weight `multiplicity * Lambd / lambd / len(curves)` per distinct index |
| Median.DedupIndexes | Fred/median.py:24-28 | every distinct index is one of the coreset's indices and indexes the curves and `lambd` |
| Median.MedianCandidates | Fred/median.py:25-46 | the part before the selection collects the distinct curves, fails exactly when a grid is undefined, and otherwise returns exactly the curves found on the grid tuples whose sum lies in `[cost / 6, cost]` |
| Median.MedianWeights | Fred/median.py:26-52 | the score pairs every distinct curve with its weight, one weight per curve |
| Median.FrechetMedian | Fred/median.py:17-56 | a median exists exactly when the grids are defined and some candidate is found, and it is the first candidate of least weighted distance sum |

## Left out

General:
- Floating-point rounding is not modelled: every value is an exact `real`. The one exception is the explicit three-decimal rounding of the Fréchet result (`Frechet.RoundMillis`).
- Square roots are not modelled. The Fréchet routines compare squared distances, as the C++ code does. Where the code takes a root, the root is an oracle parameter.
- Running times are omitted: the boost::chrono clocks, `std::clock`, the `time_*` fields of the results and the `progressbar` calls.
- Verbosity and warning output is omitted: `std::cout`, `py::print`, `#if DEBUG` blocks.
- OpenMP `parallel for` loops are modelled as sequential loops, because their iterations are independent.
- These are not part of this model:
  - `Point::intersection_interval`, which does square-root root finding; the free intervals are the `Frechet.FreeSpace` oracle instead;
  - src/bounding.cpp (the Ritter bounding sphere) and `compute_center_enclosing_balls` (src/clustering.cpp:67-103), which is built on it;
  - the random projection (src/jl_transform.cpp), the random generators (include/random.hpp) and the coreset (include/coreset.hpp);
  - the Python bindings, curve conversion and printing (src/fred_python_wrapper.cpp, src/curve.cpp, src/point.cpp);
  - the plotting of Fred/__init__.py;
  - the declaration-only headers.
- Integers are unbounded. The model writes the 64-bit wrap-around out only where it decides an outcome: the grid's unsigned negation, the predecessor levels below zero, and the exponent `j - 1` at `j == 0` of `ApproximateSimplification.LowStartAsWritten` and `ApproximateSimplification.SkippedDoublingHasNoStart` (see Findings).

Intervals:
- Intervals.IsEmptyIffNarrow, Intervals.NonEmptyIsProper: `parameter_t` is `long double`, whose epsilon depends on the platform: 2^-63 for the 80-bit extended format of x86-64, 2^-52 where `long double` is `double`, 2^-112 for a 128-bit quad format. The model fixes `Intervals.MachineEpsilon` at the x86-64 value, 2^-63.

Points:
- Points.Point.AddAssign, Points.Point.SubAssign, Points.Point.DivAssign: the binary operators iterate over the left operand's dimension. The model therefore requires the right operand to have at least as many coordinates, instead of modelling a read past its end. The same holds for `Points.Add`, `Points.Sub`, `Points.Point.Dot` and `Points.Point.DistSqr`.
- Points.Divide, Points.Point.DivAssign: require a non-zero divisor. With a zero divisor the C++ code yields infinities or NaN, which `real` has no values for.

Frechet:
- Frechet.Distance: the two lower-bound roots and the upper-bound root are inputs (`lbRoot`, `ubRoot`), tied to the squared values they are the roots of; `std::sqrt` itself is not modelled.
- Frechet.Bisect: the free intervals come from the oracle `fs`, about which nothing is assumed. `fs(d)` stands for the intervals at radius `d` (`Frechet.IntervalRadius`); the code as written asks for them at radius `d * d` (see Findings). The reachability result is proved against the intervals the oracle reports, not against the true free space.
- Frechet.Bisect, Frechet.BisectLoop, Frechet.Distance, Frechet.DistanceAsWritten: require `eps > 0`. This is a fact about the source, not a weakening: with `eps <= 0` the loop `while (ub - lb > eps)` (src/frechet.cpp:84) keeps halving a positive bracket, which never reaches width 0 in exact arithmetic, so it does not terminate. With doubles the bracket stops shrinking once its ends are adjacent, and the loop then spins forever as well.
- The continuous-distance test cases (test/test.py:5-17) are not modelled, because their values depend on the free-space oracle.

DynamicTimeWarping:
- DynamicTimeWarping.Distance: `cost(i, j)` stands for the Euclidean distance of a point pair, as an oracle, because the square root is not modelled.

Simplification:
- MinErrorDp.FillTables, ShortcutGraph.SubcurveShortcutGraph.constructor, CurveGraph.SubcurveGraph.constructor: the shortcut weight (the continuous Fréchet distance of a subcurve to a segment) is an oracle.
- ShortcutGraph.SubcurveShortcutGraph.constructor, CurveGraph.SubcurveGraph.constructor: require a curve of at least one vertex. On an empty curve `complexity - 1` wraps around and `curve.front()` is read from an empty curve, which is undefined behaviour.
- ApproximateSimplification.MinLinkSimplification: requires `epsilon >= 0`. With a negative `epsilon` the first doubling loop does not run, so the first round already starts with `j == 0`: the exponent wrap of the Findings row for src/simplification.cpp:27-43.
- ApproximateSimplification.Bisection, ApproximateSimplification.MinErrorSimplification, ApproximateSimplification.MinErrorSimplificationAsWritten: require `eps > 0`, for the reason given for `Frechet.Bisect`: `Frechet::Continuous::epsilon` bounds the loop at src/simplification.cpp:83.
- ApproximateSimplification.MinLinkSimplification, ApproximateSimplification.MinLinkRound, ApproximateSimplification.NextVertex, ApproximateSimplification.GrowRadius, ApproximateSimplification.Bisection, ApproximateSimplification.MinErrorSimplificationAsWritten, ApproximateSimplification.MinErrorSimplification: the shortcut oracle is assumed to satisfy `ExactOnSegments` (the shortcut over a single segment, `shortcut(a, a + 1)`, is 0) and, where required, `BoundedBy(shortcut, bound)` for some ghost `bound` (no shortcut exceeds it). Progress of the min-link rounds and termination of the doubling loop rest on them. `Frechet::Continuous::distance` meets both: for the subcurve `[curve[a], curve[a + 1]]` against the segment with the same two ends, the lower bound `max(dist(first), dist(last))` is 0 and every pair the greedy walk visits before the final one is at distance 0, so `ub - lb <= eps` and the rounded midpoint is 0 (src/frechet.cpp:22-37, 68-100); and its value is at most the greedy bound, a maximum of finitely many point distances, so the finitely many shortcuts of one curve have a common bound.
- ApproximateSimplification.MinErrorSimplification: the initial distance bound (`discrete`, the discrete Fréchet distance of the curve to its first-to-last segment) and the subcurve distance (`shortcut`) are inputs.

Clustering:
- Clustering.Gonzalez: the distance `d` is an oracle assumed to be a pseudo-metric (non-negative, symmetric, 0 on the diagonal), as the Fréchet distance is. `Gonzalez` also requires `numCenters >= 1` when local search runs on a non-empty input: the source then computes `1/(3 * num_centers * n)`, which divides by zero at `num_centers == 0`.
- Clustering.OneMedianSampling: the uniform draws are inputs in `[0, 1)`.
- Clustering.OneMedianSampling: requires at least one curve. With no curves every draw selects curve 0, and `cheap_dist` reads row 0 of an empty matrix, which is undefined behaviour.
- KlCluster.Cluster: `simplify` and `d` are oracles. The global distance matrix is modelled only by its shape, its numbers of rows and columns; the reuse checks read the rows. Its entries are not modelled: the cached distances are the oracle `d`. It requires `numCenters >= 1` in median mode on a non-empty input, for the same division by zero as `Gonzalez`.
- KlCluster.Cluster: on a reused workspace (`Reused(ws.distanceRows, n, consecutiveCall)`) it requires that the workspace already holds one simplification slot per curve (`|ws.simplifications| == n`). The source checks only the matrix's row count (src/clustering.cpp:134) before reusing the slots. The two can disagree: `ClusteringResult.ComputeAssignmentAsWritten` on `m != n` curves sets the row count to `m` and leaves the `n` slots, so a consecutive call on those `m` curves passes the check with `n` slots, and with `m > n` the source reads and writes past the slot vector. The model does not cover that call.
- KlCluster.Cluster: on a reused workspace it also requires `ws.Holds(simplify)`: every filled slot holds the simplification the oracle `simplify` gives now. The source trusts the cache: a consecutive call whose `ell` differs from the call that filled the slots reuses simplifications of the old complexity, and the model does not capture that staleness.
- `_curve_cost`, `_center_cost_max`, `_center_cost_sum`, `_nearest_center` and `Curves(n, ell, dims)` are not part of this model. They are taken to be the cost of a curve, the largest cost, the cost sum and the nearest center of `ClusterCosts`, with all simplification slots starting empty.
- The `centers[0]` read of src/clustering.cpp:176 only feeds verbosity output, and is left out with it.

CubeGrid:
- CubeGrid.BuildCubeGrid: requires `width > 0` and `edgeLength >= 0`. Otherwise `std::ceil(edge_length / width)` is infinite, NaN or negative, and converting it to `size_t` is undefined behaviour.
- CubeGrid.BuildCubeGrid: `std::ceil` of a real is modelled exactly. The model builds the intended axis (`CubeGrid.Axis`); the wrapped axis is modelled separately (see Findings).

CellBorders:
- CellBorders.WithinRadii: `conelp` is an oracle. When the start or end program is reported optimal but returns no witness, the model ends at once with `Failed`. The source goes on with a missing point (Fred/hd_fs.py:60): it returns `(False,)` when the chain misses the smallest border, and otherwise builds the curve from a list that holds the missing point. The model's `Failed` stands for both outcomes.
- CellBorders.WithinRadii: requires `CellBorders.WellFormed(T)`: at least one curve, at least two points per curve, and every point of the first curve's dimension. With no curves `T[0]` raises `IndexError`. A one-point curve raises `IndexError` at `T[i][alpha[i]]`. With mixed dimensions the cone program's sizes disagree, and what the solver then does is not modelled.
- CellBorders.WithinRadii: the test `solution[-1] != borders[0]` is modelled as "the last accepted border is the first of the sorted list" (an index test), not as tuple equality.
- CellBorders.WithinRadii: the `uint64` numpy keys are modelled as `nat`.
- The cone programs are built exactly (shapes and entries), but solving them is left to the oracle, so no claim about the crossing points' geometry is made.

Stabbing:
- Stabbing.RejectionSampling: the random draws are a stream `draw`, and every draw is assumed to be accepted eventually (`AcceptAfter`). Without that assumption the retry loop need not terminate.
- Stabbing.ComputeStabber: `dual_annealing` is an oracle that returns a point in its bounds.
- Stabbing.ObjectiveRange: `angle` (`arccos` of a dot product) is an oracle. The range of `f` is proved under the assumption that `angle` lies in `[0, pi]`, as `arccos` does.
- Stabbing.IsStabbable: `check_containment`, `convert_coordinates` and `outer_tangents` (plane trigonometry with a 12-digit collinearity rounding) are the containment oracle `contains`.
- Stabbing.StabbingPath: `np.log(len(balls))` is the input `lnm`.
- Stabbing.StabbingPath: requires at least one ball, and centers of one dimension. With no balls `balls[0]` raises `IndexError`. With mixed dimensions `p += center` raises a broadcast error.
- Stabbing.StabbingPath: requires `epsilon > 0` when `n_samples` is not given. At `epsilon == 0` the default count divides by zero (`ZeroDivisionError`). A negative `epsilon` gives a negative count and no samples, and is not modelled.

Median:
- Median.FrechetMedian: the coreset (`onemedian_coreset`), `curve_within_radii` and `continuous_frechet` are oracles (`core`, `within` and `dist`).
- Median.FrechetMedian: `within` returns a curve or nothing and cannot raise. `curve_within_radii` can end in an exception. `CellBorders.WithinRadii` models the corrected `_cellborder`, in which a raising cell solver means no border; the as-written `UnboundLocalError` of Fred/hd_fs.py:106-110 exists only in `CellBorders.CellOutcomeAsWritten`. The exceptions `within` cannot express are a raise of the start or end `conelp` (Fred/hd_fs.py:59, `Failed` in `CellBorders.WithinRadii`) and, as written, the raise of Fred/hd_fs.py:106-110. The model has no counterpart of those exceptions, which ends the source's median search: its `within` answers every radius vector, so the model's search always runs to the end.
- Median.FrechetMedian: `list(set(curves))` has no defined order in Python. The model uses first-occurrence order (`Median.Dedup`).
- Median.FrechetMedian: `np.linspace`'s float `num` is treated as its integer count. As written, Fred/median.py:32 passes a float from `np.ceil`; NumPy 1.18 and later reject a non-integer `num` with a `TypeError`, and setup.py pins no NumPy version, so on a current NumPy the call raises there (a claim about the library, not checked here). The model follows the older NumPy, which truncated `num` to an integer.
- Median.FrechetMedian: with `cost == 0` the grid size is `0/0`, so the call raises and the model returns `None`.
- Median.FrechetMedian: with no feasible candidate, `candidates[0]` raises. The model returns `None`.

## Findings

Each row names a member that models the code as written, with the lemma that exhibits the discrepancy, and the corrected member the rest of the model uses.

| source | as written | input that shows it | evidently intended | confidence | as-written member | corrected member |
|---|---|---|---|---|---|---|
| src/frechet.cpp:40-66 | the greedy upper bound takes the maximum over the visited pairs but leaves out the final pair `(len1-1, len2-1)`, so it can be below the lower bound `max(dist(first), dist(last))`; `distance` then sees `ub - lb < eps` and returns the midpoint without searching | `[0, 10]` against `[0, 0]`: the bound is 0 and the lower bound is 10, so `distance` returns 5 | the bound includes the final pair and is then a true upper bound of the discrete (and continuous) distance | not executed | Frechet.GreedyUpperBoundAsWritten, Frechet.GreedyAsWrittenBelowLowerBound, Frechet.DistanceAsWrittenBelowLowerBound | Frechet.GreedyUpperBound, Frechet.GreedyBoundIsUpperBound, Frechet.Distance |
| src/frechet.cpp:114-160 | `_lessThan` hands `dist_sqr` to `intersection_interval` as its radius, and `intersection_interval` squares its radius again (include/point.hpp:137), so the free intervals are those of the distance squared | any distance other than 0 and 1: at distance 2 the intervals are measured against 16 where the end points are measured against 4 | the radius is the distance, so the free intervals use the same `dist_sqr` as the end points and the boundary loops | not executed | Frechet.IntervalRadiusAsWrittenSquaresTwice | Frechet.IntervalRadius, Frechet.Bisect |
| include/grid.hpp:39 | the lower half of the axis is `-(h - i) * width` with `h - i` a `size_t`, so the negation wraps to `2^64 - (h - i)` | any `h >= 1`: the first axis entry is `(2^64 - h) * width`, far above 0 | the first axis entry is `-h * width` and the axis increases by `width` | not executed | CubeGrid.AxisNegationWraps | CubeGrid.Axis, CubeGrid.AxisIncreasing, CubeGrid.BuildCubeGrid |
| include/simplification.hpp:109-113 | the reconstruction decrements the `size_t` level before each predecessor read, so the last read uses level `SIZE_MAX`, out of range | any `2 < ll < complexity`: the last of the `l + 1` reads is at level `SIZE_MAX` | `l` reads at levels `l - 1` down to 0, then the first vertex | not executed | ShortcutGraph.LevelsReadAsWritten | ShortcutGraph.Backtrack |
| include/graph.hpp:96-100 | the `while (ell > 0)` loop reads level `ell - 1` after each decrement; when `ell` reaches 0 the index wraps to `SIZE_MAX` | any `2 < ll < complexity`: the last read is at level `SIZE_MAX` | reads at levels `l - 1` down to 0 only | not executed | CurveGraph.LevelsReadAsWritten | CurveGraph.Backtrack |
| src/simplification.cpp:27-43 | `low = j == 1 ? 0 : pow(2, j - 1)` with `j` a `size_t`; when the previous round's last probe exceeded `epsilon` the doubling loop is skipped, `j` is 0, the exponent wraps to `SIZE_MAX` and the conversion of the huge power is undefined | any round that starts after a failed probe, e.g. the second round on `[0, 2, 0, 1]` with `epsilon < 2` | `low = 0` whenever `j <= 1`, so the round searches `[0, 1]` | not executed | ApproximateSimplification.LowStartAsWritten, ApproximateSimplification.SkippedDoublingHasNoStart | ApproximateSimplification.MinLinkSimplification, ApproximateSimplification.NextVertex |
| src/simplification.cpp:83-99 | the bisection starts from an empty `simplification`; if no probe has at most `ell` vertices, the padding calls `back()` on an empty curve | the curve `[0, 2, 0, 1]` with `ell = 3`: the radius starts at 1 + 1 = 2 and, with the corrected minimum-link simplification, every probe below 2 keeps all 4 vertices. The minimum-link code as written reaches the `j == 0` wrap of the row above on this curve first, in its second round | the bisection starts from the doubling loop's result, which already has at most `ell` vertices | not executed | ApproximateSimplification.MinErrorSimplificationAsWritten, ApproximateSimplification.EmptySeedExample | ApproximateSimplification.MinErrorSimplification |
| src/clustering.cpp:49-61 | `compute_assignment` without a consecutive call replaces the global matrix by one of `n` rows and one column per center; a later consecutive `kl_cluster` on the same `n` curves passes the reuse check (src/clustering.cpp:134), which looks only at the row count, and its searches read columns up to `n - 1` | `kl_cluster` on `n` curves with `k < n` centers, then `compute_assignment(curves)` (as `plot_clustering` and `optimize_centers` do), then `kl_cluster` with `consecutive_call = true` on the same curves | the distances to the center curves are kept apart, and the global matrix stays `n` by `n` | not executed | KlCluster.ClusteringResult.ComputeAssignmentAsWritten, KlCluster.NarrowMatrixReused | KlCluster.ClusteringResult.ComputeAssignment, KlCluster.Cluster |
| src/clustering.cpp:169-175 | with `random_start_center` false, the first center is pushed only inside the branch that computes slot 0's simplification; on a consecutive call with slot 0 already computed, no first center is pushed | `random_start_center = false`, a consecutive call, slot 0 set: `num_centers` requested centers give `num_centers - 1`. The local searches after the greedy phase then write `curr_centers[i]` at `i = num_centers - 1`, one past the end (src/clustering.cpp:239 and :285); the model stops at the greedy phase and does not model that write | curve 0 is the first center whether or not its simplification is cached | not executed | KlCluster.FirstCenterAsWritten, KlCluster.MissingFirstCenterLosesOne | KlCluster.FirstCenter |
| src/clustering.cpp:216-247 | the k-center local search compares swaps against the greedy radius (the farthest cost before the last center was added), not the cost of the current centers, so it can accept a swap that is worse | four curves with `d(0,1)=1`, `d(0,3)=2`, `d(1,3)=3`, `d(x,2)=10` (`KlCluster.ExampleDistance`): the greedy centers `[0, 2]` cost 2, the radius is 10, and the swap to `[1, 2]`, of cost 3, is accepted | the baseline is the largest cost of the current centers, so every accepted swap strictly lowers it | not executed | KlCluster.KCenterPhaseAsWritten, KlCluster.RadiusBaselineAcceptsWorse | KlCluster.KCenterPhase |
| Fred/hd_fs.py:106-110 | an exception from `conelp` is printed and then the local `sol` is read while unbound, which raises `UnboundLocalError` | a solver that raises | a raising solver reports the border as infeasible | not executed | CellBorders.CellOutcomeAsWritten, CellBorders.RaisingSolverFails | CellBorders.CellOutcome, CellBorders.CellBorder |
| Fred/stabbing.py:196-197 | the default sample count `int(100 / epsilon * ln m)` is 0 for a single ball | one ball of positive radius with the default `n_samples`: no samples, and the stabber's bounds `[0, -0.001]` are empty | at least one sample per ball | not executed | Stabbing.SingleBallGetsNoSamples | Stabbing.DefaultSampleCount |
| Fred/stabbing.py:212-217 | after a failed extension at ball `e` the stabber runs on `[start, e - 1)` while the next window starts at `e`, so ball `e - 1` is stabbed by neither | any failed extension with `start + 2 <= e` | the segment ends where the next window starts | not executed | Stabbing.FailedWindowSkipsBall | Stabbing.StabbingPath |
