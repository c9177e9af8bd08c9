# Cubic curve interpolation and colour gradients

This project models the numeric core of a small colour library. The core has two parts.

- **The curve interpolator** (`src/CurveInterpolator.ts`). It is a one-dimensional cardinal cubic spline through a list of `[x, y]` control points, with a tension parameter.
  - Lists of one to three points are padded to four: the first point is repeated once at the front and the last point at the back.
  - Each segment between two control points is a cubic in a parameter `t ∈ [0, 1]`, built from the four neighbouring points.
  - An inverse lookup (`valuesLookup`) finds where the curve crosses a value on one axis:
    - it scans the segments forward, or backward when `max < 0`;
    - it skips segments whose band (widened by `margin`) misses the value;
    - it solves the segment cubic for `t` (Cardano or the trigonometric method, with a quadratic and a linear fallback);
    - it keeps roots in `(−EPS, 1 + EPS]` and clamps them into `[0, 1]`;
    - it sorts them by `t` and reads the other axis at each `t`;
    - it collects the answers in a set and stops as soon as it holds `|max|` answers.
  - `CurveInterpolator(points)` returns `y(x)`, the first answer of such a lookup with `max = 1`.
- **The interpolated colour** (`src/InterpolatedColor.ts`). It builds a colour gradient from colours placed at positions.
  - It rejects fewer than two points.
  - It turns `{x, color}` objects into `[x, color]` tuples and sorts the points by position.
  - It splits each colour into hue, saturation and lightness.
  - It unwraps the hues in place, so that consecutive hues are meant to differ by at most 180 degrees.
  - It builds one curve per channel and returns a function that reads the three curves at one position and formats the result as a hex colour.

Numbers are `real`s. `EPS` is 2^-42. `Math.sqrt`, `Math.pow`, `Math.acos`, `Math.cos` and `Math.PI` are fields of a `MathLib` value passed in. Colour parsing and hex formatting are the fields of a `ColorLib` value passed in.

The files:

- `wrappers.dfy`: `Option` and `Result`.
- `root_solver.dfy` (module `RootSolver`): `clamp`, `cuberoot`, `getQuadRoots` and `getCubicRoots`, including the in-place shift loop.
- `curve_interpolator.dfy` (module `CurveInterpolator`):
  - padding;
  - coefficients, `solveForT` and `getTAtValue`;
  - the lookup, as a specification function `Lookup` and the loop `ValuesLookup` proved equal to it;
  - the forward wrapper.
- `interpolated_color.dfy` (module `InterpolatedColor`):
  - normalisation;
  - the in-place sort by position;
  - the in-place hue unwrap;
  - gradient construction and evaluation.

## Model

| member | source | states |
|---|---|---|
| RootSolver.Clamp | src/CurveInterpolator.ts:272-276 | With min ≤ max the result lies in [min, max]. An in-range value is returned unchanged. A value below min gives min. A value above max gives max. |
| RootSolver.Abs | src/CurveInterpolator.ts:193 | The result is non-negative and equals x or −x. |
| RootSolver.Cuberoot | src/CurveInterpolator.ts:261-264 | When the library's `pow` returns a non-negative value, the result is ≤ 0 for negative x and ≥ 0 otherwise. If `pow` gives an exact cube root of \|x\|, the result cubed is x. |
| RootSolver.QuadRoots | src/CurveInterpolator.ts:192-205 | At most two roots. With \|a\| < EPS and \|b\| < EPS: no root. With \|a\| < EPS only: the single root x with b·x + c = 0. With D < 0 beyond EPS: no root. With \|D\| < EPS: the single root with 2a·x + b = 0. |
| RootSolver.QuadRootsResidual | src/CurveInterpolator.ts:198-202 | For \|a\| ≥ EPS and an exact sqrt at D: when \|D\| ≥ EPS every returned root is a true root (a·x² + b·x + c = 0); when \|D\| < EPS the residual of the returned root is exactly −D/4a. |
| RootSolver.DepressionIdentity | src/CurveInterpolator.ts:220-222 | Substituting x = t − b/3a turns the cubic, divided by a, into t³ + p·t + q, with p and q as the source computes them. |
| RootSolver.DepressedP | src/CurveInterpolator.ts:221-221 | The coefficient p of the depressed cubic, as the source writes it; no contract of its own, what it means is stated by DepressionIdentity. |
| RootSolver.DepressedQ | src/CurveInterpolator.ts:222-222 | The coefficient q of the depressed cubic, as the source writes it; no contract of its own, what it means is stated by DepressionIdentity. |
| RootSolver.DepressedRoots | src/CurveInterpolator.ts:225-247 | At most three roots. With \|p\| < EPS: exactly one. With \|p\| ≥ EPS and \|q\| < EPS: the first root is 0. |
| RootSolver.DepressedRootsExactWhenQZero | src/CurveInterpolator.ts:228-230 | With \|p\| ≥ EPS, q = 0 and an exact sqrt at −p, every returned t solves t³ + p·t = 0. |
| RootSolver.Shifted | src/CurveInterpolator.ts:250-252 | Shifting keeps the length. |
| RootSolver.ShiftedAt | src/CurveInterpolator.ts:250-252 | Entry i of the shifted list is entry i minus the shift. |
| RootSolver.CubicRoots | src/CurveInterpolator.ts:214-218 | At most three roots. With \|a\| < EPS it is exactly the quadratic solver on (b, c, d). |
| RootSolver.ShiftedRootIsRoot | src/CurveInterpolator.ts:249-252 | A root t of the depressed cubic, shifted back by b/3a, is a root of the original cubic. |
| RootSolver.CubicRootsExactWhenQZero | src/CurveInterpolator.ts:221-252 | With \|a\| ≥ EPS, \|p\| ≥ EPS, q = 0 and an exact sqrt at −p, every returned root is a true root of a·x³ + b·x² + c·x + d. |
| RootSolver.CubicRootsFlatStart | src/CurveInterpolator.ts:214-252 | The cubic w·x³ − w·x² (w not near 0) has roots exactly [0, 1], in that order. |
| RootSolver.GetCubicRoots | src/CurveInterpolator.ts:214-255 | The method, including its in-place shift loop, returns exactly the roots `CubicRoots` specifies. |
| CurveInterpolator.Other | src/CurveInterpolator.ts:71-72 | The other axis differs from the lookup axis. |
| CurveInterpolator.PadTail | src/CurveInterpolator.ts:45-47 | Pushing the last point grows a non-empty list to at least 4. The original points stay in front, and every added point is the last point. |
| CurveInterpolator.Padded | src/CurveInterpolator.ts:41-49 | For 1–3 points: exactly 4 points. The first point comes first, the originals follow in order, and the rest repeat the last point. For ≥ 4 points: unchanged. |
| CurveInterpolator.ExtrapolateArgs | src/CurveInterpolator.ts:41-49 | The loop returns exactly `Padded(args)`. |
| CurveInterpolator.MakeCurve | src/CurveInterpolator.ts:19-20 | The tension is kept. An empty list or one of ≥ 4 points is kept as is. Otherwise the curve has ≥ 4 points with the same first and last point and the same set of points. |
| CurveInterpolator.GetCoefficients | src/CurveInterpolator.ts:170-184 | The segment cubic minus the target is v1 − v at t = 0 and v2 − v at t = 1. |
| CurveInterpolator.SegmentTangents | src/CurveInterpolator.ts:178-181 | The slopes at t = 0 and t = 1 are the cardinal tangents (1 − tension)(v2 − v0)/2 and (1 − tension)(v3 − v1)/2. |
| CurveInterpolator.TargetShiftsOnlyConstant | src/CurveInterpolator.ts:178-183 | a, b and c do not depend on the target, and d is v1 − v. So t is a root of the shifted cubic exactly when the spline value at t equals the target. |
| CurveInterpolator.SolveForT | src/CurveInterpolator.ts:126-140 | Within EPS of t = 0 the result is v1. Within EPS of t = 1 it is v2. |
| CurveInterpolator.SolveForTIsSpline | src/CurveInterpolator.ts:134-139 | Away from the short-cuts, and at exactly 0 and 1, the result is the segment polynomial, so the short-cuts agree with it. |
| CurveInterpolator.KeepInWindow | src/CurveInterpolator.ts:155-157 | Filtering never adds roots. |
| CurveInterpolator.KeepInWindowFacts | src/CurveInterpolator.ts:155-157 | Every kept t lies in [0, 1] and is the clamp of a root in (−EPS, 1 + EPS]. Every such root's clamp is kept. |
| CurveInterpolator.GetTAtValueRoots | src/CurveInterpolator.ts:142-158 | At most three answers, all in [0, 1]. All-zero coefficients give exactly [0]. Otherwise the answers are exactly the clamped in-window cubic roots. |
| CurveInterpolator.GetTAtValue | src/CurveInterpolator.ts:142-158 | The parameters at which one segment reaches the lookup value; no contract of its own, its facts are stated by GetTAtValueRoots. |
| CurveInterpolator.OrderedPairwise | src/CurveInterpolator.ts:97-98 | An adjacent-ordered list is ordered pairwise, ascending or descending. |
| CurveInterpolator.Insert | src/CurveInterpolator.ts:97-98 | Inserting into an ordered list keeps it ordered and adds one element. |
| CurveInterpolator.InsertPermutes | src/CurveInterpolator.ts:97-98 | Insertion adds exactly x to the multiset. |
| CurveInterpolator.Sort | src/CurveInterpolator.ts:97-98 | The result is ordered (descending when max < 0) and has the input's length. |
| CurveInterpolator.SortPermutes | src/CurveInterpolator.ts:97-98 | The result is a permutation of the input. |
| CurveInterpolator.SortMembers | src/CurveInterpolator.ts:97-98 | The result has exactly the input's members. |
| CurveInterpolator.Limit | src/CurveInterpolator.ts:109 | The answer limit \|max\| is zero exactly when max is zero. |
| CurveInterpolator.ScanIndex | src/CurveInterpolator.ts:76-77 | Every scanned segment index lies in [1, len). |
| CurveInterpolator.ScanStep | src/CurveInterpolator.ts:76-77 | Every segment index is visited at some step. |
| CurveInterpolator.ScanVisitsEachSegmentOnce | src/CurveInterpolator.ts:76-77 | Distinct steps visit distinct segments. The scan is increasing when max ≥ 0 and decreasing when max < 0. |
| CurveInterpolator.Neighbours | src/CurveInterpolator.ts:76-93 | p1 = idx − 1 and p2 = idx. p0 = max(idx − 2, 0) and p3 = min(idx + 1, len − 1). All four indices are in range and in order. |
| CurveInterpolator.InBand | src/CurveInterpolator.ts:82-91 | The min/max test is the same as: lookup ± margin meets the segment's end values. |
| CurveInterpolator.SegmentTs | src/CurveInterpolator.ts:91-98 | A segment outside the band gives no t. The t values are ordered by the sign of max. |
| CurveInterpolator.SegmentTsInUnitInterval | src/CurveInterpolator.ts:94-98 | Every t of a segment lies in [0, 1]. |
| CurveInterpolator.MatchAt | src/CurveInterpolator.ts:101-107 | The answer is a number exactly when processXY is off. At t = 0 it is p1's value and at t = 1 p2's (or the control point itself as a pair). |
| CurveInterpolator.MatchesAt | src/CurveInterpolator.ts:100-108 | One answer per t. |
| CurveInterpolator.MatchesAtIndex | src/CurveInterpolator.ts:100-108 | Answer j is the answer at ts[j]. |
| CurveInterpolator.SegmentMatches | src/CurveInterpolator.ts:91-108 | One answer per kept t of the segment. |
| CurveInterpolator.SegmentMatchesUnfold | src/CurveInterpolator.ts:79-108 | Proof step (a one-step unfolding of SegmentMatches; its facts are carried by LookupSound and LookupComplete): a segment's answers are those at its sorted t values, read through p0..p3. |
| CurveInterpolator.MatchesAtKind | src/CurveInterpolator.ts:102-107 | Every answer is a number exactly when processXY is off. |
| CurveInterpolator.CollectSound | src/CurveInterpolator.ts:100-110 | Every collected answer was produced. The first produced answer is collected first. |
| CurveInterpolator.Add | src/CurveInterpolator.ts:105-107 | `Set.add`: a number already present is not added again, a pair always is; no contract of its own, see CollectSound, CollectDistinct and CollectSize. |
| CurveInterpolator.Collect | src/CurveInterpolator.ts:100-110 | The solution loop over all segments with its early return at `|max|` answers; no contract of its own, see CollectSound, CollectStep, CollectDistinct and CollectSize. |
| CurveInterpolator.CollectDistinct | src/CurveInterpolator.ts:105-107 | No number is collected twice. |
| CurveInterpolator.CollectSize | src/CurveInterpolator.ts:109 | A stopped scan holds exactly \|max\| answers. An unstopped one holds every produced answer, and fewer than \|max\| of them. |
| CurveInterpolator.CollectStable | src/CurveInterpolator.ts:109 | Once stopped, later answers change nothing (the early return). |
| CurveInterpolator.CollectSnoc | src/CurveInterpolator.ts:105-109 | Proof step (a one-step unfolding of Collect; its facts are carried by CollectSound, CollectDistinct and CollectStable): an unstopped scan adds the next answer to the set and stops when the size reaches the limit. |
| CurveInterpolator.CollectIsPrefixOfUnbounded | src/CurveInterpolator.ts:109 | A limited scan returns the first \|max\| answers of the unlimited scan. |
| CurveInterpolator.StreamMembers | src/CurveInterpolator.ts:76-110 | An answer is produced in the first k steps exactly when it belongs to one of the first k scanned segments. |
| CurveInterpolator.StreamPrefix | src/CurveInterpolator.ts:76-110 | The answers of fewer steps are a prefix of those of more steps. |
| CurveInterpolator.StreamHoldsAllSegments | src/CurveInterpolator.ts:76-110 | A full scan produces exactly the union of the segments' answers. |
| CurveInterpolator.StreamStopsWhenDone | src/CurveInterpolator.ts:109 | Once the limit is reached, the remaining segments change nothing. |
| CurveInterpolator.StreamSameSign | src/CurveInterpolator.ts:76-98 | The scan depends on max only through its sign. |
| CurveInterpolator.LookupSound | src/CurveInterpolator.ts:57-115 | Every answer has the kind processXY asks for and comes from a segment of the curve. |
| CurveInterpolator.Lookup | src/CurveInterpolator.ts:57-115 | The answers of `valuesLookup` as a specification; no contract of its own, see LookupSound, LookupComplete and ValuesLookup. |
| CurveInterpolator.LookupBounded | src/CurveInterpolator.ts:105-109 | Number answers carry no duplicates. With max ≠ 0 there are at most \|max\| answers. |
| CurveInterpolator.LookupComplete | src/CurveInterpolator.ts:76-114 | Unless the limit was reached, every answer of every segment is returned. |
| CurveInterpolator.LookupFirstN | src/CurveInterpolator.ts:109 | With max > 0 the lookup returns the first max answers of the unlimited lookup. |
| CurveInterpolator.CollectStep | src/CurveInterpolator.ts:100-110 | One step of the inner loop adds the next answer and stops at the limit. |
| CurveInterpolator.AddSolution | src/CurveInterpolator.ts:101-107 | Solving at ts[j] and adding to the set gives exactly the specified answer added. |
| CurveInterpolator.AddSegmentSolutions | src/CurveInterpolator.ts:100-110 | The inner loop leaves the set and the stop flag exactly as collecting the segment's answers after the earlier ones specifies. |
| CurveInterpolator.SolveSegment | src/CurveInterpolator.ts:79-111 | Handling one segment, band test included, is collecting that segment's answers. |
| CurveInterpolator.ScanSegments | src/CurveInterpolator.ts:74-114 | The outer loop, with its early return, returns the specified collection over the scan. |
| CurveInterpolator.ValuesLookup | src/CurveInterpolator.ts:57-115 | The method returns exactly `Lookup`, the function about which the lemmas above are proved. |
| CurveInterpolator.Y | src/CurveInterpolator.ts:23-32 | `y(x)` is the curve's forward value: the first answer of a max = 1 lookup, or none. |
| CurveInterpolator.Curve.ValueAt | src/CurveInterpolator.ts:23-32 | `y(x)`: the first answer of the lookup with axis 0 and max 1; no contract of its own, see ValueAtIsFirstSolution and ValueAtSolutions. |
| CurveInterpolator.ValueAtIsFirstSolution | src/CurveInterpolator.ts:23-32 | The forward value is none exactly when the unlimited lookup finds nothing. Otherwise it is that lookup's first answer. |
| CurveInterpolator.ValueAtSolutions | src/CurveInterpolator.ts:23-32 | A forward value comes from some segment. No value means no segment had an answer. |
| CurveInterpolator.GetTAtValueFlatStart | src/CurveInterpolator.ts:142-158 | On a segment v, v, v, v3 (v3 far enough from v), looking up v gives t = [0, 1]. |
| CurveInterpolator.FirstSolutionStops | src/CurveInterpolator.ts:109 | With limit 1, the first answer of the first segment is the only answer. |
| CurveInterpolator.FlatFirstSegment | src/CurveInterpolator.ts:91-107 | With the points far enough apart (Separated: \|(1 − tension)·(b.x − a.x)/2\| ≥ EPS) and margin ≥ 0, the first segment of the padded pair [a, a, b, b] answers a.y first. |
| CurveInterpolator.PaddedPair | src/CurveInterpolator.ts:41-49 | Two points pad to [a, a, b, b]. |
| CurveInterpolator.PairLookup | src/CurveInterpolator.ts:23-31 | With the points far enough apart (Separated) and margin ≥ 0, the forward lookup of a.x on the padded pair returns exactly [a.y]. |
| CurveInterpolator.TwoPointCurveStartsAtFirstControl | src/CurveInterpolator.ts:19-32 | A two-point curve with its points far enough apart (Separated) and margin ≥ 0, evaluated at the first control's x, gives that control's y. |
| InterpolatedColor.Resolve | src/InterpolatedColor.ts:15 | An `{x, color}` object becomes `[x, color]`. A tuple is kept. |
| InterpolatedColor.ResolveAll | src/InterpolatedColor.ts:15 | Every point is resolved, in order. |
| InterpolatedColor.InsertByPos | src/InterpolatedColor.ts:16 | Insertion adds one point. |
| InterpolatedColor.SortByPos | src/InterpolatedColor.ts:16 | Sorting keeps the length. |
| InterpolatedColor.InsertByPosPermutes | src/InterpolatedColor.ts:16 | Insertion adds exactly x to the multiset. |
| InterpolatedColor.InsertByPosSorted | src/InterpolatedColor.ts:16 | Insertion keeps a list ascending by position. |
| InterpolatedColor.SortByPosCorrect | src/InterpolatedColor.ts:16 | The result is ascending by position and a permutation of the input. |
| InterpolatedColor.SortByPosKeepsSorted | src/InterpolatedColor.ts:16 | An already ascending list is returned unchanged. |
| InterpolatedColor.InsertByPosAt | src/InterpolatedColor.ts:16 | Insertion puts x after the last point whose position is not greater (stable). |
| InterpolatedColor.SortByPosPrefix | src/InterpolatedColor.ts:16 | Sorting one more point inserts it into the sorted prefix. |
| InterpolatedColor.ShiftBack | src/InterpolatedColor.ts:16 | Shifting moves the greater points one place right and puts the moved point where it belongs. Nothing else changes. |
| InterpolatedColor.SwapBackwards | src/InterpolatedColor.ts:16 | The first i + 1 entries become the insertion of a[i] into the first i. The rest is unchanged. |
| InterpolatedColor.SortByPosition | src/InterpolatedColor.ts:16 | The array is sorted in place into exactly `SortByPos` of its old contents. |
| InterpolatedColor.UnwrapStepFacts | src/InterpolatedColor.ts:30-36 | One step changes a hue by 0, +360 or −360, never twice. If the previous hue is within 540 of the current one, they end within 180. |
| InterpolatedColor.UnwrapStep | src/InterpolatedColor.ts:30-36 | One step of the hue unwrap; no contract of its own, its facts are stated by UnwrapStepFacts. |
| InterpolatedColor.Unwrapped | src/InterpolatedColor.ts:27-38 | The unwrap keeps the length. |
| InterpolatedColor.UnwrappedFacts | src/InterpolatedColor.ts:27-38 | Positions are kept, and the first point is unchanged. |
| InterpolatedColor.UnwrappedStep | src/InterpolatedColor.ts:28-36 | Each hue is stepped against the already-unwrapped previous hue. |
| InterpolatedColor.UnwrappedMovesOneTurn | src/InterpolatedColor.ts:27-38 | Every later hue moves by exactly 0, +360 or −360. |
| InterpolatedColor.UnwrappedNeighbours | src/InterpolatedColor.ts:27-38 | If the unwrapped previous hue is within 540 of the current hue, the two end within 180. |
| InterpolatedColor.UnwrapDriftsAfterTwoTurns | src/InterpolatedColor.ts:27-38 | Finding: hues 0, 120, 240, 0, 120, 240, 0 unwrap to …, 600 then 360, a jump of 240. |
| InterpolatedColor.ShortestStepFacts | src/InterpolatedColor.ts:25-36 | The corrected step moves a hue by whole turns to within 180 of the previous hue. It agrees with the source's step whenever the two are within 540. |
| InterpolatedColor.ShortestUnwrapped | src/InterpolatedColor.ts:27-38 | The corrected unwrap keeps the length. |
| InterpolatedColor.ShortestUnwrappedFacts | src/InterpolatedColor.ts:27-38 | Positions are kept, and the first point is unchanged. |
| InterpolatedColor.ShortestUnwrappedStep | src/InterpolatedColor.ts:28-36 | Each hue is stepped against the already-unwrapped previous hue. |
| InterpolatedColor.ShortestUnwrappedTurns | src/InterpolatedColor.ts:25-38 | Every hue moves by whole turns and ends within 180 of its predecessor. |
| InterpolatedColor.ShortestAgreesWithinBound | src/InterpolatedColor.ts:27-38 | When every step of the source's unwrap stays within 540, the corrected unwrap equals it. |
| InterpolatedColor.ShortestCurvesAgreeWithinBound | src/InterpolatedColor.ts:27-44 | The gradient built with the corrected unwrap equals the source's gradient whenever every step of the source's unwrap starts within 540. |
| InterpolatedColor.ShortestUnwrapTwoTurns | src/InterpolatedColor.ts:25-38 | On the finding's input the corrected unwrap gives 600 then 720. |
| InterpolatedColor.UnwrapHues | src/InterpolatedColor.ts:27-38 | The in-place loop, taking the difference once and moving by +360, −360 or not at all, leaves the array equal to the source's unwrap `Unwrapped` of its old contents. |
| InterpolatedColor.ChannelPoints | src/InterpolatedColor.ts:17-40 | One point per colour. Each point pairs the colour's position with the channel's component, in order. |
| InterpolatedColor.HuePointsFacts | src/InterpolatedColor.ts:23-40 | The unwrapped hue points share the sorted positions, the first hue is the first colour's hue, and every hue is its colour's hue moved by 0, +360 or −360. |
| InterpolatedColor.GradientOf | src/InterpolatedColor.ts:12-14 | Construction fails exactly when there are fewer than two points. |
| InterpolatedColor.Curves | src/InterpolatedColor.ts:39-44 | The three channel curves with tension 0.5, the hue channel unwrapped; no contract of its own, see HuePointsFacts and GradientOf. |
| InterpolatedColor.GradientSortsPoints | src/InterpolatedColor.ts:15-44 | The curves are built on a permutation of the resolved points that is ascending by position, and on the given order when it is already ascending. |
| InterpolatedColor.MakeGradient | src/InterpolatedColor.ts:10-45 | Validate, resolve, sort in place, unwrap in place and build the three curves. The result is exactly `GradientOf`. |
| InterpolatedColor.Evaluate | src/InterpolatedColor.ts:46-50 | The colour is the library's formatting of the hue, saturation and lightness curves, each read at the same position. |
| InterpolatedColor.Gradient.ColorAt | src/InterpolatedColor.ts:46-50 | The hex colour at a position; no contract of its own, see Evaluate. |
| InterpolatedColor.TwoPointChannels | src/InterpolatedColor.ts:17-40 | For two ordered points, the channels are the two colours' components, with the second hue moved by the source's step against the first. |
| InterpolatedColor.TwoPointGradientStartsAtFirstColor | src/InterpolatedColor.ts:42-50 | A two-point gradient (positions far enough apart) shows exactly the first colour's hue, saturation and lightness at the first position. |

## Left out

- Floating point: all arithmetic is exact over `real`. `EPS` keeps its value and its role as a tolerance, but IEEE rounding, NaN and infinities are not modelled.
- `Math.sqrt`, `Math.pow`, `Math.acos`, `Math.cos` and `Math.PI` are the fields of an arbitrary `MathLib`. Properties that need an exact square or cube root assume it at the one point they use it (`ExactSqrtAt`). Cardano's formula and the trigonometric method are not proved correct.
- RootSolver.DepressedRoots: the Cardano branch with u = 0 gives no root here. In the source it divides by zero, and the filter then drops the infinite or NaN result. The trigonometric branch with u = 0 (p = 0) cannot be reached, because \|p\| ≥ EPS there.
- RootSolver.CubicRoots: apart from the branch bounds, only the branch with |a| ≥ EPS, |p| ≥ EPS and q = 0 (under an exact square root at −p) is proved to give true roots.
- CurveInterpolator.ExtrapolateArgs: the source pads the caller's array in place and pushes the same object several times. The model works on sequence values, so that aliasing is not captured.
- CurveInterpolator.Sort: `Array.prototype.sort` is modelled by an insertion sort with the same comparator. Only the order and the permutation are claimed, not the engine's algorithm.
- InterpolatedColor.SortByPosition: the in-place sort is modelled as a stable insertion sort. The engine's sort is also stable, so points at equal positions keep their given order.
- Pair answers (`processXY`): the source puts a fresh array per answer into a `Set`, so equal pairs are never merged. The model never merges them either.
- The lookup's axis is 0 or 1 (`Axis`); any other axis value is outside the model.
- Option defaults: `valuesLookup` always receives a complete options value (`DefaultOptions` holds the source's defaults, and `ForwardOptions` overrides them as `y` does).
- CurveInterpolator.Y: `matches[0]` of an empty result is `undefined` in the source and `None` here. The colour library then receives a missing component.
- The colour library (parsing, HSL conversion, hex output) is an arbitrary `ColorLib`, so the exact hex strings of the tests are not modelled. The test files of two library versions disagree on them.
- InterpolatedColor.TwoPointGradientStartsAtFirstColor: control colours are proved to be reproduced only for the first control of a two-point gradient. Other controls go through the general cubic solver, whose roots are only as exact as the library's square and cube roots.
- The closures returned by `CurveInterpolator` and `InterpolatedColor` are a `Curve` and a `Gradient` datatype with an evaluation function.
- The lookup's ghost segment table exists only for the proof. The loop recomputes each segment just as the source does.

## Findings

| source | as written | input that shows it | evidently intended | confidence | as-written member | corrected member |
|---|---|---|---|---|---|---|
| src/InterpolatedColor.ts:27-38 | Each hue moves by a single ±360 relative to the already-unwrapped previous hue. After two full turns the previous hue is more than 540 away, and consecutive hues end more than 180 apart. | Hues 0, 120, 240, 0, 120, 240, 0 at positions 0–6: the sixth hue unwraps to 600 and the seventh to 360, a 240-degree jump backwards. | "Hue always takes the shortest path": every hue is moved by whole turns to within 180 of its predecessor, so the seventh hue is 720. | not executed; high for the input shown | InterpolatedColor.UnwrapDriftsAfterTwoTurns | InterpolatedColor.ShortestUnwrapTwoTurns (with ShortestUnwrappedTurns and ShortestCurvesAgreeWithinBound) |

The gradient (`Curves`, `GradientOf`, `UnwrapHues`, `MakeGradient`) is built with the unwrap as written, drift included. The corrected pass is kept beside it as `ShortestUnwrapped` and `ShortestCurves`.
