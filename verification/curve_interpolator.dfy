/** A one-dimensional cubic (cardinal) spline through 2D control points,
    evaluated by inverse lookup: given a target on one axis, find where each
    segment crosses it and report the other axis there. */
module CurveInterpolator {
  import opened Wrappers
  import opened RootSolver

  /** Index of a coordinate: 0 is position, 1 is value. */
  type Axis = k: int | 0 <= k <= 1

  /** A control point: [position, value]. */
  datatype Vector = Vector(x: real, y: real) {
    function At(k: Axis): real
    {
      if k == 0 then x else y
    }
  }

  /** The axis that is read when the target is measured on axis k. */
  function Other(k: Axis): (l: Axis)
    ensures l != k
  {
    if k != 0 then 0 else 1
  }

  // ---------------------------------------------------------------------
  // Padding to four control points

  /** Repeat the last point until there are at least four. */
  function PadTail(s: seq<Vector>): (r: seq<Vector>)
    requires |s| > 0
    ensures |r| == if |s| < 4 then 4 else |s|
    ensures r[..|s|] == s
    ensures forall j :: |s| <= j < |r| ==> r[j] == s[|s| - 1]
    decreases 4 - |s|
  {
    if |s| >= 4 then s else PadTail(s + [s[|s| - 1]])
  }

  /** The point list the spline is built on: the first point once more in
      front, then the last point repeated up to four points. */
  function Padded(pts: seq<Vector>): (r: seq<Vector>)
    requires |pts| > 0
    ensures |pts| < 4 ==> |r| == 4 && r[0] == pts[0] && r[1..|pts| + 1] == pts
    ensures |pts| < 4 ==> forall j :: |pts| + 1 <= j < 4 ==> r[j] == pts[|pts| - 1]
    ensures |pts| >= 4 ==> r == pts
  {
    if |pts| < 4 then
      var s := [pts[0]] + pts;
      assert s[1..] == pts;
      PadTail(s)
    else pts
  }

  /** Padding as the source performs it: unshift once, then push the last
      element while there are fewer than four. */
  method ExtrapolateArgs(args: seq<Vector>) returns (r: seq<Vector>)
    requires |args| > 0
    ensures r == Padded(args)
  {
    r := args;
    if |r| < 4 {
      r := [r[0]] + r;
    }
    while |r| < 4
      invariant |r| > 0 && PadTail(r) == Padded(args)
      decreases 4 - |r|
    {
      r := r + [r[|r| - 1]];
    }
  }

  /** A curve: its (padded) control points and its tension. */
  datatype Curve = Curve(points: seq<Vector>, tension: real) {
    /** y(x, margin): the value at the first solution of a forward lookup
        of x on the position axis that stops at one solution; none when the
        lookup finds nothing. */
    function ValueAt(x: real, margin: real, m: MathLib): Option<real>
    {
      var opts := ForwardOptions(tension, margin);
      var ms := Lookup(x, points, opts, m);
      if ms == [] then None
      else
        LookupSound(x, points, opts, m);
        assert ms[0] in ms;
        Some(ms[0].v)
    }
  }

  /** The options y passes, spread over the lookup's defaults: position
      axis, the curve's tension and margin, stop at one solution, numbers
      rather than pairs. */
  function ForwardOptions(tension: real, margin: real): LookupOptions
  {
    DefaultOptions.(axis := 0, tension := tension, margin := margin, max := 1)
  }

  /** Build a curve; lists of one to three points are padded, an empty list or
      one of four or more points is kept as it is. */
  function MakeCurve(pts: seq<Vector>, tension: real): (c: Curve)
    ensures c.tension == tension
    ensures |pts| == 0 || |pts| >= 4 ==> c.points == pts
    ensures |pts| > 0 ==> |c.points| >= 4 && c.points[0] == pts[0]
    ensures |pts| > 0 ==> c.points[|c.points| - 1] == pts[|pts| - 1]
    ensures forall p :: p in c.points <==> p in pts
  {
    var points := if |pts| > 0 && |pts| < 4 then Padded(pts) else pts;
    assert |pts| > 0 && |pts| < 4 ==> forall p :: p in pts ==> p in points by {
      if |pts| > 0 && |pts| < 4 {
        forall p | p in pts ensures p in points {
          var i :| 0 <= i < |pts| && pts[i] == p;
          assert points[i + 1] == p;
        }
      }
    }
    Curve(points, tension)
  }

  // ---------------------------------------------------------------------
  // One segment: coefficients and evaluation

  /** The cubic a*t^3 + b*t^2 + c*t + d of one segment. */
  datatype Coeffs = Coeffs(a: real, b: real, c: real, d: real) {
    function At(t: real): real
    {
      a * t * t * t + b * t * t + c * t + d
    }

    /** The derivative 3a*t^2 + 2b*t + c. */
    function SlopeAt(t: real): real
    {
      3.0 * a * t * t + 2.0 * b * t + c
    }

    predicate IsZero()
    {
      a == 0.0 && b == 0.0 && c == 0.0 && d == 0.0
    }
  }

  /** Coefficients of the segment between v1 and v2 (neighbours v0 and v3),
      shifted down by the target v. */
  function GetCoefficients(v0: real, v1: real, v2: real, v3: real, v: real, tension: real): (r: Coeffs)
    ensures r.At(0.0) == v1 - v
    ensures r.At(1.0) == v2 - v
  {
    var c := (1.0 - tension) * (v2 - v0) * 0.5;
    var x := (1.0 - tension) * (v3 - v1) * 0.5;
    var a := 2.0 * v1 - 2.0 * v2 + c + x;
    var b := -3.0 * v1 + 3.0 * v2 - 2.0 * c - x;
    var d := v1 - v;
    Coeffs(a, b, c, d)
  }

  /** The tangents at the two ends of a segment are the cardinal-spline
      tangents (1 - tension)(v2 - v0)/2 and (1 - tension)(v3 - v1)/2. */
  lemma SegmentTangents(v0: real, v1: real, v2: real, v3: real, v: real, tension: real)
    ensures GetCoefficients(v0, v1, v2, v3, v, tension).SlopeAt(0.0) == (1.0 - tension) * (v2 - v0) * 0.5
    ensures GetCoefficients(v0, v1, v2, v3, v, tension).SlopeAt(1.0) == (1.0 - tension) * (v3 - v1) * 0.5
  {
  }

  /** The target only moves the constant term, so t solves the shifted cubic
      exactly when the unshifted spline takes the target value at t. */
  lemma TargetShiftsOnlyConstant(v0: real, v1: real, v2: real, v3: real, v: real, tension: real, t: real)
    ensures var shifted := GetCoefficients(v0, v1, v2, v3, v, tension);
      var plain := GetCoefficients(v0, v1, v2, v3, 0.0, tension);
      shifted.a == plain.a && shifted.b == plain.b && shifted.c == plain.c && shifted.d == plain.d - v
    ensures GetCoefficients(v0, v1, v2, v3, v, tension).At(t) == 0.0
        <==> GetCoefficients(v0, v1, v2, v3, 0.0, tension).At(t) == v
  {
  }

  /** The spline value at t; within EPS of either end of the segment it
      snaps to the control value there, elsewhere it is the cubic. */
  function SolveForT(t: real, tension: real, v0: real, v1: real, v2: real, v3: real): (r: real)
    ensures Abs(t) < EPS ==> r == v1
    ensures Abs(1.0 - t) < EPS ==> r == v2
  {
    if Abs(t) < EPS then v1
    else if Abs(1.0 - t) < EPS then v2
    else
      var cf := GetCoefficients(v0, v1, v2, v3, 0.0, tension);
      var t2 := t * t;
      var t3 := t * t2;
      cf.a * t3 + cf.b * t2 + cf.c * t + cf.d
  }

  /** Away from the snapping zones, and exactly at both ends, SolveForT is
      the segment's cubic: the short-cuts agree with the polynomial at 0 and 1. */
  lemma SolveForTIsSpline(t: real, tension: real, v0: real, v1: real, v2: real, v3: real)
    requires t == 0.0 || t == 1.0 || (Abs(t) >= EPS && Abs(1.0 - t) >= EPS)
    ensures SolveForT(t, tension, v0, v1, v2, v3) == GetCoefficients(v0, v1, v2, v3, 0.0, tension).At(t)
  {
  }

  /** A root is kept when it lies in (-EPS, 1 + EPS]. */
  predicate InWindow(t: real)
  {
    t > -EPS && t <= 1.0 + EPS
  }

  /** Keep the roots in the window, clamped into [0, 1], in their order. */
  function KeepInWindow(roots: seq<real>): (r: seq<real>)
    ensures |r| <= |roots|
  {
    if roots == [] then []
    else (if InWindow(roots[0]) then [Clamp(roots[0], 0.0, 1.0)] else []) + KeepInWindow(roots[1..])
  }

  /** The kept parameters lie in [0, 1]; each is a clamped root in the
      window, and every root in the window is kept. */
  lemma {:induction false} KeepInWindowFacts(roots: seq<real>)
    ensures var r := KeepInWindow(roots);
      && (forall t :: t in r ==> 0.0 <= t <= 1.0)
      && (forall t :: t in r ==> exists u :: u in roots && InWindow(u) && Clamp(u, 0.0, 1.0) == t)
      && (forall u :: u in roots && InWindow(u) ==> Clamp(u, 0.0, 1.0) in r)
  {
    if roots != [] {
      KeepInWindowFacts(roots[1..]);
      assert roots == [roots[0]] + roots[1..];
      var head := if InWindow(roots[0]) then [Clamp(roots[0], 0.0, 1.0)] else [];
      assert KeepInWindow(roots) == head + KeepInWindow(roots[1..]);
    }
  }

  /** The parameters in [0, 1] at which a segment takes the value lookup.
      A segment whose shifted coefficients all vanish is constant at the
      target and answers t = 0. */
  function GetTAtValue(lookup: real, tension: real, v0: real, v1: real, v2: real, v3: real, m: MathLib): seq<real>
  {
    var cf := GetCoefficients(v0, v1, v2, v3, lookup, tension);
    if cf.a == 0.0 && cf.b == 0.0 && cf.c == 0.0 && cf.d == 0.0 then [0.0] else KeepInWindow(CubicRoots(cf.a, cf.b, cf.c, cf.d, m))
  }

  /** The answer built from at most three roots: [0] in the constant case,
      else the roots in the window, clamped. */
  lemma WindowAnswer(constant: bool, roots: seq<real>)
    requires |roots| <= 3
    ensures var r := if constant then [0.0] else KeepInWindow(roots);
      && |r| <= 3
      && (forall t :: t in r ==> 0.0 <= t <= 1.0)
      && (!constant ==> forall t :: t in r ==> exists u :: u in roots && InWindow(u) && Clamp(u, 0.0, 1.0) == t)
      && (!constant ==> forall u :: u in roots && InWindow(u) ==> Clamp(u, 0.0, 1.0) in r)
  {
    if !constant {
      KeepInWindowFacts(roots);
    }
  }

  /** At most three parameters are returned, all in [0, 1]. A constant
      segment answers [0]; otherwise each parameter is a root of the shifted
      cubic in the window, clamped, and every such root is returned. */
  lemma GetTAtValueRoots(lookup: real, tension: real, v0: real, v1: real, v2: real, v3: real, m: MathLib)
    ensures var r := GetTAtValue(lookup, tension, v0, v1, v2, v3, m);
      |r| <= 3 && forall t :: t in r ==> 0.0 <= t <= 1.0
    ensures GetCoefficients(v0, v1, v2, v3, lookup, tension).IsZero() ==>
      GetTAtValue(lookup, tension, v0, v1, v2, v3, m) == [0.0]
    ensures var cf := GetCoefficients(v0, v1, v2, v3, lookup, tension);
      var roots := CubicRoots(cf.a, cf.b, cf.c, cf.d, m);
      var r := GetTAtValue(lookup, tension, v0, v1, v2, v3, m);
      !cf.IsZero() ==>
        && (forall t :: t in r ==> exists u :: u in roots && InWindow(u) && Clamp(u, 0.0, 1.0) == t)
        && (forall u :: u in roots && InWindow(u) ==> Clamp(u, 0.0, 1.0) in r)
  {
    var cf := GetCoefficients(v0, v1, v2, v3, lookup, tension);
    var roots := CubicRoots(cf.a, cf.b, cf.c, cf.d, m);
    WindowAnswer(cf.IsZero(), roots);
  }

  // ---------------------------------------------------------------------
  // Sorting candidate parameters

  predicate Before(x: real, y: real, descending: bool)
  {
    if descending then x >= y else x <= y
  }

  /** Each parameter comes before the next one. */
  predicate Ordered(s: seq<real>, descending: bool)
  {
    |s| < 2 || (Before(s[0], s[1], descending) && Ordered(s[1..], descending))
  }

  /** In an ordered sequence every element comes before every later one. */
  lemma {:induction false} OrderedPairwise(s: seq<real>, descending: bool)
    requires Ordered(s, descending)
    ensures forall i, j :: 0 <= i < j < |s| ==> Before(s[i], s[j], descending)
  {
    if |s| >= 2 {
      OrderedPairwise(s[1..], descending);
      forall i, j | 0 <= i < j < |s| ensures Before(s[i], s[j], descending) {
        if i > 0 {
          assert s[i] == s[1..][i - 1] && s[j] == s[1..][j - 1];
        } else if j > 1 {
          assert s[1] == s[1..][0] && s[j] == s[1..][j - 1];
        }
      }
    }
  }

  function Insert(x: real, s: seq<real>, descending: bool): (r: seq<real>)
    requires Ordered(s, descending)
    ensures Ordered(r, descending)
    ensures |r| == |s| + 1
    ensures r[0] == x || (s != [] && r[0] == s[0])
  {
    if s == [] then [x]
    else if Before(x, s[0], descending) then
      assert ([x] + s)[1..] == s;
      [x] + s
    else
      var rest := Insert(x, s[1..], descending);
      var r := [s[0]] + rest;
      assert r[1..] == rest;
      r
  }

  lemma {:induction false} InsertPermutes(x: real, s: seq<real>, descending: bool)
    requires Ordered(s, descending)
    ensures multiset(Insert(x, s, descending)) == multiset(s) + multiset{x}
  {
    if s != [] && !Before(x, s[0], descending) {
      InsertPermutes(x, s[1..], descending);
      assert s == [s[0]] + s[1..];
    }
  }

  /** The numeric sort of the candidate parameters: ascending, or descending
      when the lookup scans backwards. */
  function Sort(s: seq<real>, descending: bool): (r: seq<real>)
    ensures Ordered(r, descending)
    ensures |r| == |s|
  {
    if s == [] then [] else Insert(s[0], Sort(s[1..], descending), descending)
  }

  /** Sorting permutes: the same parameters with the same multiplicities. */
  lemma {:induction false} SortPermutes(s: seq<real>, descending: bool)
    ensures multiset(Sort(s, descending)) == multiset(s)
  {
    if s != [] {
      SortPermutes(s[1..], descending);
      InsertPermutes(s[0], Sort(s[1..], descending), descending);
      assert s == [s[0]] + s[1..];
    }
  }

  /** Hence sorting keeps exactly the same parameters. */
  lemma SortMembers(s: seq<real>, descending: bool)
    ensures forall t :: t in Sort(s, descending) <==> t in s
  {
    var r := Sort(s, descending);
    SortPermutes(s, descending);
    assert forall t :: t in r <==> t in multiset(r);
    assert forall t :: t in s <==> t in multiset(s);
  }

  // ---------------------------------------------------------------------
  // Inverse lookup

  /** Lookup options; the source's defaults are axis 0, tension 0.5,
      margin 0.5, max 0 and no (x, y) pairs. */
  datatype LookupOptions = LookupOptions(axis: Axis, tension: real, margin: real, max: int, processXY: bool)

  const DefaultOptions := LookupOptions(0, 0.5, 0.5, 0, false)

  /** One solution: the value on the other axis, or the whole (x, y) point. */
  datatype Match = Scalar(v: real) | Pair(p: Vector)

  /** Math.abs(max): how many solutions stop the scan (0: never). */
  function Limit(max: int): (n: nat)
    ensures n == 0 <==> max == 0
  {
    if max < 0 then -max else max
  }

  /** Number of segments of a point list. */
  function Segments(n: nat): nat
  {
    if n == 0 then 0 else n - 1
  }

  /** The segment visited at step i (1-based): forward, or backward when max
      is negative. */
  function ScanIndex(n: nat, max: int, i: nat): (idx: nat)
    requires 1 <= i < n
    ensures 1 <= idx < n
  {
    if max < 0 then n - i else i
  }

  /** The step at which segment idx is visited. */
  function ScanStep(n: nat, max: int, idx: nat): (i: nat)
    requires 1 <= idx < n
    ensures 1 <= i < n && ScanIndex(n, max, i) == idx
  {
    if max < 0 then n - idx else idx
  }

  /** The scan visits every segment exactly once, in increasing order when
      max >= 0 and in decreasing order when max < 0. */
  lemma ScanVisitsEachSegmentOnce(n: nat, max: int, i: nat, j: nat)
    requires 1 <= i < n && 1 <= j < n
    ensures ScanIndex(n, max, i) == ScanIndex(n, max, j) <==> i == j
    ensures i < j && max >= 0 ==> ScanIndex(n, max, i) < ScanIndex(n, max, j)
    ensures i < j && max < 0 ==> ScanIndex(n, max, i) > ScanIndex(n, max, j)
    ensures ScanStep(n, max, ScanIndex(n, max, i)) == i
  {
  }

  /** Indices of the four control points of segment idx. */
  datatype Window = Window(i0: nat, i1: nat, i2: nat, i3: nat)

  function Neighbours(n: nat, idx: nat): (w: Window)
    requires 1 <= idx < n
    ensures w.i0 < n && w.i1 < n && w.i2 < n && w.i3 < n
    ensures w.i1 == idx - 1 && w.i2 == idx
    ensures w.i0 == (if idx >= 2 then idx - 2 else 0)
    ensures w.i3 == (if idx + 1 <= n - 1 then idx + 1 else n - 1)
    ensures w.i0 <= w.i1 <= w.i2 <= w.i3
  {
    Window(if idx - 1 == 0 then 0 else idx - 2, idx - 1, idx, if idx > n - 2 then n - 1 else idx + 1)
  }

  /** The segment from u to w is solved only when lookup lies within margin
      of the range between them. */
  predicate InBand(lookup: real, margin: real, u: real, w: real)
    ensures InBand(lookup, margin, u, w) <==>
      (lookup - margin <= u || lookup - margin <= w) && (lookup + margin >= u || lookup + margin >= w)
  {
    var vmin := if u < w then u else w;
    var vmax := if u < w then w else u;
    lookup - margin <= vmax && lookup + margin >= vmin
  }

  /** The candidate parameters of segment idx, in scan order; none when the
      segment lies outside the margin band. */
  function SegmentTs(points: seq<Vector>, idx: nat, lookup: real, opts: LookupOptions, m: MathLib): (r: seq<real>)
    requires 1 <= idx < |points|
    ensures !InBand(lookup, opts.margin, points[idx - 1].At(opts.axis), points[idx].At(opts.axis)) ==> r == []
    ensures Ordered(r, opts.max < 0)
  {
    var k := opts.axis;
    var p1 := points[idx - 1];
    var p2 := points[idx];
    if !InBand(lookup, opts.margin, p1.At(k), p2.At(k)) then []
    else
      var w := Neighbours(|points|, idx);
      var ts := GetTAtValue(lookup, opts.tension, points[w.i0].At(k), p1.At(k), p2.At(k), points[w.i3].At(k), m);
      Sort(ts, opts.max < 0)
  }

  /** Every candidate parameter of a segment lies in [0, 1]. */
  lemma SegmentTsInUnitInterval(points: seq<Vector>, idx: nat, lookup: real, opts: LookupOptions, m: MathLib)
    requires 1 <= idx < |points|
    ensures forall t :: t in SegmentTs(points, idx, lookup, opts, m) ==> 0.0 <= t <= 1.0
  {
    var k := opts.axis;
    var w := Neighbours(|points|, idx);
    var ts := GetTAtValue(lookup, opts.tension, points[w.i0].At(k), points[idx - 1].At(k), points[idx].At(k), points[w.i3].At(k), m);
    GetTAtValueRoots(lookup, opts.tension, points[w.i0].At(k), points[idx - 1].At(k), points[idx].At(k), points[w.i3].At(k), m);
    SortMembers(ts, opts.max < 0);
  }

  /** The solution reported for parameter t of the segment p0..p3. Near
      either end it is exactly the control point's coordinate there. */
  function MatchAt(p0: Vector, p1: Vector, p2: Vector, p3: Vector, t: real, opts: LookupOptions): (r: Match)
    ensures r.Scalar? <==> !opts.processXY
    ensures Abs(t) < EPS ==> r == if opts.processXY then Pair(p1) else Scalar(p1.At(Other(opts.axis)))
    ensures Abs(1.0 - t) < EPS ==> r == if opts.processXY then Pair(p2) else Scalar(p2.At(Other(opts.axis)))
  {
    var k := opts.axis;
    var l := Other(k);
    var v := SolveForT(t, opts.tension, p0.At(l), p1.At(l), p2.At(l), p3.At(l));
    if opts.processXY then
      var av := SolveForT(t, opts.tension, p0.At(k), p1.At(k), p2.At(k), p3.At(k));
      Pair(if k == 0 then Vector(av, v) else Vector(v, av))
    else Scalar(v)
  }

  /** The solutions at the parameters ts of the segment p0..p3, in order. */
  function MatchesAt(p0: Vector, p1: Vector, p2: Vector, p3: Vector, ts: seq<real>, opts: LookupOptions): (r: seq<Match>)
    ensures |r| == |ts|
  {
    if ts == [] then []
    else [MatchAt(p0, p1, p2, p3, ts[0], opts)] + MatchesAt(p0, p1, p2, p3, ts[1..], opts)
  }

  /** The j-th solution of a segment is the one at its j-th parameter. */
  lemma {:induction false} MatchesAtIndex(p0: Vector, p1: Vector, p2: Vector, p3: Vector, ts: seq<real>, opts: LookupOptions, j: nat)
    requires j < |ts|
    ensures MatchesAt(p0, p1, p2, p3, ts, opts)[j] == MatchAt(p0, p1, p2, p3, ts[j], opts)
    decreases j
  {
    if j > 0 {
      MatchesAtIndex(p0, p1, p2, p3, ts[1..], opts, j - 1);
    }
  }

  /** The solutions segment idx contributes, in the order of its sorted parameters. */
  function SegmentMatches(points: seq<Vector>, idx: nat, lookup: real, opts: LookupOptions, m: MathLib): (r: seq<Match>)
    requires 1 <= idx < |points|
    ensures |r| == |SegmentTs(points, idx, lookup, opts, m)|
  {
    var w := Neighbours(|points|, idx);
    MatchesAt(points[w.i0], points[w.i1], points[w.i2], points[w.i3], SegmentTs(points, idx, lookup, opts, m), opts)
  }

  /** A segment's solutions spelled out: nothing outside the margin band,
      otherwise the solutions at its sorted roots. */
  lemma SegmentMatchesUnfold(points: seq<Vector>, idx: nat, lookup: real, opts: LookupOptions, m: MathLib)
    requires 1 <= idx < |points|
    ensures var k := opts.axis;
      var w := Neighbours(|points|, idx);
      var p0, p1, p2, p3 := points[w.i0], points[idx - 1], points[idx], points[w.i3];
      SegmentMatches(points, idx, lookup, opts, m) ==
        if InBand(lookup, opts.margin, p1.At(k), p2.At(k)) then
          MatchesAt(p0, p1, p2, p3, Sort(GetTAtValue(lookup, opts.tension, p0.At(k), p1.At(k), p2.At(k), p3.At(k), m), opts.max < 0), opts)
        else []
  {
  }

  /** A segment yields numbers exactly when no (x, y) pairs were asked for. */
  lemma {:induction false} MatchesAtKind(p0: Vector, p1: Vector, p2: Vector, p3: Vector, ts: seq<real>, opts: LookupOptions)
    ensures forall x :: x in MatchesAt(p0, p1, p2, p3, ts, opts) ==> (x.Scalar? <==> !opts.processXY)
  {
    if ts != [] {
      MatchesAtKind(p0, p1, p2, p3, ts[1..], opts);
    }
  }

  /** The insertion-ordered solution set and whether the limit was reached. */
  datatype Acc = Acc(found: seq<Match>, done: bool)

  /** Adding to the solution set: a number already present is not added
      again; an (x, y) pair is a fresh array and is always added. */
  function Add(found: seq<Match>, x: Match): seq<Match>
  {
    if x.Scalar? && x in found then found else found + [x]
  }

  /** Feed solutions to the set one by one, stopping as soon as it holds
      `limit` of them (never when limit is 0). */
  function Collect(s: seq<Match>, limit: nat): Acc
  {
    if s == [] then Acc([], false)
    else
      var prev := Collect(s[..|s| - 1], limit);
      if prev.done then prev
      else
        var f := Add(prev.found, s[|s| - 1]);
        Acc(f, |f| == limit)
  }

  /** The first k rows of row, row 1 first. */
  function Table(row: nat -> seq<Match>, k: nat): (r: seq<seq<Match>>)
    ensures |r| == k
  {
    if k == 0 then [] else Table(row, k - 1) + [row(k)]
  }

  /** Entry idx - 1 of the table is row idx. */
  lemma {:induction false} TableAt(row: nat -> seq<Match>, k: nat, idx: nat)
    requires 1 <= idx <= k
    ensures Table(row, k)[idx - 1] == row(idx)
  {
    if idx < k {
      TableAt(row, k - 1, idx);
    }
  }

  /** Tables of rows that agree on 1 .. k are equal. */
  lemma {:induction false} TableAgrees(row: nat -> seq<Match>, row': nat -> seq<Match>, k: nat)
    requires forall idx :: 1 <= idx <= k ==> row(idx) == row'(idx)
    ensures Table(row, k) == Table(row', k)
  {
    if k > 0 {
      TableAgrees(row, row', k - 1);
    }
  }

  /** The solutions of segment idx, for every segment of the curve. */
  function SegmentRow(points: seq<Vector>, lookup: real, opts: LookupOptions, m: MathLib): nat -> seq<Match>
  {
    idx => if 1 <= idx < |points| then SegmentMatches(points, idx, lookup, opts, m) else []
  }

  /** The solutions of segments 1 .. k, one list per segment, in index order. */
  function SegmentTable(points: seq<Vector>, lookup: real, opts: LookupOptions, m: MathLib, k: nat): (r: seq<seq<Match>>)
    requires k <= Segments(|points|)
    ensures |r| == k
  {
    Table(SegmentRow(points, lookup, opts, m), k)
  }

  /** Entry idx - 1 of the table holds the solutions of segment idx. */
  lemma SegmentTableAt(points: seq<Vector>, lookup: real, opts: LookupOptions, m: MathLib, k: nat, idx: nat)
    requires 1 <= idx <= k <= Segments(|points|)
    ensures SegmentTable(points, lookup, opts, m, k)[idx - 1] == SegmentMatches(points, idx, lookup, opts, m)
  {
    TableAt(SegmentRow(points, lookup, opts, m), k, idx);
  }

  /** The table entry visited at step i of the scan. */
  function ScanSegment(segs: seq<seq<Match>>, max: int, i: nat): seq<Match>
    requires 1 <= i <= |segs|
  {
    segs[ScanIndex(|segs| + 1, max, i) - 1]
  }

  /** The solutions of the first `steps` segments of a table in scan order. */
  function Stream(segs: seq<seq<Match>>, max: int, steps: nat): seq<Match>
    requires steps <= |segs|
  {
    if steps == 0 then []
    else Stream(segs, max, steps - 1) + ScanSegment(segs, max, steps)
  }

  /** The result of valuesLookup. */
  function Lookup(lookup: real, points: seq<Vector>, opts: LookupOptions, m: MathLib): seq<Match>
  {
    var segs := SegmentTable(points, lookup, opts, m, Segments(|points|));
    Collect(Stream(segs, opts.max, |segs|), Limit(opts.max)).found
  }

  // ----- facts about Collect and Stream

  /** The set only holds solutions of s, and the first solution of s is
      always its first entry. */
  lemma {:induction false} CollectSound(s: seq<Match>, limit: nat)
    ensures var acc := Collect(s, limit);
      && (forall x :: x in acc.found ==> x in s)
      && (s != [] ==> acc.found != [] && acc.found[0] == s[0])
  {
    if s != [] {
      var init := s[..|s| - 1];
      CollectSound(init, limit);
      assert forall x :: x in init ==> x in s;
      if init != [] {
        assert s[0] == init[0];
      }
    }
  }

  /** No number appears twice (pairs may). */
  predicate Distinct(found: seq<Match>)
  {
    forall i, j :: 0 <= i < j < |found| && found[j].Scalar? ==> found[i] != found[j]
  }

  /** The set never holds a number twice. */
  lemma {:induction false} CollectDistinct(s: seq<Match>, limit: nat)
    ensures Distinct(Collect(s, limit).found)
  {
    if s != [] {
      var init := s[..|s| - 1];
      CollectDistinct(init, limit);
      var prev := Collect(init, limit);
      if !prev.done {
        var x := s[|s| - 1];
        var f := Add(prev.found, x);
        assert Collect(s, limit).found == f;
        if f != prev.found {
          assert f == prev.found + [x];
          forall i, j | 0 <= i < j < |f| && f[j].Scalar?
            ensures f[i] != f[j]
          {
            assert f[i] == prev.found[i];
            if j == |prev.found| {
              assert f[j] == x && x !in prev.found;
            } else {
              assert f[j] == prev.found[j];
            }
          }
        }
      } else {
        assert Collect(s, limit) == prev;
      }
    }
  }

  /** A finished set holds exactly limit solutions; an unfinished one holds
      every solution of s and fewer than a positive limit. */
  lemma {:induction false} CollectSize(s: seq<Match>, limit: nat)
    ensures var acc := Collect(s, limit);
      && (acc.done ==> limit > 0 && |acc.found| == limit)
      && (!acc.done ==> (forall x :: x in s ==> x in acc.found) && (limit > 0 ==> |acc.found| < limit))
  {
    if s != [] {
      var init := s[..|s| - 1];
      CollectSize(init, limit);
      var prev := Collect(init, limit);
      if !prev.done {
        var x := s[|s| - 1];
        assert forall y :: y in s ==> y in init || y == x by {
          assert s == init + [x];
        }
      }
    }
  }

  /** What the solution set holds after any prefix of the solutions. */
  lemma CollectFacts(s: seq<Match>, limit: nat)
    ensures var acc := Collect(s, limit);
      && (forall x :: x in acc.found ==> x in s)
      && (forall i, j :: 0 <= i < j < |acc.found| && acc.found[j].Scalar? ==> acc.found[i] != acc.found[j])
      && (acc.done ==> limit > 0 && |acc.found| == limit)
      && (!acc.done ==> (forall x :: x in s ==> x in acc.found) && (limit > 0 ==> |acc.found| < limit))
      && (s != [] ==> acc.found != [] && acc.found[0] == s[0])
  {
    CollectSound(s, limit);
    CollectDistinct(s, limit);
    CollectSize(s, limit);
  }

  /** Once the limit is reached, later solutions change nothing. */
  lemma {:induction false} CollectStable(s: seq<Match>, k: nat, limit: nat)
    requires k <= |s| && Collect(s[..k], limit).done
    ensures Collect(s, limit) == Collect(s[..k], limit)
    decreases |s| - k
  {
    if k < |s| {
      var init := s[..|s| - 1];
      assert init[..k] == s[..k];
      CollectStable(init, k, limit);
    } else {
      assert s[..k] == s;
    }
  }

  /** One more solution: unless the limit was already reached, it is added
      to the set, and the limit is reached when the set's size hits it. */
  lemma CollectSnoc(s: seq<Match>, x: Match, limit: nat)
    requires !Collect(s, limit).done
    ensures Collect(s + [x], limit) == (var f := Add(Collect(s, limit).found, x); Acc(f, |f| == limit))
  {
    assert (s + [x])[..|s|] == s;
  }

  /** Once the set is full after `before` and the first k solutions of ms,
      the rest of ms changes nothing. */
  lemma CollectDoneEarly(before: seq<Match>, ms: seq<Match>, k: nat, limit: nat)
    requires k <= |ms| && Collect(before + ms[..k], limit).done
    ensures Collect(before + ms, limit) == Collect(before + ms[..k], limit)
  {
    assert (before + ms)[..|before| + k] == before + ms[..k];
    CollectStable(before + ms, |before| + k, limit);
  }

  /** With a positive limit the set holds the first `limit` entries of the
      unbounded set. */
  lemma {:induction false} CollectIsPrefixOfUnbounded(s: seq<Match>, limit: nat)
    requires limit > 0
    ensures var all := Collect(s, 0).found;
      Collect(s, limit).found == all[..if |all| < limit then |all| else limit]
  {
    CollectFacts(s, 0);
    if s != [] {
      var init := s[..|s| - 1];
      CollectIsPrefixOfUnbounded(init, limit);
      CollectFacts(init, limit);
      CollectFacts(init, 0);
      var all' := Collect(init, 0).found;
      var all := Collect(s, 0).found;
      assert all == Add(all', s[|s| - 1]);
      assert all[..|all'|] == all';
    }
  }

  /** A solution is streamed exactly when one of the streamed segments yields it. */
  lemma {:induction false} StreamMembers(segs: seq<seq<Match>>, max: int, steps: nat, x: Match)
    requires steps <= |segs|
    ensures x in Stream(segs, max, steps) <==>
      exists i :: 1 <= i <= steps && x in ScanSegment(segs, max, i)
  {
    if steps > 0 {
      StreamMembers(segs, max, steps - 1, x);
      var last := ScanSegment(segs, max, steps);
      assert x in Stream(segs, max, steps) <==> x in Stream(segs, max, steps - 1) || x in last;
    }
  }

  /** A shorter stream is a prefix of a longer one. */
  lemma {:induction false} StreamPrefix(segs: seq<seq<Match>>, max: int, steps: nat, total: nat)
    requires steps <= total <= |segs|
    ensures var s := Stream(segs, max, steps);
      var t := Stream(segs, max, total);
      |s| <= |t| && t[..|s|] == s
    decreases total
  {
    if steps < total {
      StreamPrefix(segs, max, steps, total - 1);
      var s := Stream(segs, max, steps);
      var prev := Stream(segs, max, total - 1);
      assert (prev + ScanSegment(segs, max, total))[..|s|] == prev[..|s|];
    }
  }

  /** The whole stream holds exactly the solutions of all table entries. */
  lemma StreamHoldsAllSegments(segs: seq<seq<Match>>, max: int, x: Match)
    ensures x in Stream(segs, max, |segs|) <==> exists g :: 0 <= g < |segs| && x in segs[g]
  {
    StreamMembers(segs, max, |segs|, x);
    if x in Stream(segs, max, |segs|) {
      var i :| 1 <= i <= |segs| && x in ScanSegment(segs, max, i);
      var g := ScanIndex(|segs| + 1, max, i) - 1;
      assert x in segs[g];
    }
    if exists g :: 0 <= g < |segs| && x in segs[g] {
      var g :| 0 <= g < |segs| && x in segs[g];
      var i := ScanStep(|segs| + 1, max, g + 1);
      assert ScanSegment(segs, max, i) == segs[g];
    }
  }

  /** Once the first `steps` segments fill the set, the set over the
      whole stream is the same. */
  lemma StreamStopsWhenDone(segs: seq<seq<Match>>, max: int, steps: nat, limit: nat)
    requires steps <= |segs| && Collect(Stream(segs, max, steps), limit).done
    ensures Collect(Stream(segs, max, |segs|), limit) == Collect(Stream(segs, max, steps), limit)
  {
    var s := Stream(segs, max, steps);
    StreamPrefix(segs, max, steps, |segs|);
    CollectStable(Stream(segs, max, |segs|), |s|, limit);
  }

  /** The table depends on max only through its sign. */
  lemma SegmentTableSameDirection(points: seq<Vector>, lookup: real, opts: LookupOptions, opts': LookupOptions, m: MathLib, k: nat)
    requires k <= Segments(|points|)
    requires opts' == opts.(max := opts'.max) && (opts.max < 0 <==> opts'.max < 0)
    ensures SegmentTable(points, lookup, opts, m, k) == SegmentTable(points, lookup, opts', m, k)
  {
    var row, row' := SegmentRow(points, lookup, opts, m), SegmentRow(points, lookup, opts', m);
    forall idx | 1 <= idx <= k
      ensures row(idx) == row'(idx)
    {
      SegmentsSameDirection(points, lookup, opts, opts', m, idx);
    }
    TableAgrees(row, row', k);
  }

  /** The stream depends on max only through its sign. */
  lemma {:induction false} StreamSameSign(segs: seq<seq<Match>>, max: int, max': int, steps: nat)
    requires steps <= |segs| && (max < 0 <==> max' < 0)
    ensures Stream(segs, max, steps) == Stream(segs, max', steps)
  {
    if steps > 0 {
      StreamSameSign(segs, max, max', steps - 1);
      assert ScanIndex(|segs| + 1, max, steps) == ScanIndex(|segs| + 1, max', steps);
    }
  }

  /** The solutions at given parameters do not depend on max at all. */
  lemma {:induction false} MatchesAtIgnoresMax(p0: Vector, p1: Vector, p2: Vector, p3: Vector, ts: seq<real>, opts: LookupOptions, max: int)
    ensures MatchesAt(p0, p1, p2, p3, ts, opts) == MatchesAt(p0, p1, p2, p3, ts, opts.(max := max))
  {
    if ts != [] {
      MatchesAtIgnoresMax(p0, p1, p2, p3, ts[1..], opts, max);
    }
  }

  /** Each segment's solutions depend on max only through its sign. */
  lemma SegmentsSameDirection(points: seq<Vector>, lookup: real, opts: LookupOptions, opts': LookupOptions, m: MathLib, idx: nat)
    requires 1 <= idx < |points|
    requires opts' == opts.(max := opts'.max) && (opts.max < 0 <==> opts'.max < 0)
    ensures SegmentMatches(points, idx, lookup, opts, m) == SegmentMatches(points, idx, lookup, opts', m)
  {
    var w := Neighbours(|points|, idx);
    assert SegmentTs(points, idx, lookup, opts, m) == SegmentTs(points, idx, lookup, opts', m);
    MatchesAtIgnoresMax(points[w.i0], points[w.i1], points[w.i2], points[w.i3], SegmentTs(points, idx, lookup, opts, m), opts, opts'.max);
  }
  // ----- the properties of a lookup

  /** Every solution comes from one of the segments (so from a segment
      inside the margin band, at a parameter in [0, 1]); solutions are
      numbers exactly when no (x, y) pairs were asked for. */
  lemma LookupSound(lookup: real, points: seq<Vector>, opts: LookupOptions, m: MathLib)
    ensures forall x :: x in Lookup(lookup, points, opts, m) ==>
      && (x.Scalar? <==> !opts.processXY)
      && exists idx :: 1 <= idx < |points| && x in SegmentMatches(points, idx, lookup, opts, m)
  {
    var n := |points|;
    var segs := SegmentTable(points, lookup, opts, m, Segments(n));
    var s := Stream(segs, opts.max, |segs|);
    CollectFacts(s, Limit(opts.max));
    forall x | x in Lookup(lookup, points, opts, m)
      ensures x.Scalar? <==> !opts.processXY
      ensures exists idx :: 1 <= idx < |points| && x in SegmentMatches(points, idx, lookup, opts, m)
    {
      assert x in s;
      StreamHoldsAllSegments(segs, opts.max, x);
      var g :| 0 <= g < |segs| && x in segs[g];
      var idx := g + 1;
      SegmentTableAt(points, lookup, opts, m, Segments(n), idx);
      var w := Neighbours(n, idx);
      var ts := SegmentTs(points, idx, lookup, opts, m);
      assert SegmentMatches(points, idx, lookup, opts, m) == MatchesAt(points[w.i0], points[w.i1], points[w.i2], points[w.i3], ts, opts);
      MatchesAtKind(points[w.i0], points[w.i1], points[w.i2], points[w.i3], ts, opts);
    }
  }

  /** Numeric results carry no duplicates, and a non-zero max bounds the count. */
  lemma LookupBounded(lookup: real, points: seq<Vector>, opts: LookupOptions, m: MathLib)
    ensures var r := Lookup(lookup, points, opts, m);
      && (!opts.processXY ==> forall i, j :: 0 <= i < j < |r| ==> r[i] != r[j])
      && (opts.max != 0 ==> |r| <= Limit(opts.max))
  {
    var r := Lookup(lookup, points, opts, m);
    var segs := SegmentTable(points, lookup, opts, m, Segments(|points|));
    CollectFacts(Stream(segs, opts.max, |segs|), Limit(opts.max));
    if !opts.processXY {
      forall j | 0 <= j < |r| ensures r[j].Scalar? {
        LookupSound(lookup, points, opts, m);
        assert r[j] in r;
      }
    }
  }

  /** When max is 0, or fewer than |max| solutions were found, every solution
      of every segment is in the result. */
  lemma LookupComplete(lookup: real, points: seq<Vector>, opts: LookupOptions, m: MathLib, idx: nat)
    requires 1 <= idx < |points|
    ensures var r := Lookup(lookup, points, opts, m);
      (opts.max == 0 || |r| < Limit(opts.max)) ==>
        forall x :: x in SegmentMatches(points, idx, lookup, opts, m) ==> x in r
  {
    var n := |points|;
    var segs := SegmentTable(points, lookup, opts, m, Segments(n));
    var s := Stream(segs, opts.max, |segs|);
    CollectFacts(s, Limit(opts.max));
    SegmentTableAt(points, lookup, opts, m, Segments(n), idx);
    forall x | x in SegmentMatches(points, idx, lookup, opts, m)
      ensures x in s
    {
      StreamHoldsAllSegments(segs, opts.max, x);
    }
  }

  /** With max = N > 0 the lookup returns the first N solutions of the
      unbounded (max = 0) lookup. */
  lemma LookupFirstN(lookup: real, points: seq<Vector>, opts: LookupOptions, m: MathLib)
    requires opts.max > 0
    ensures var all := Lookup(lookup, points, opts.(max := 0), m);
      Lookup(lookup, points, opts, m) == all[..if |all| < opts.max then |all| else opts.max]
  {
    var n := |points|;
    var segs := SegmentTable(points, lookup, opts, m, Segments(n));
    SegmentTableSameDirection(points, lookup, opts, opts.(max := 0), m, Segments(n));
    assert Stream(segs, opts.max, |segs|) == Stream(segs, 0, |segs|) by {
      StreamSameSign(segs, opts.max, 0, |segs|);
    }
    CollectIsPrefixOfUnbounded(Stream(segs, opts.max, |segs|), opts.max);
  }

  /** Feeding one more solution of a segment to a set that is not yet full. */
  lemma CollectStep(before: seq<Match>, ms: seq<Match>, j: nat, found: seq<Match>, limit: nat)
    requires j < |ms|
    requires Collect(before + ms[..j], limit) == Acc(found, false)
    ensures var f := Add(found, ms[j]);
      && Collect(before + ms[..j + 1], limit) == Acc(f, |f| == limit)
      && (|f| == limit ==> Collect(before + ms, limit) == Acc(f, true))
  {
    CollectSnoc(before + ms[..j], ms[j], limit);
    assert ms[..j + 1] == ms[..j] + [ms[j]];
    assert before + ms[..j + 1] == before + ms[..j] + [ms[j]];
    if |Add(found, ms[j])| == limit {
      CollectDoneEarly(before, ms, j + 1, limit);
    }
  }

  /** The body of valuesLookup's inner loop for the parameter t = ts[j]:
      solve the other axis (and, for points, the lookup axis) at t, and add
      the result, a point always and a value only when it is new. */
  method AddSolution(found: seq<Match>, ts: seq<real>, j: nat, p0: Vector, p1: Vector, p2: Vector, p3: Vector, opts: LookupOptions)
    returns (r: seq<Match>)
    requires j < |ts|
    ensures r == Add(found, MatchesAt(p0, p1, p2, p3, ts, opts)[j])
  {
    MatchesAtIndex(p0, p1, p2, p3, ts, opts, j);
    var t := ts[j];
    var k := opts.axis;
    var l := Other(k);
    var v := SolveForT(t, opts.tension, p0.At(l), p1.At(l), p2.At(l), p3.At(l));
    if opts.processXY {
      var av := SolveForT(t, opts.tension, p0.At(k), p1.At(k), p2.At(k), p3.At(k));
      var pt := if k == 0 then Vector(av, v) else Vector(v, av);
      r := found + [Pair(pt)];
    } else if Scalar(v) !in found {
      r := found + [Scalar(v)];
    } else {
      r := found;
    }
  }

  /** The inner loop of valuesLookup over one segment: add the solution at
      each parameter of ts in turn, and report `done` as soon as the set
      holds `limit` of them (the source returns from the lookup there). */
  method AddSegmentSolutions(solutions: seq<Match>, ghost before: seq<Match>, ts: seq<real>,
                             p0: Vector, p1: Vector, p2: Vector, p3: Vector, opts: LookupOptions, limit: nat)
    returns (found: seq<Match>, done: bool)
    requires Collect(before, limit) == Acc(solutions, false)
    ensures Collect(before + MatchesAt(p0, p1, p2, p3, ts, opts), limit) == Acc(found, done)
  {
    ghost var ms := MatchesAt(p0, p1, p2, p3, ts, opts);
    found := solutions;
    var j := 0;
    assert before + ms[..0] == before;
    while j < |ts|
      invariant 0 <= j <= |ts| == |ms|
      invariant Collect(before + ms[..j], limit) == Acc(found, false)
    {
      CollectStep(before, ms, j, found, limit);
      found := AddSolution(found, ts, j, p0, p1, p2, p3, opts);
      if |found| == limit {
        return found, true;
      }
      j := j + 1;
    }
    assert ms[..|ts|] == ms;
    done := false;
  }

  /** segs holds, for each segment in index order, its solutions. */
  predicate IsSegmentTable(segs: seq<seq<Match>>, points: seq<Vector>, lookup: real, opts: LookupOptions, m: MathLib)
  {
    && |segs| == Segments(|points|)
    && forall idx :: 1 <= idx < |points| ==> segs[idx - 1] == SegmentMatches(points, idx, lookup, opts, m)
  }

  /** One pass of valuesLookup's outer loop over segment idx: skip it when
      lookup lies outside the margin band, otherwise solve for its
      parameters, sort them in scan order and add their solutions. */
  method SolveSegment(solutions: seq<Match>, ghost before: seq<Match>, points: seq<Vector>, idx: nat,
                      lookup: real, opts: LookupOptions, m: MathLib, limit: nat, ghost segs: seq<seq<Match>>)
    returns (found: seq<Match>, done: bool)
    requires IsSegmentTable(segs, points, lookup, opts, m) && 1 <= idx < |points|
    requires Collect(before, limit) == Acc(solutions, false)
    ensures Collect(before + segs[idx - 1], limit) == Acc(found, done)
  {
    var k := opts.axis;
    var n := |points|;
    var p1 := points[idx - 1];
    var p2 := points[idx];
    var vmin, vmax;
    if p1.At(k) < p2.At(k) {
      vmin, vmax := p1.At(k), p2.At(k);
    } else {
      vmin, vmax := p2.At(k), p1.At(k);
    }
    SegmentMatchesUnfold(points, idx, lookup, opts, m);
    ghost var ms := SegmentMatches(points, idx, lookup, opts, m);
    assert ms == segs[idx - 1];
    if lookup - opts.margin <= vmax && lookup + opts.margin >= vmin {
      assert InBand(lookup, opts.margin, p1.At(k), p2.At(k));
      var p0 := points[if idx - 1 == 0 then 0 else idx - 2];
      var p3 := points[if idx > n - 2 then n - 1 else idx + 1];
      ghost var w := Neighbours(n, idx);
      assert p0 == points[w.i0] && p3 == points[w.i3];
      var ts := GetTAtValue(lookup, opts.tension, p0.At(k), p1.At(k), p2.At(k), p3.At(k), m);
      ts := Sort(ts, opts.max < 0);
      assert ms == MatchesAt(p0, p1, p2, p3, ts, opts);
      found, done := AddSegmentSolutions(solutions, before, ts, p0, p1, p2, p3, opts, limit);
    } else {
      assert !InBand(lookup, opts.margin, p1.At(k), p2.At(k));
      assert before + ms == before;
      found, done := solutions, false;
    }
  }

  /** valuesLookup's outer loop over a table of per-segment solutions:
      segments in scan order, a mutable solution set, and an early return
      once |max| solutions are held. */
  method ScanSegments(points: seq<Vector>, lookup: real, opts: LookupOptions, m: MathLib, ghost segs: seq<seq<Match>>)
    returns (r: seq<Match>)
    requires IsSegmentTable(segs, points, lookup, opts, m)
    ensures r == Collect(Stream(segs, opts.max, |segs|), Limit(opts.max)).found
  {
    var n := |points|;
    var limit := Limit(opts.max);
    assert |segs| == Segments(n);
    var solutions: seq<Match> := [];
    var i := 1;
    while i < n
      invariant 1 <= i <= |segs| + 1
      invariant Collect(Stream(segs, opts.max, i - 1), limit) == Acc(solutions, false)
    {
      var idx := if opts.max < 0 then n - i else i;
      assert idx == ScanIndex(|segs| + 1, opts.max, i);
      ghost var before := Stream(segs, opts.max, i - 1);
      ghost var ms := ScanSegment(segs, opts.max, i);
      assert Stream(segs, opts.max, i) == before + ms;
      assert ms == segs[idx - 1];
      var done;
      solutions, done := SolveSegment(solutions, before, points, idx, lookup, opts, m, limit, segs);
      if done {
        StreamStopsWhenDone(segs, opts.max, i, limit);
        return solutions;
      }
      i := i + 1;
    }
    assert i - 1 == |segs|;
    r := solutions;
  }

  /** Every entry of the table is the solutions of its segment. */
  lemma SegmentTableEntries(points: seq<Vector>, lookup: real, opts: LookupOptions, m: MathLib)
    ensures IsSegmentTable(SegmentTable(points, lookup, opts, m, Segments(|points|)), points, lookup, opts, m)
  {
    var segs := SegmentTable(points, lookup, opts, m, Segments(|points|));
    forall idx | 1 <= idx < |points|
      ensures segs[idx - 1] == SegmentMatches(points, idx, lookup, opts, m)
    {
      SegmentTableAt(points, lookup, opts, m, Segments(|points|), idx);
    }
  }

  /** valuesLookup: the solutions of every segment, scanned in order. */
  method ValuesLookup(lookup: real, points: seq<Vector>, opts: LookupOptions, m: MathLib) returns (r: seq<Match>)
    ensures r == Lookup(lookup, points, opts, m)
  {
    ghost var segs := SegmentTable(points, lookup, opts, m, Segments(|points|));
    SegmentTableEntries(points, lookup, opts, m);
    r := ScanSegments(points, lookup, opts, m, segs);
  }

  // ---------------------------------------------------------------------
  // The curve as a function of position

  /** y: run the lookup and return its first solution. */
  method Y(c: Curve, x: real, margin: real, m: MathLib) returns (r: Option<real>)
    ensures r == c.ValueAt(x, margin, m)
  {
    var matches := ValuesLookup(x, c.points, ForwardOptions(c.tension, margin), m);
    if |matches| == 0 {
      r := None;
    } else {
      LookupSound(x, c.points, ForwardOptions(c.tension, margin), m);
      assert matches[0] in matches;
      r := Some(matches[0].v);
    }
  }

  /** y returns the first solution of the unbounded forward lookup, and
      nothing exactly when that lookup finds nothing. */
  lemma ValueAtIsFirstSolution(c: Curve, x: real, margin: real, m: MathLib)
    ensures var all := Lookup(x, c.points, ForwardOptions(c.tension, margin).(max := 0), m);
      && (c.ValueAt(x, margin, m) == None <==> all == [])
      && (forall v :: c.ValueAt(x, margin, m) == Some(v) <==> all != [] && all[0] == Scalar(v))
  {
    var opts := ForwardOptions(c.tension, margin);
    LookupFirstN(x, c.points, opts, m);
    var all := Lookup(x, c.points, opts.(max := 0), m);
    if all != [] {
      LookupSound(x, c.points, opts.(max := 0), m);
      assert all[0] in all;
    }
  }

  /** A value y returns is the value of some segment at one of its
      solutions; when y returns nothing, no segment has a solution. */
  lemma ValueAtSolutions(c: Curve, x: real, margin: real, m: MathLib)
    ensures var opts := ForwardOptions(c.tension, margin);
      forall v :: c.ValueAt(x, margin, m) == Some(v) ==>
        exists idx :: 1 <= idx < |c.points| && Scalar(v) in SegmentMatches(c.points, idx, x, opts, m)
    ensures var opts := ForwardOptions(c.tension, margin);
      c.ValueAt(x, margin, m) == None ==>
        forall idx :: 1 <= idx < |c.points| ==> SegmentMatches(c.points, idx, x, opts, m) == []
  {
    var opts := ForwardOptions(c.tension, margin);
    var ms := Lookup(x, c.points, opts, m);
    if ms != [] {
      LookupSound(x, c.points, opts, m);
      assert ms[0] in ms;
    } else {
      forall idx | 1 <= idx < |c.points|
        ensures SegmentMatches(c.points, idx, x, opts, m) == []
      {
        var row := SegmentMatches(c.points, idx, x, opts, m);
        if row != [] {
          assert row[0] in row;
          LookupComplete(x, c.points, opts, m, idx);
          assert false;
        }
      }
    }
  }

  // ----- a curve through two points

  /** The end tangent (1 - tension)(w - u)/2 of a segment that starts flat
      at u and heads for w is large enough for the solver's cubic branch. */
  predicate Separated(tension: real, u: real, w: real)
  {
    Abs((1.0 - tension) * (w - u) * 0.5) >= EPS
  }

  /** A segment that starts flat at the target (v0 == v1 == v2 == target)
      and then leaves it is met at t = 0 and t = 1. */
  lemma GetTAtValueFlatStart(v: real, v3: real, tension: real, m: MathLib)
    requires Separated(tension, v, v3)
    ensures GetTAtValue(v, tension, v, v, v, v3, m) == [0.0, 1.0]
  {
    var w := (1.0 - tension) * (v3 - v) * 0.5;
    var cf := GetCoefficients(v, v, v, v3, v, tension);
    assert cf == Coeffs(w, -w, 0.0, 0.0);
    CubicRootsFlatStart(w, m);
    assert KeepInWindow([1.0]) == [1.0];
  }

  /** With the first segment visited first and its first solution x, a
      lookup that stops at one solution returns exactly [x]. */
  lemma FirstSolutionStops(segs: seq<seq<Match>>, max: int, x: Match)
    requires max >= 0 && |segs| >= 1 && segs[0] != [] && segs[0][0] == x
    ensures Collect(Stream(segs, max, |segs|), 1).found == [x]
  {
    var s := Stream(segs, max, |segs|);
    assert Stream(segs, max, 1) == segs[0];
    StreamPrefix(segs, max, 1, |segs|);
    assert s[..1] == [x];
    assert Collect(s[..1], 1) == Acc([x], true) by {
      assert [x][..0] == [];
    }
    CollectStable(s, 1, 1);
  }

  /** The first segment of the padded pair [a, a, b, b] starts flat at a,
      and its first solution at lookup a.x is a's value. */
  lemma FlatFirstSegment(a: Vector, b: Vector, tension: real, margin: real, m: MathLib)
    requires margin >= 0.0
    requires Separated(tension, a.x, b.x)
    ensures var row := SegmentMatches([a, a, b, b], 1, a.x, ForwardOptions(tension, margin), m);
      row != [] && row[0] == Scalar(a.y)
  {
    GetTAtValueFlatStart(a.x, b.x, tension, m);
    var opts := ForwardOptions(tension, margin);
    var pts := [a, a, b, b];
    SegmentMatchesUnfold(pts, 1, a.x, opts, m);
    assert InBand(a.x, opts.margin, a.x, a.x);
    var ts := Sort([0.0, 1.0], false);
    assert ts == [0.0, 1.0] by {
      assert Insert(1.0, [], false) == [1.0];
    }
    MatchesAtIndex(a, a, a, b, ts, opts, 0);
  }

  /** Two points are padded to [a, a, b, b]. */
  lemma PaddedPair(a: Vector, b: Vector, tension: real)
    ensures MakeCurve([a, b], tension).points == [a, a, b, b]
  {
    assert PadTail([a, a, b]) == PadTail([a, a, b, b]);
  }

  /** The forward lookup of a.x that stops at one solution returns a's value. */
  lemma PairLookup(a: Vector, b: Vector, tension: real, margin: real, m: MathLib)
    requires margin >= 0.0
    requires Separated(tension, a.x, b.x)
    ensures Lookup(a.x, [a, a, b, b], ForwardOptions(tension, margin), m) == [Scalar(a.y)]
  {
    FlatFirstSegment(a, b, tension, margin, m);
    var opts := ForwardOptions(tension, margin);
    var pts := [a, a, b, b];
    var row := SegmentMatches(pts, 1, a.x, opts, m);
    assert row != [] && row[0] == Scalar(a.y);
    var segs := SegmentTable(pts, a.x, opts, m, 3);
    SegmentTableAt(pts, a.x, opts, m, 3, 1);
    assert segs[0] == row;
    FirstSolutionStops(segs, 1, Scalar(a.y));
  }

  /** A curve through two points a and b (far enough apart for the solver's
      tolerance) takes a's value at a's position: the padded first segment
      is met at t = 0 before anything else. */
  lemma TwoPointCurveStartsAtFirstControl(a: Vector, b: Vector, tension: real, margin: real, m: MathLib)
    requires margin >= 0.0
    requires Separated(tension, a.x, b.x)
    ensures MakeCurve([a, b], tension).ValueAt(a.x, margin, m) == Some(a.y)
  {
    PairLookup(a, b, tension, margin, m);
    PaddedPair(a, b, tension);
  }
}
