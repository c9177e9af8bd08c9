/** A colour gradient through colours placed at positions: the points are
    sorted by position, split into hue, saturation and lightness, and each
    channel becomes its own cubic curve over position. Hues are unwrapped
    first, one turn at a time, so that the hue curve is meant to turn the
    short way round the colour wheel. */
module InterpolatedColor {
  import opened Wrappers
  import opened RootSolver
  import opened CurveInterpolator

  /** A colour as hue (degrees), saturation and lightness. */
  datatype Hsl = Hsl(h: real, s: real, l: real)

  /** The colour library: parsing a colour string into HSL, and formatting
      three possibly missing components as a hex string. It is not part of
      this model and is passed in. */
  datatype ColorLib = ColorLib(
    toHsl: string -> Hsl,
    toHex: (Option<real>, Option<real>, Option<real>) -> string)

  /** A point as given: a [position, colour] tuple or an {x, color} object. */
  datatype PointInput = Tuple(pos: real, color: string) | Object(x: real, color: string)

  /** A point in tuple form. */
  datatype Point = Point(pos: real, color: string)

  datatype Error = NotEnoughPoints

  // ---------------------------------------------------------------------
  // Normalisation

  /** Both forms become a [position, colour] tuple with the same colour. */
  function Resolve(p: PointInput): (r: Point)
    ensures r.color == p.color
    ensures p.Tuple? ==> r.pos == p.pos
    ensures p.Object? ==> r.pos == p.x
  {
    match p
    case Tuple(pos, color) => Point(pos, color)
    case Object(x, color) => Point(x, color)
  }

  function ResolveAll(ps: seq<PointInput>): (r: seq<Point>)
    ensures |r| == |ps|
    ensures forall i :: 0 <= i < |ps| ==> r[i] == Resolve(ps[i])
  {
    if ps == [] then [] else [Resolve(ps[0])] + ResolveAll(ps[1..])
  }

  // ---------------------------------------------------------------------
  // Sorting by position

  predicate SortedByPos(s: seq<Point>)
  {
    forall i, j :: 0 <= i < j < |s| ==> s[i].pos <= s[j].pos
  }

  /** Insert x after the trailing points whose position is not greater,
      scanning from the back. */
  function InsertByPos(x: Point, s: seq<Point>): (r: seq<Point>)
    ensures |r| == |s| + 1
  {
    if s == [] || s[|s| - 1].pos <= x.pos then s + [x]
    else InsertByPos(x, s[..|s| - 1]) + [s[|s| - 1]]
  }

  /** Stable sort by position: insert each point in turn into the sorted
      prefix before it. */
  function SortByPos(s: seq<Point>): (r: seq<Point>)
    ensures |r| == |s|
  {
    if s == [] then [] else InsertByPos(s[|s| - 1], SortByPos(s[..|s| - 1]))
  }

  lemma {:induction false} InsertByPosPermutes(x: Point, s: seq<Point>)
    ensures multiset(InsertByPos(x, s)) == multiset(s) + multiset{x}
  {
    if s != [] && s[|s| - 1].pos > x.pos {
      var init := s[..|s| - 1];
      InsertByPosPermutes(x, init);
      assert s == init + [s[|s| - 1]];
    }
  }

  lemma {:induction false} InsertByPosSorted(x: Point, s: seq<Point>)
    requires SortedByPos(s)
    ensures SortedByPos(InsertByPos(x, s))
  {
    if s != [] && s[|s| - 1].pos > x.pos {
      var init := s[..|s| - 1];
      var last := s[|s| - 1];
      InsertByPosSorted(x, init);
      InsertByPosPermutes(x, init);
      var r := InsertByPos(x, init);
      forall i | 0 <= i < |r|
        ensures r[i].pos <= last.pos
      {
        assert r[i] in multiset(r);
        assert r[i] in multiset(init) || r[i] == x;
      }
    }
  }

  /** The result is ascending by position and a permutation of the input. */
  lemma {:induction false} SortByPosCorrect(s: seq<Point>)
    ensures SortedByPos(SortByPos(s))
    ensures multiset(SortByPos(s)) == multiset(s)
  {
    if s != [] {
      var init := s[..|s| - 1];
      SortByPosCorrect(init);
      InsertByPosSorted(s[|s| - 1], SortByPos(init));
      InsertByPosPermutes(s[|s| - 1], SortByPos(init));
      assert s == init + [s[|s| - 1]];
    }
  }

  /** A list already in order is left exactly as it is (so equal positions
      keep their order). */
  lemma {:induction false} SortByPosKeepsSorted(s: seq<Point>)
    requires SortedByPos(s)
    ensures SortByPos(s) == s
  {
    if s != [] {
      var init := s[..|s| - 1];
      SortByPosKeepsSorted(init);
      assert s == init + [s[|s| - 1]];
    }
  }

  /** Where the insertion lands: after the points up to j, when the point
      before j is not larger and every point from j on is larger. */
  lemma {:induction false} InsertByPosAt(x: Point, s: seq<Point>, j: nat)
    requires j <= |s|
    requires j == 0 || s[j - 1].pos <= x.pos
    requires forall k :: j <= k < |s| ==> s[k].pos > x.pos
    ensures InsertByPos(x, s) == s[..j] + [x] + s[j..]
  {
    if j < |s| {
      var init := s[..|s| - 1];
      InsertByPosAt(x, init, j);
      assert init[..j] == s[..j];
      assert init[j..] + [s[|s| - 1]] == s[j..];
    } else {
      assert s[..j] == s;
    }
  }

  /** One more point of the input sorted: the sort of a longer prefix
      inserts its last point into the sort of the shorter one. */
  lemma SortByPosPrefix(s: seq<Point>, i: nat)
    requires i < |s|
    ensures SortByPos(s[..i + 1]) == InsertByPos(s[i], SortByPos(s[..i]))
  {
    assert s[..i + 1][..i] == s[..i];
  }

  /** The swaps of one pass: the point at index i moves backwards past the
      larger positions before it, down to index j, and the points it passes
      move one place up. */
  method ShiftBack(a: array<Point>, i: nat) returns (j: nat)
    requires i < a.Length
    modifies a
    ensures j <= i
    ensures forall k :: 0 <= k < j ==> a[k] == old(a[k])
    ensures a[j] == old(a[i])
    ensures forall k :: j < k <= i ==> a[k] == old(a[k - 1])
    ensures j == 0 || a[j - 1].pos <= a[j].pos
    ensures forall k :: j <= k < i ==> old(a[k]).pos > a[j].pos
    ensures forall k :: i < k < a.Length ==> a[k] == old(a[k])
  {
    var x := a[i];
    j := i;
    while j > 0 && a[j - 1].pos > x.pos
      invariant 0 <= j <= i
      invariant forall k :: 0 <= k < j ==> a[k] == old(a[k])
      invariant a[j] == x
      invariant forall k :: j < k <= i ==> a[k] == old(a[k - 1])
      invariant forall k :: j <= k < i ==> old(a[k]).pos > x.pos
      invariant forall k :: i < k < a.Length ==> a[k] == old(a[k])
    {
      a[j - 1], a[j] := a[j], a[j - 1];
      j := j - 1;
    }
  }

  /** One pass of the in-place sort inserts the point at index i into the
      prefix before it and leaves the rest of the array alone. */
  method SwapBackwards(a: array<Point>, i: nat)
    requires i < a.Length
    modifies a
    ensures a[..i + 1] == InsertByPos(old(a[i]), old(a[..i]))
    ensures a[i + 1..] == old(a[i + 1..])
  {
    ghost var sorted := a[..i];
    ghost var x := a[i];
    var j := ShiftBack(a, i);
    InsertByPosAt(x, sorted, j);
    assert a[..i + 1] == sorted[..j] + [x] + sorted[j..];
  }

  /** The in-place sort of the resolved points, one pass per point. */
  method SortByPosition(a: array<Point>)
    modifies a
    ensures a[..] == SortByPos(old(a[..]))
  {
    ghost var s := a[..];
    var i := 0;
    while i < a.Length
      invariant 0 <= i <= a.Length
      invariant a[..i] == SortByPos(s[..i])
      invariant a[i..] == s[i..]
    {
      SwapBackwards(a, i);
      SortByPosPrefix(s, i);
      i := i + 1;
    }
    assert a[..] == a[..a.Length];
    assert s == s[..a.Length];
  }

  // ---------------------------------------------------------------------
  // Hue unwrapping, as the source writes it

  /** One step of the source's pass: the hue moves up a turn when it lies
      more than half a turn below the previous (already unwrapped) hue, and
      down a turn when it lies more than half a turn above; the difference
      is computed once, before either move. */
  function UnwrapStep(prev: real, cur: real): real
  {
    var diff := prev - cur;
    var up := if diff > 180.0 then cur + 360.0 else cur;
    if diff < -180.0 then up - 360.0 else up
  }

  /** A step moves the hue by exactly one turn or not at all, and brings it
      within half a turn of the previous hue when it started within one and
      a half turns. */
  lemma UnwrapStepFacts(prev: real, cur: real)
    ensures var r := UnwrapStep(prev, cur);
      r == cur || r == cur + 360.0 || r == cur - 360.0
    ensures -540.0 <= prev - cur <= 540.0 ==> -180.0 <= prev - UnwrapStep(prev, cur) <= 180.0
  {
  }

  /** The pass over [position, hue] points, left to right, each step
      reading the hue the pass has already written at the point before. */
  function Unwrapped(hs: seq<Vector>): (r: seq<Vector>)
    ensures |r| == |hs|
  {
    if |hs| <= 1 then hs
    else
      var u := Unwrapped(hs[..|hs| - 1]);
      var v := hs[|hs| - 1];
      u + [Vector(v.x, UnwrapStep(u[|u| - 1].y, v.y))]
  }

  /** The pass keeps every position and the first hue. */
  lemma {:induction false} UnwrappedFacts(hs: seq<Vector>)
    ensures var r := Unwrapped(hs);
      && (forall i :: 0 <= i < |hs| ==> r[i].x == hs[i].x)
      && (|hs| > 0 ==> r[0] == hs[0])
  {
    if |hs| > 1 {
      var init := hs[..|hs| - 1];
      UnwrappedFacts(init);
      var r := Unwrapped(hs);
      assert r[..|hs| - 1] == Unwrapped(init);
    }
  }

  /** Each later hue is set from the unwrapped hue before it. */
  lemma {:induction false} UnwrappedStep(hs: seq<Vector>, i: nat)
    requires 1 <= i < |hs|
    ensures Unwrapped(hs)[i].y == UnwrapStep(Unwrapped(hs)[i - 1].y, hs[i].y)
  {
    if i < |hs| - 1 {
      var init := hs[..|hs| - 1];
      UnwrappedStep(init, i);
      assert Unwrapped(hs)[..|hs| - 1] == Unwrapped(init);
    }
  }

  /** Every later hue moves by exactly one turn up, one turn down, or not
      at all: never by two turns. */
  lemma UnwrappedMovesOneTurn(hs: seq<Vector>)
    ensures var r := Unwrapped(hs);
      forall i :: 1 <= i < |hs| ==> r[i].y == hs[i].y || r[i].y == hs[i].y + 360.0 || r[i].y == hs[i].y - 360.0
  {
    var r := Unwrapped(hs);
    forall i | 1 <= i < |hs|
      ensures r[i].y == hs[i].y || r[i].y == hs[i].y + 360.0 || r[i].y == hs[i].y - 360.0
    {
      UnwrappedStep(hs, i);
      UnwrapStepFacts(r[i - 1].y, hs[i].y);
    }
  }

  /** Neighbouring unwrapped hues are at most half a turn apart wherever the
      hue came within one and a half turns of the unwrapped hue before it. */
  lemma UnwrappedNeighbours(hs: seq<Vector>, i: nat)
    requires 1 <= i < |hs|
    requires -540.0 <= Unwrapped(hs)[i - 1].y - hs[i].y <= 540.0
    ensures -180.0 <= Unwrapped(hs)[i - 1].y - Unwrapped(hs)[i].y <= 180.0
  {
    UnwrappedStep(hs, i);
    UnwrapStepFacts(Unwrapped(hs)[i - 1].y, hs[i].y);
  }

  /** The hues of a colour wheel traversed twice, at positions 0 to 6. */
  const TwoTurns: seq<Vector> := [
    Vector(0.0, 0.0), Vector(1.0, 120.0), Vector(2.0, 240.0), Vector(3.0, 0.0),
    Vector(4.0, 120.0), Vector(5.0, 240.0), Vector(6.0, 0.0)]

  /** After two turns the unwrapped hue has drifted to 600, and the last
      hue, 0 (the same as 720), is moved only one turn to 360: the curve then
      runs 240 degrees backwards instead of 120 degrees onwards. */
  lemma UnwrapDriftsAfterTwoTurns()
    ensures Unwrapped(TwoTurns)[5].y == 600.0
    ensures Unwrapped(TwoTurns)[6].y == 360.0
  {
    UnwrappedFacts(TwoTurns);
    forall i | 1 <= i < 7 {
      UnwrappedStep(TwoTurns, i);
    }
    var r := Unwrapped(TwoTurns);
    assert r[0].y == 0.0;
    assert r[1].y == 120.0;
    assert r[2].y == 240.0;
    assert r[3].y == 360.0;
    assert r[4].y == 480.0;
  }

  // ---------------------------------------------------------------------
  // Hue unwrapping by the shortest turn

  /** The whole number of turns that covers an excess e > 0: the least k
      with e <= 360k. */
  function Turns(e: real): (k: int)
    requires e > 0.0
    ensures k >= 1 && 360.0 * (k - 1) as real < e <= 360.0 * k as real
    decreases e.Floor
  {
    if e <= 360.0 then 1 else 1 + Turns(e - 360.0)
  }

  /** d is a whole number of turns. */
  ghost predicate WholeTurns(d: real)
  {
    exists k: int :: d == TurnsOf(k)
  }

  /** k whole turns, in degrees. */
  function TurnsOf(k: int): real
  {
    360.0 * k as real
  }

  /** The step with as many turns as it takes: more than half a turn below
      the previous hue moves up, more than half a turn above moves down. */
  function ShortestStep(prev: real, cur: real): real
  {
    var diff := prev - cur;
    if diff > 180.0 then cur + 360.0 * Turns(diff - 180.0) as real
    else if diff < -180.0 then cur - 360.0 * Turns(-diff - 180.0) as real
    else cur
  }

  /** The step moves the hue by whole turns to within half a turn of the
      previous hue, and agrees with the source's step wherever that step
      reaches half a turn. */
  lemma ShortestStepFacts(prev: real, cur: real)
    ensures -180.0 <= prev - ShortestStep(prev, cur) <= 180.0
    ensures WholeTurns(ShortestStep(prev, cur) - cur)
    ensures -540.0 <= prev - cur <= 540.0 ==> ShortestStep(prev, cur) == UnwrapStep(prev, cur)
  {
    var diff := prev - cur;
    if diff > 180.0 {
      var k := Turns(diff - 180.0);
      assert ShortestStep(prev, cur) - cur == 360.0 * k as real;
      WholeTurnsOf(k);
    } else if diff < -180.0 {
      var k := Turns(-diff - 180.0);
      assert ShortestStep(prev, cur) - cur == 360.0 * (-k) as real;
      WholeTurnsOf(-k);
    } else {
      WholeTurnsOf(0);
    }
  }

  /** ShortestStepFacts for a hue already known to be the step's result. */
  lemma StepLands(prev: real, cur: real, next: real)
    requires next == ShortestStep(prev, cur)
    ensures WholeTurns(next - cur) && -180.0 <= prev - next <= 180.0
  {
    ShortestStepFacts(prev, cur);
  }

  lemma WholeTurnsOf(k: int)
    ensures WholeTurns(360.0 * k as real)
  {
    assert 360.0 * k as real == TurnsOf(k);
  }

  /** The pass of the source with the step replaced by ShortestStep. */
  function ShortestUnwrapped(hs: seq<Vector>): (r: seq<Vector>)
    ensures |r| == |hs|
  {
    if |hs| <= 1 then hs
    else
      var u := ShortestUnwrapped(hs[..|hs| - 1]);
      var v := hs[|hs| - 1];
      u + [Vector(v.x, ShortestStep(u[|u| - 1].y, v.y))]
  }

  /** The corrected pass keeps every position and the first hue. */
  lemma {:induction false} ShortestUnwrappedFacts(hs: seq<Vector>)
    ensures var r := ShortestUnwrapped(hs);
      && (forall i :: 0 <= i < |hs| ==> r[i].x == hs[i].x)
      && (|hs| > 0 ==> r[0] == hs[0])
  {
    if |hs| > 1 {
      var init := hs[..|hs| - 1];
      ShortestUnwrappedFacts(init);
      var r := ShortestUnwrapped(hs);
      assert r[..|hs| - 1] == ShortestUnwrapped(init);
    }
  }

  /** Each later hue is set from the corrected hue before it. */
  lemma {:induction false} ShortestUnwrappedStep(hs: seq<Vector>, i: nat)
    requires 1 <= i < |hs|
    ensures ShortestUnwrapped(hs)[i].y == ShortestStep(ShortestUnwrapped(hs)[i - 1].y, hs[i].y)
  {
    if i < |hs| - 1 {
      var init := hs[..|hs| - 1];
      ShortestUnwrappedStep(init, i);
      assert ShortestUnwrapped(hs)[..|hs| - 1] == ShortestUnwrapped(init);
    }
  }

  /** Every hue moves by whole turns only, and ends at most half a turn
      from the hue before it. */
  lemma ShortestUnwrappedTurns(hs: seq<Vector>, i: nat)
    requires 1 <= i < |hs|
    ensures WholeTurns(ShortestUnwrapped(hs)[i].y - hs[i].y)
    ensures -180.0 <= ShortestUnwrapped(hs)[i - 1].y - ShortestUnwrapped(hs)[i].y <= 180.0
  {
    ShortestUnwrappedStep(hs, i);
    var r := ShortestUnwrapped(hs);
    StepLands(r[i - 1].y, hs[i].y, r[i].y);
  }

  /** Every step of the source's pass starts within one and a half turns
      of the hue written before it. */
  predicate StepsWithinBound(hs: seq<Vector>)
  {
    forall i :: 1 <= i < |hs| ==> -540.0 <= Unwrapped(hs)[i - 1].y - hs[i].y <= 540.0
  }

  /** Wherever every step of the source's pass starts within one and a half
      turns, the corrected pass gives the same hues. */
  lemma {:induction false} ShortestAgreesWithinBound(hs: seq<Vector>)
    requires StepsWithinBound(hs)
    ensures ShortestUnwrapped(hs) == Unwrapped(hs)
  {
    if |hs| > 1 {
      var init := hs[..|hs| - 1];
      assert Unwrapped(hs)[..|hs| - 1] == Unwrapped(init);
      ShortestAgreesWithinBound(init);
      var u := Unwrapped(init);
      ShortestStepFacts(u[|u| - 1].y, hs[|hs| - 1].y);
    }
  }

  /** On the two-turn wheel the corrected pass ends at 720, one third of a
      turn on from 600. */
  lemma ShortestUnwrapTwoTurns()
    ensures ShortestUnwrapped(TwoTurns)[5].y == 600.0
    ensures ShortestUnwrapped(TwoTurns)[6].y == 720.0
  {
    ShortestUnwrappedFacts(TwoTurns);
    forall i | 1 <= i < 7 {
      ShortestUnwrappedStep(TwoTurns, i);
    }
    var r := ShortestUnwrapped(TwoTurns);
    assert r[0].y == 0.0;
    assert r[1].y == 120.0;
    assert r[2].y == 240.0;
    assert r[3].y == 360.0;
    assert r[4].y == 480.0;
    assert r[5].y == 600.0;
    assert Turns(420.0) == 2;
  }

  /** The in-place pass over the hue points: from the second point on, the
      difference to the hue already written before it is taken once, and
      the hue moves up a turn, down a turn, or stays. */
  method UnwrapHues(hs: array<Vector>)
    modifies hs
    ensures hs[..] == Unwrapped(old(hs[..]))
  {
    if hs.Length == 0 {
      return;
    }
    ghost var s := hs[..];
    var i := 1;
    while i < hs.Length
      invariant 1 <= i <= hs.Length
      invariant hs[..i] == Unwrapped(s[..i])
      invariant forall k :: i <= k < hs.Length ==> hs[k] == s[k]
    {
      var prev := hs[i - 1];
      var v := hs[i];
      var diff := prev.y - v.y;
      var h := v.y;
      if diff > 180.0 {
        h := h + 360.0;
      }
      if diff < -180.0 {
        h := h - 360.0;
      }
      assert h == UnwrapStep(prev.y, v.y);
      ghost var done := hs[..i];
      assert s[..i + 1][..i] == s[..i];
      hs[i] := Vector(v.x, h);
      assert hs[..i + 1] == done + [Vector(v.x, h)];
      i := i + 1;
    }
    assert hs[..] == hs[..i];
    assert s == s[..i];
  }

  // ---------------------------------------------------------------------
  // Channels and the gradient

  datatype Channel = Hue | Saturation | Lightness

  function Component(c: Hsl, ch: Channel): real
  {
    match ch
    case Hue => c.h
    case Saturation => c.s
    case Lightness => c.l
  }

  /** One channel of the sorted points as [position, component] points. */
  function ChannelPoints(ps: seq<Point>, lib: ColorLib, ch: Channel): (r: seq<Vector>)
    ensures |r| == |ps|
    ensures forall i :: 0 <= i < |ps| ==> r[i] == Vector(ps[i].pos, Component(lib.toHsl(ps[i].color), ch))
  {
    if ps == [] then []
    else [Vector(ps[0].pos, Component(lib.toHsl(ps[0].color), ch))] + ChannelPoints(ps[1..], lib, ch)
  }

  /** The unwrapped hue points lie at the positions of the sorted points
      (as the saturation and lightness points do), start from the first
      point's hue, and hold each point's own hue moved by at most one turn. */
  lemma HuePointsFacts(ps: seq<Point>, lib: ColorLib)
    ensures var h := Unwrapped(ChannelPoints(ps, lib, Hue));
      && |h| == |ps|
      && (forall i :: 0 <= i < |ps| ==> h[i].x == ps[i].pos)
      && (|ps| > 0 ==> h[0].y == lib.toHsl(ps[0].color).h)
      && (forall i :: 0 <= i < |ps| ==>
            var c := lib.toHsl(ps[i].color).h;
            h[i].y == c || h[i].y == c + 360.0 || h[i].y == c - 360.0)
  {
    UnwrappedFacts(ChannelPoints(ps, lib, Hue));
    UnwrappedMovesOneTurn(ChannelPoints(ps, lib, Hue));
  }

  /** The gradient: one curve per channel. */
  datatype Gradient = Gradient(hue: Curve, saturation: Curve, lightness: Curve) {
    /** The colour at a position: the three curves read at the same
        position, with their default margin, formatted by the library. */
    function ColorAt(val: real, m: MathLib, lib: ColorLib): string
    {
      lib.toHex(hue.ValueAt(val, 0.5, m), saturation.ValueAt(val, 0.5, m), lightness.ValueAt(val, 0.5, m))
    }
  }

  /** The curves of a sorted point list, each with the default tension. */
  function Curves(sorted: seq<Point>, lib: ColorLib): Gradient
  {
    Gradient(
      MakeCurve(Unwrapped(ChannelPoints(sorted, lib, Hue)), 0.5),
      MakeCurve(ChannelPoints(sorted, lib, Saturation), 0.5),
      MakeCurve(ChannelPoints(sorted, lib, Lightness), 0.5))
  }

  /** Building a gradient: fewer than two points is an error; otherwise
      the curves of the resolved points sorted by position. */
  function GradientOf(points: seq<PointInput>, lib: ColorLib): (r: Result<Gradient, Error>)
    ensures r.Failure? <==> |points| < 2
  {
    if |points| < 2 then Failure(NotEnoughPoints)
    else Success(Curves(SortByPos(ResolveAll(points)), lib))
  }

  /** The curves of a sorted point list with the hues unwrapped by the
      shortest turn instead. */
  function ShortestCurves(sorted: seq<Point>, lib: ColorLib): Gradient
  {
    Curves(sorted, lib).(hue := MakeCurve(ShortestUnwrapped(ChannelPoints(sorted, lib, Hue)), 0.5))
  }

  /** The corrected gradient differs from the source's only where a step of
      the source's hue pass starts more than one and a half turns away. */
  lemma ShortestCurvesAgreeWithinBound(sorted: seq<Point>, lib: ColorLib)
    ensures var hs := ChannelPoints(sorted, lib, Hue);
      StepsWithinBound(hs) ==>
        ShortestCurves(sorted, lib) == Curves(sorted, lib)
  {
    var hs := ChannelPoints(sorted, lib, Hue);
    if StepsWithinBound(hs) {
      ShortestAgreesWithinBound(hs);
    }
  }

  /** A gradient is built on a permutation of the given points in ascending
      order of position, and on the given order when it is already
      ascending. */
  lemma GradientSortsPoints(points: seq<PointInput>, lib: ColorLib)
    requires |points| >= 2
    ensures exists sorted ::
      && SortedByPos(sorted)
      && multiset(sorted) == multiset(ResolveAll(points))
      && (SortedByPos(ResolveAll(points)) ==> sorted == ResolveAll(points))
      && GradientOf(points, lib) == Success(Curves(sorted, lib))
  {
    var sorted := SortByPos(ResolveAll(points));
    SortByPosCorrect(ResolveAll(points));
    if SortedByPos(ResolveAll(points)) {
      SortByPosKeepsSorted(ResolveAll(points));
    }
  }

  /** A fresh array of the resolved points. */
  method ResolvedArray(points: seq<PointInput>) returns (a: array<Point>)
    ensures fresh(a)
    ensures a[..] == ResolveAll(points)
  {
    a := new Point[|points|](i requires 0 <= i < |points| => Resolve(points[i]));
  }

  /** A fresh array of the [position, hue] points of a point list. */
  method HueArray(ps: seq<Point>, lib: ColorLib) returns (a: array<Vector>)
    ensures fresh(a)
    ensures a[..] == ChannelPoints(ps, lib, Hue)
  {
    a := new Vector[|ps|](i requires 0 <= i < |ps| => Vector(ps[i].pos, lib.toHsl(ps[i].color).h));
  }

  /** InterpolatedColor(points): validate, resolve, sort in place, unwrap
      the hues in place, and build the three curves. */
  method MakeGradient(points: seq<PointInput>, lib: ColorLib) returns (r: Result<Gradient, Error>)
    ensures r == GradientOf(points, lib)
  {
    if |points| < 2 {
      return Failure(NotEnoughPoints);
    }
    var resolved := ResolvedArray(points);
    SortByPosition(resolved);
    var sorted := resolved[..];
    var hs := HueArray(sorted, lib);
    UnwrapHues(hs);
    var ss := ChannelPoints(sorted, lib, Saturation);
    var ls := ChannelPoints(sorted, lib, Lightness);
    r := Success(Gradient(MakeCurve(hs[..], 0.5), MakeCurve(ss, 0.5), MakeCurve(ls, 0.5)));
  }

  /** The returned function: read the three curves at val and format. The
      three channels are read at the same position, each with the forward
      lookup of its own curve. */
  method Evaluate(g: Gradient, val: real, m: MathLib, lib: ColorLib) returns (color: string)
    ensures color == g.ColorAt(val, m, lib)
    ensures color == lib.toHex(g.hue.ValueAt(val, 0.5, m), g.saturation.ValueAt(val, 0.5, m), g.lightness.ValueAt(val, 0.5, m))
  {
    var h := Y(g.hue, val, 0.5, m);
    var s := Y(g.saturation, val, 0.5, m);
    var l := Y(g.lightness, val, 0.5, m);
    color := lib.toHex(h, s, l);
  }

  /** The channel points of two points in order. */
  lemma TwoPointChannels(ra: Point, rb: Point, lib: ColorLib)
    ensures var ca, cb := lib.toHsl(ra.color), lib.toHsl(rb.color);
      && Unwrapped(ChannelPoints([ra, rb], lib, Hue))
         == [Vector(ra.pos, ca.h), Vector(rb.pos, UnwrapStep(ca.h, cb.h))]
      && ChannelPoints([ra, rb], lib, Saturation) == [Vector(ra.pos, ca.s), Vector(rb.pos, cb.s)]
      && ChannelPoints([ra, rb], lib, Lightness) == [Vector(ra.pos, ca.l), Vector(rb.pos, cb.l)]
  {
    var hs := ChannelPoints([ra, rb], lib, Hue);
    assert hs[..1] == [hs[0]];
  }

  /** A two-point gradient (positions far enough apart for the solver's
      tolerance) shows the first colour at the first position: every curve
      takes the first point's component there. */
  lemma TwoPointGradientStartsAtFirstColor(a: PointInput, b: PointInput, lib: ColorLib, m: MathLib)
    requires Resolve(a).pos <= Resolve(b).pos
    requires Separated(0.5, Resolve(a).pos, Resolve(b).pos)
    ensures var c := lib.toHsl(a.color);
      GradientOf([a, b], lib).value.ColorAt(Resolve(a).pos, m, lib) == lib.toHex(Some(c.h), Some(c.s), Some(c.l))
  {
    var ra, rb := Resolve(a), Resolve(b);
    var ca, cb := lib.toHsl(ra.color), lib.toHsl(rb.color);
    TwoPointCurveStartsAtFirstControl(Vector(ra.pos, ca.h), Vector(rb.pos, UnwrapStep(ca.h, cb.h)), 0.5, 0.5, m);
    TwoPointCurveStartsAtFirstControl(Vector(ra.pos, ca.s), Vector(rb.pos, cb.s), 0.5, 0.5, m);
    TwoPointCurveStartsAtFirstControl(Vector(ra.pos, ca.l), Vector(rb.pos, cb.l), 0.5, 0.5, m);
    TwoPointChannels(ra, rb, lib);
    assert ResolveAll([a, b]) == [ra, rb];
    assert SortedByPos([ra, rb]);
    SortByPosKeepsSorted([ra, rb]);
  }
}
