/** Closed-form roots of the quadratic and cubic equations met when a cubic
    spline segment is intersected with a horizontal or vertical line. */
module RootSolver {

  /** The one tolerance used for every near-zero test: 2^-42. */
  const EPS: real := 1.0 / 4398046511104.0

  function Abs(x: real): (r: real)
    ensures r >= 0.0 && (r == x || r == -x)
  {
    if x < 0.0 then -x else x
  }

  /** Clamp a value into [min, max]. */
  function Clamp(value: real, min: real, max: real): (r: real)
    ensures min <= max ==> min <= r <= max
    ensures min <= value <= max ==> r == value
    ensures value < min ==> r == min
    ensures min <= max < value ==> r == max
  {
    if value < min then min
    else if value > max then max
    else value
  }

  /** The floating-point library the solver calls (Math.sqrt, Math.pow,
      Math.acos, Math.cos and Math.PI); it is not part of this model and is
      passed in. */
  datatype MathLib = MathLib(
    sqrt: real -> real,
    pow: (real, real) -> real,
    acos: real -> real,
    cos: real -> real,
    pi: real)

  /** The library's square root is exact at x. */
  predicate ExactSqrtAt(m: MathLib, x: real)
  {
    x >= 0.0 ==> m.sqrt(x) >= 0.0 && m.sqrt(x) * m.sqrt(x) == x
  }

  /** Real cube root through |x|^(1/3), with the sign of x put back. */
  function Cuberoot(x: real, m: MathLib): (r: real)
    ensures var y := m.pow(Abs(x), 1.0 / 3.0);
      y >= 0.0 ==> (x < 0.0 ==> r <= 0.0) && (x >= 0.0 ==> r >= 0.0)
    ensures var y := m.pow(Abs(x), 1.0 / 3.0);
      y * y * y == Abs(x) ==> r * r * r == x
  {
    var y := m.pow(Abs(x), 1.0 / 3.0);
    if x < 0.0 then -y else y
  }

  function QuadAt(a: real, b: real, c: real, x: real): real
  {
    a * x * x + b * x + c
  }

  function Discriminant(a: real, b: real, c: real): real
  {
    b * b - 4.0 * a * c
  }

  /** Roots of a*x^2 + b*x + c = 0, falling back to the linear equation when
      a is nearly zero; the `+sqrt` root comes first. */
  function QuadRoots(a: real, b: real, c: real, m: MathLib): (r: seq<real>)
    ensures |r| <= 2
    ensures Abs(a) < EPS && Abs(b) < EPS ==> r == []
    ensures Abs(a) < EPS && Abs(b) >= EPS ==> |r| == 1 && b * r[0] + c == 0.0
    ensures Abs(a) >= EPS && Abs(Discriminant(a, b, c)) >= EPS && Discriminant(a, b, c) < 0.0 ==> r == []
    ensures Abs(a) >= EPS && Abs(Discriminant(a, b, c)) < EPS ==> |r| == 1 && 2.0 * a * r[0] + b == 0.0
  {
    if Abs(a) < EPS then
      if Abs(b) < EPS then [] else [-c / b]
    else
      var D := b * b - 4.0 * a * c;
      if Abs(D) < EPS then [-b / (2.0 * a)]
      else if D > 0.0 then [(-b + m.sqrt(D)) / (2.0 * a), (-b - m.sqrt(D)) / (2.0 * a)]
      else []
  }

  /** Multiplying out (2a*x)^2: four a times the quadratic at x, in terms of y = 2a*x. */
  lemma QuadTimesFourA(a: real, b: real, c: real, x: real, y: real)
    requires y == 2.0 * a * x
    ensures 4.0 * a * QuadAt(a, b, c, x) == y * y + 2.0 * b * y + 4.0 * a * c
  {
  }

  lemma CancelFactor(k: real, u: real, v: real)
    requires k != 0.0 && k * u == k * v
    ensures u == v
  {
  }

  lemma TimesQuotient(n: real, k: real)
    requires k != 0.0
    ensures k * (n / k) == n
  {
  }

  /** The repeated root -b/2a misses zero by exactly -D/(4a). */
  lemma RepeatedRootResidual(a: real, b: real, c: real, x: real)
    requires a != 0.0 && x == -b / (2.0 * a)
    ensures QuadAt(a, b, c, x) == -Discriminant(a, b, c) / (4.0 * a)
  {
    TimesQuotient(-b, 2.0 * a);
    QuadTimesFourA(a, b, c, x, -b);
    TimesQuotient(-Discriminant(a, b, c), 4.0 * a);
    CancelFactor(4.0 * a, QuadAt(a, b, c, x), -Discriminant(a, b, c) / (4.0 * a));
  }

  /** (-b + e)/2a is a root whenever e*e is the discriminant. */
  lemma SquareRootResidual(a: real, b: real, c: real, e: real, x: real)
    requires a != 0.0 && e * e == Discriminant(a, b, c) && x == (-b + e) / (2.0 * a)
    ensures QuadAt(a, b, c, x) == 0.0
  {
    TimesQuotient(-b + e, 2.0 * a);
    QuadTimesFourA(a, b, c, x, e - b);
    assert (e - b) * (e - b) + 2.0 * b * (e - b) + 4.0 * a * c == e * e - b * b + 4.0 * a * c;
    CancelFactor(4.0 * a, QuadAt(a, b, c, x), 0.0);
  }

  /** With an exact square root, the two-root branch returns true roots and
      the repeated root misses zero by exactly -D/(4a). */
  lemma QuadRootsResidual(a: real, b: real, c: real, m: MathLib, x: real)
    requires Abs(a) >= EPS && ExactSqrtAt(m, Discriminant(a, b, c))
    requires x in QuadRoots(a, b, c, m)
    ensures Abs(Discriminant(a, b, c)) >= EPS ==> QuadAt(a, b, c, x) == 0.0
    ensures Abs(Discriminant(a, b, c)) < EPS ==> QuadAt(a, b, c, x) == -Discriminant(a, b, c) / (4.0 * a)
  {
    var D := Discriminant(a, b, c);
    if Abs(D) < EPS {
      RepeatedRootResidual(a, b, c, x);
    } else {
      var s := m.sqrt(D);
      assert x == (-b + s) / (2.0 * a) || x == (-b - s) / (2.0 * a);
      if x == (-b + s) / (2.0 * a) {
        SquareRootResidual(a, b, c, s, x);
      } else {
        assert (-s) * (-s) == D;
        SquareRootResidual(a, b, c, -s, x);
      }
    }
  }

  function CubicAt(a: real, b: real, c: real, d: real, x: real): real
  {
    a * x * x * x + b * x * x + c * x + d
  }

  /** Coefficient p of the depressed cubic t^3 + p*t + q (x = t - b/3a). */
  function DepressedP(a: real, b: real, c: real): real
    requires a != 0.0
  {
    (3.0 * a * c - b * b) / (3.0 * a * a)
  }

  /** Coefficient q of the depressed cubic t^3 + p*t + q (x = t - b/3a). */
  function DepressedQ(a: real, b: real, c: real, d: real): real
    requires a != 0.0
  {
    (2.0 * b * b * b - 9.0 * a * b * c + 27.0 * a * a * d) / (27.0 * a * a * a)
  }

  /** The cubic with b = 3as, expanded around x = t - s. */
  lemma ExpandShiftedCubic(a: real, s: real, c: real, d: real, t: real)
    ensures CubicAt(a, 3.0 * a * s, c, d, t - s)
         == a * t * t * t + (c - 3.0 * a * s * s) * t + (2.0 * a * s * s * s - c * s + d)
  {
    var x := t - s;
    assert x * x == t * t - 2.0 * s * t + s * s;
    assert x * x * x == t * t * t - 3.0 * s * t * t + 3.0 * s * s * t - s * s * s;
  }

  lemma DepressedPScaled(a: real, s: real, c: real)
    requires a != 0.0
    ensures a * DepressedP(a, 3.0 * a * s, c) == c - 3.0 * a * s * s
  {
    var b := 3.0 * a * s;
    assert 3.0 * a * a * DepressedP(a, b, c) == 3.0 * a * c - b * b;
    assert b * b == 9.0 * a * a * s * s;
    assert 3.0 * a * (a * DepressedP(a, b, c)) == 3.0 * a * (c - 3.0 * a * s * s);
    CancelFactor(3.0 * a, a * DepressedP(a, b, c), c - 3.0 * a * s * s);
  }

  lemma DepressedQScaled(a: real, s: real, c: real, d: real)
    requires a != 0.0
    ensures a * DepressedQ(a, 3.0 * a * s, c, d) == 2.0 * a * s * s * s - c * s + d
  {
    var b := 3.0 * a * s;
    var n := 2.0 * b * b * b - 9.0 * a * b * c + 27.0 * a * a * d;
    assert 27.0 * a * a * a != 0.0;
    TimesQuotient(n, 27.0 * a * a * a);
    var q := DepressedQ(a, b, c, d);
    assert 27.0 * a * a * a * q == n;
    assert b * b * b == 27.0 * a * a * a * s * s * s;
    assert a * b * c == 3.0 * a * a * s * c;
    assert n == 27.0 * a * a * (2.0 * a * s * s * s - c * s + d);
    assert 27.0 * a * a * (a * q) == 27.0 * a * a * (2.0 * a * s * s * s - c * s + d);
    CancelFactor(27.0 * a * a, a * q, 2.0 * a * s * s * s - c * s + d);
  }

  /** The substitution x = t - b/3a turns the cubic into a times the
      depressed cubic, so a root t of the depressed cubic gives the root
      t - b/3a of the original. */
  lemma DepressionIdentity(a: real, b: real, c: real, d: real, t: real)
    requires a != 0.0
    ensures CubicAt(a, b, c, d, t - b / (3.0 * a))
         == a * (t * t * t + DepressedP(a, b, c) * t + DepressedQ(a, b, c, d))
  {
    var s := b / (3.0 * a);
    TimesQuotient(b, 3.0 * a);
    assert b == 3.0 * a * s;
    ExpandShiftedCubic(a, s, c, d, t);
    DepressedPScaled(a, s, c);
    DepressedQScaled(a, s, c, d);
    var p := DepressedP(a, b, c);
    var q := DepressedQ(a, b, c, d);
    assert a * (t * t * t + p * t + q) == a * t * t * t + (a * p) * t + a * q;
  }

  /** Roots of t^3 + p*t + q = 0 by the branches of the closed-form method:
      p near zero, q near zero, repeated root, Cardano, trigonometric. */
  function DepressedRoots(p: real, q: real, m: MathLib): (r: seq<real>)
    ensures |r| <= 3
    ensures Abs(p) < EPS ==> |r| == 1
    ensures Abs(p) >= EPS && Abs(q) < EPS ==> 0 < |r| && r[0] == 0.0
  {
    if Abs(p) < EPS then
      [Cuberoot(-q, m)]
    else if Abs(q) < EPS then
      [0.0] + (if p < 0.0 then [m.sqrt(-p), -m.sqrt(-p)] else [])
    else
      var D := q * q / 4.0 + p * p * p / 27.0;
      if Abs(D) < EPS then
        [(-1.5 * q) / p, (3.0 * q) / p]
      else if D > 0.0 then
        var u := Cuberoot(-q / 2.0 - m.sqrt(D), m);
        if u == 0.0 then [] else [u - p / (3.0 * u)]
      else
        var u := 2.0 * m.sqrt(-p / 3.0);
        if u == 0.0 then []
        else
          var t := m.acos((3.0 * q) / p / u) / 3.0;
          var k := (2.0 * m.pi) / 3.0;
          [u * m.cos(t), u * m.cos(t - k), u * m.cos(t - 2.0 * k)]
  }

  /** When q is exactly zero and the square root is exact, the q-near-zero
      branch returns true roots of the depressed cubic. */
  lemma DepressedRootsExactWhenQZero(p: real, m: MathLib, t: real)
    requires Abs(p) >= EPS && ExactSqrtAt(m, -p)
    requires t in DepressedRoots(p, 0.0, m)
    ensures t * t * t + p * t == 0.0
  {
    if t != 0.0 {
      assert p < 0.0;
      assert t * t == -p by {
        assert t == m.sqrt(-p) || t == -m.sqrt(-p);
      }
      calc {
        t * t * t + p * t;
        t * (t * t + p);
        0.0;
      }
    }
  }

  /** Every value of s moved down by k. */
  function Shifted(s: seq<real>, k: real): (r: seq<real>)
    ensures |r| == |s|
  {
    if s == [] then [] else [s[0] - k] + Shifted(s[1..], k)
  }

  /** Entry i of the shifted sequence is entry i of s minus k. */
  lemma {:induction false} ShiftedAt(s: seq<real>, k: real)
    ensures forall i :: 0 <= i < |s| ==> Shifted(s, k)[i] == s[i] - k
  {
    if s != [] {
      ShiftedAt(s[1..], k);
      assert forall i :: 1 <= i < |s| ==> Shifted(s, k)[i] == Shifted(s[1..], k)[i - 1];
    }
  }

  /** Roots of a*x^3 + b*x^2 + c*x + d = 0: the quadratic solver when a is
      nearly zero, else the depressed-cubic roots shifted back by b/3a. */
  function CubicRoots(a: real, b: real, c: real, d: real, m: MathLib): (r: seq<real>)
    ensures |r| <= 3
    ensures Abs(a) < EPS ==> r == QuadRoots(b, c, d, m)
  {
    if Abs(a) < EPS then QuadRoots(b, c, d, m)
    else Shifted(DepressedRoots(DepressedP(a, b, c), DepressedQ(a, b, c, d), m), b / (3.0 * a))
  }

  /** The cubic w*x^3 - w*x^2 = w*x^2*(x - 1), met on a segment that starts
      flat: its double root 0 and its root 1 come out of the repeated-root
      branch exactly, with no library call. */
  lemma CubicRootsFlatStart(w: real, m: MathLib)
    requires Abs(w) >= EPS
    ensures CubicRoots(w, -w, 0.0, 0.0, m) == [0.0, 1.0]
  {
    var p := DepressedP(w, -w, 0.0);
    var q := DepressedQ(w, -w, 0.0, 0.0);
    assert p == -1.0 / 3.0 by {
      assert 3.0 * w * 0.0 - (-w) * (-w) == -(w * w);
      assert 3.0 * w * w != 0.0;
    }
    assert q == -2.0 / 27.0 by {
      assert 2.0 * (-w) * (-w) * (-w) - 9.0 * w * (-w) * 0.0 + 27.0 * w * w * 0.0 == -2.0 * (w * w * w);
      assert w * w * w != 0.0;
    }
    assert q * q / 4.0 + p * p * p / 27.0 == 0.0;
    assert DepressedRoots(p, q, m) == [-1.0 / 3.0, 2.0 / 3.0];
    var s := -w / (3.0 * w);
    assert s == -1.0 / 3.0;
    ShiftedAt(DepressedRoots(p, q, m), s);
  }

  /** A root t of the depressed cubic gives the root t - b/3a of the cubic. */
  lemma ShiftedRootIsRoot(a: real, b: real, c: real, d: real, t: real)
    requires a != 0.0
    requires t * t * t + DepressedP(a, b, c) * t + DepressedQ(a, b, c, d) == 0.0
    ensures CubicAt(a, b, c, d, t - b / (3.0 * a)) == 0.0
  {
    DepressionIdentity(a, b, c, d, t);
  }

  /** When the depressed constant q is exactly zero (and the square root is
      exact), every root the cubic solver returns is a true root. */
  lemma CubicRootsExactWhenQZero(a: real, b: real, c: real, d: real, m: MathLib, x: real)
    requires Abs(a) >= EPS && Abs(DepressedP(a, b, c)) >= EPS && DepressedQ(a, b, c, d) == 0.0
    requires ExactSqrtAt(m, -DepressedP(a, b, c))
    requires x in CubicRoots(a, b, c, d, m)
    ensures CubicAt(a, b, c, d, x) == 0.0
  {
    var p := DepressedP(a, b, c);
    var ds := DepressedRoots(p, 0.0, m);
    var s := b / (3.0 * a);
    assert CubicRoots(a, b, c, d, m) == Shifted(ds, s);
    ShiftedAt(ds, s);
    var i :| 0 <= i < |ds| && x == ds[i] - s;
    DepressedRootsExactWhenQZero(p, m, ds[i]);
    ShiftedRootIsRoot(a, b, c, d, ds[i]);
  }

  /** The solver as the source runs it: the depressed roots are computed,
      then shifted back one by one in place. */
  method GetCubicRoots(a: real, b: real, c: real, d: real, m: MathLib) returns (roots: seq<real>)
    ensures roots == CubicRoots(a, b, c, d, m)
  {
    if Abs(a) < EPS {
      return QuadRoots(b, c, d, m);
    }
    var p := (3.0 * a * c - b * b) / (3.0 * a * a);
    var q := (2.0 * b * b * b - 9.0 * a * b * c + 27.0 * a * a * d) / (27.0 * a * a * a);
    roots := DepressedRoots(p, q, m);
    ghost var depressed := roots;
    ShiftedAt(depressed, b / (3.0 * a));
    var i := 0;
    while i < |roots|
      invariant 0 <= i <= |roots| == |depressed|
      invariant forall j :: 0 <= j < i ==> roots[j] == depressed[j] - b / (3.0 * a)
      invariant forall j :: i <= j < |roots| ==> roots[j] == depressed[j]
    {
      roots := roots[i := roots[i] - b / (3.0 * a)];
      i := i + 1;
    }
  }
}
