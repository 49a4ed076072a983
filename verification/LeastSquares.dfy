/** The hand-expanded linear and quadratic least-squares fits of the tracker
    (datapro2/src/calculationTrajectory.cpp, datapro2/src/datapro2.cpp), over the reals. */
module LeastSquares {

  /** `p0 + v*t + a*t*t`; a line is a parabola with `a == 0`. */
  datatype Parabola = Parabola(p0: real, v: real, a: real)

  function Value(p: Parabola, t: real): real {
    p.p0 + p.v * t + p.a * (t * t)
  }

  function Minus(p: Parabola, q: Parabola): Parabola {
    Parabola(p.p0 - q.p0, p.v - q.v, p.a - q.a)
  }

  function Times(x: real, y: real): real {
    x * y
  }

  function Square(x: real): (r: real)
    ensures r >= 0.0
  {
    Times(x, x)
  }

  lemma NonZeroSquare(x: real)
    requires x != 0.0
    ensures Square(x) > 0.0
  {
    hide Times;
    if x > 0.0 {
      PositiveTimes(x, x);
    } else {
      PositiveTimes(-x, -x);
      OppositeTimes(x, x);
    }
  }

  lemma PositiveTimes(x: real, y: real)
    requires x > 0.0 && y > 0.0
    ensures Times(x, y) > 0.0
  {
  }

  lemma OppositeTimes(x: real, y: real)
    ensures Times(-x, -y) == Times(x, y)
  {
  }

  lemma Cancel(d: real, x: real, y: real)
    requires d != 0.0 && d * x == d * y
    ensures x == y
  {
  }

  /** Sums of powers of the times; `n` is their number. */
  datatype Moments = Moments(n: real, t: real, t2: real, t3: real, t4: real)

  /** Sums of the coordinates weighted by powers of the times. */
  datatype Proj = Proj(x: real, xt: real, xt2: real)

  function AddTime(m: Moments, t: real): Moments {
    var t2 := Times(t, t);
    Moments(m.n + 1.0, m.t + t, m.t2 + t2, m.t3 + Times(t2, t), m.t4 + Times(t2, t2))
  }

  function AddPoint(p: Proj, t: real, x: real): Proj {
    Proj(p.x + x, p.xt + Times(x, t), p.xt2 + Times(x, Times(t, t)))
  }

  function MomentsOf(ts: seq<real>): Moments {
    if ts == [] then Moments(0.0, 0.0, 0.0, 0.0, 0.0)
    else AddTime(MomentsOf(ts[..|ts| - 1]), ts[|ts| - 1])
  }

  function ProjOf(ts: seq<real>, xs: seq<real>): Proj
    requires |ts| == |xs|
  {
    if ts == [] then Proj(0.0, 0.0, 0.0)
    else AddPoint(ProjOf(ts[..|ts| - 1], xs[..|ts| - 1]), ts[|ts| - 1], xs[|ts| - 1])
  }

  /** The denominators of the two fits, as the source writes them. */
  function LinearDenominator(m: Moments): real {
    m.n * m.t2 - m.t * m.t
  }

  function QuadraticDenominator(m: Moments): real {
    m.t4 * m.t * m.t - 2.0 * m.t * m.t2 * m.t3 + m.t2 * m.t2 * m.t2 - m.n * m.t4 * m.t2 + m.n * m.t3 * m.t3
  }

  function LinearModel(m: Moments, s: Proj): Parabola
    requires LinearDenominator(m) != 0.0
  {
    var denominator := LinearDenominator(m);
    Parabola((m.t2 * s.x - m.t * s.xt) / denominator, (m.n * s.xt - m.t * s.x) / denominator, 0.0)
  }

  function QuadraticNumerators(m: Moments, s: Proj): Parabola {
    Parabola(
      s.xt2 * m.t2 * m.t2 - s.xt * m.t2 * m.t3 - m.t4 * s.x * m.t2 + s.x * m.t3 * m.t3
      - m.t * s.xt2 * m.t3 + m.t * m.t4 * s.xt,
      m.t2 * m.t2 * s.xt - m.n * m.t4 * s.xt + m.n * m.t3 * s.xt2 + m.t * m.t4 * s.x
      - m.t2 * m.t3 * s.x - m.t * m.t2 * s.xt2,
      s.xt2 * m.t * m.t - s.xt * m.t * m.t2 - m.t3 * s.x * m.t + s.x * m.t2 * m.t2
      - m.n * s.xt2 * m.t2 + m.n * m.t3 * s.xt)
  }

  function QuadraticModel(m: Moments, s: Proj): Parabola
    requires QuadraticDenominator(m) != 0.0
  {
    var c, denominator := QuadraticNumerators(m, s), QuadraticDenominator(m);
    Parabola(c.p0 / denominator, c.v / denominator, c.a / denominator)
  }

  // ----- what a fit is for

  /** The sum of squared residuals of `p` on the points. */
  function Error(ts: seq<real>, xs: seq<real>, p: Parabola): real
    requires |ts| == |xs|
  {
    if ts == [] then 0.0
    else
      var k := |ts| - 1;
      Error(ts[..k], xs[..k], p) + Square(xs[k] - Value(p, ts[k]))
  }

  ghost predicate BestLine(ts: seq<real>, xs: seq<real>, p: Parabola)
    requires |ts| == |xs|
  {
    p.a == 0.0 &&
    forall q: Parabola :: q.a == 0.0 && q != p ==> Error(ts, xs, p) < Error(ts, xs, q)
  }

  ghost predicate BestParabola(ts: seq<real>, xs: seq<real>, p: Parabola)
    requires |ts| == |xs|
  {
    forall q: Parabola :: q != p ==> Error(ts, xs, p) < Error(ts, xs, q)
  }

  predicate Increasing(ts: seq<real>) {
    forall i, j :: 0 <= i < j < |ts| ==> ts[i] < ts[j]
  }

  // ----- normal equations

  /** The three normal equations; `Row0` and `Row1` alone are those of the line. */
  function Row0(m: Moments, p: Parabola): real { m.n * p.p0 + m.t * p.v + m.t2 * p.a }
  function Row1(m: Moments, p: Parabola): real { m.t * p.p0 + m.t2 * p.v + m.t3 * p.a }
  function Row2(m: Moments, p: Parabola): real { m.t2 * p.p0 + m.t3 * p.v + m.t4 * p.a }

  lemma LinearNormalEquations(m: Moments, s: Proj)
    requires LinearDenominator(m) != 0.0
    ensures var p := LinearModel(m, s); Row0(m, p) == s.x && Row1(m, p) == s.xt
  {
    var d, p := LinearDenominator(m), LinearModel(m, s);
    assert d * p.p0 == m.t2 * s.x - m.t * s.xt;
    assert d * p.v == m.n * s.xt - m.t * s.x;
    Scale(d, m.n, p.p0, m.t, p.v, m.t2, p.a);
    Scale(d, m.t, p.p0, m.t2, p.v, m.t3, p.a);
    Cancel(d, Row0(m, p), s.x);
    Cancel(d, Row1(m, p), s.xt);
  }

  lemma Scale(d: real, a: real, x: real, b: real, y: real, c: real, z: real)
    ensures d * (a * x + b * y + c * z) == a * (d * x) + b * (d * y) + c * (d * z)
  {
  }

  lemma QuadraticNormalEquations(m: Moments, s: Proj)
    requires QuadraticDenominator(m) != 0.0
    ensures var p := QuadraticModel(m, s); Row0(m, p) == s.x && Row1(m, p) == s.xt && Row2(m, p) == s.xt2
  {
    hide QuadraticDenominator, QuadraticNumerators;
    var d, c := QuadraticDenominator(m), QuadraticNumerators(m, s);
    QuadraticRow0(m, s);
    QuadraticRow1(m, s);
    QuadraticRow2(m, s);
    DividedRow(d, m.n, c.p0, m.t, c.v, m.t2, c.a, s.x);
    DividedRow(d, m.t, c.p0, m.t2, c.v, m.t3, c.a, s.xt);
    DividedRow(d, m.t2, c.p0, m.t3, c.v, m.t4, c.a, s.xt2);
  }

  lemma DividedRow(d: real, a: real, x: real, b: real, y: real, c: real, z: real, rhs: real)
    requires d != 0.0 && a * x + b * y + c * z == d * rhs
    ensures a * (x / d) + b * (y / d) + c * (z / d) == rhs
  {
    Scale(d, a, x / d, b, y / d, c, z / d);
    assert d * (x / d) == x && d * (y / d) == y && d * (z / d) == z;
    Cancel(d, a * (x / d) + b * (y / d) + c * (z / d), rhs);
  }

  /** Cramer's rule: the numerators satisfy the normal equations scaled by the denominator. */
  lemma QuadraticRow0(m: Moments, s: Proj)
    ensures Row0(m, QuadraticNumerators(m, s)) == QuadraticDenominator(m) * s.x
  {
  }

  lemma QuadraticRow1(m: Moments, s: Proj)
    ensures Row1(m, QuadraticNumerators(m, s)) == QuadraticDenominator(m) * s.xt
  {
  }

  lemma QuadraticRow2(m: Moments, s: Proj)
    ensures Row2(m, QuadraticNumerators(m, s)) == QuadraticDenominator(m) * s.xt2
  {
  }

  // ----- the quadratic form of the Gram matrix

  function SquareSum(ts: seq<real>, p: Parabola): real {
    if ts == [] then 0.0
    else SquareSum(ts[..|ts| - 1], p) + Square(Value(p, ts[|ts| - 1]))
  }

  function Form(m: Moments, p: Parabola): real {
    p.p0 * Row0(m, p) + p.v * Row1(m, p) + p.a * Row2(m, p)
  }

  lemma Row0Step(m: Moments, t: real, p: Parabola)
    ensures Row0(AddTime(m, t), p) == Row0(m, p) + Value(p, t)
  {
  }

  lemma Row1Step(m: Moments, t: real, p: Parabola)
    ensures Row1(AddTime(m, t), p) == Row1(m, p) + t * Value(p, t)
  {
  }

  lemma Row2Step(m: Moments, t: real, p: Parabola)
    ensures Row2(AddTime(m, t), p) == Row2(m, p) + (t * t) * Value(p, t)
  {
  }

  lemma RowsStep(m: Moments, t: real, p: Parabola)
    ensures var w, v := AddTime(m, t), Value(p, t);
            Row0(w, p) == Row0(m, p) + v && Row1(w, p) == Row1(m, p) + t * v && Row2(w, p) == Row2(m, p) + (t * t) * v
  {
    hide *;
    Row0Step(m, t, p);
    Row1Step(m, t, p);
    Row2Step(m, t, p);
  }

  lemma FormStep(m: Moments, t: real, p: Parabola)
    ensures Form(AddTime(m, t), p) == Form(m, p) + Square(Value(p, t))
  {
    hide Row0, Row1, Row2;
    RowsStep(m, t, p);
    var v := Value(p, t);
    assert v * v == p.p0 * v + p.v * (t * v) + p.a * ((t * t) * v);
  }

  lemma {:induction false} FormIsSquareSum(ts: seq<real>, p: Parabola)
    ensures SquareSum(ts, p) == Form(MomentsOf(ts), p)
  {
    if ts == [] {
      assert Form(Moments(0.0, 0.0, 0.0, 0.0, 0.0), p) == 0.0;
    }
    hide Form, AddTime;
    if ts != [] {
      var k := |ts| - 1;
      FormIsSquareSum(ts[..k], p);
      FormStep(MomentsOf(ts[..k]), ts[k], p);
    }
  }

  lemma {:induction false} SquareSumNonNegative(ts: seq<real>, p: Parabola)
    ensures SquareSum(ts, p) >= 0.0
  {
    if ts != [] {
      SquareSumNonNegative(ts[..|ts| - 1], p);
    }
  }

  lemma {:induction false} SquareSumPositive(ts: seq<real>, p: Parabola, i: nat)
    requires i < |ts| && Value(p, ts[i]) != 0.0
    ensures SquareSum(ts, p) > 0.0
  {
    hide Square, Value;
    var k := |ts| - 1;
    if i < k {
      SquareSumPositive(ts[..k], p, i);
    } else {
      NonZeroSquare(Value(p, ts[k]));
      SquareSumNonNegative(ts[..k], p);
    }
  }

  /** A line that is not zero has a positive square sum on two different times, and so has a
      parabola on three. */
  lemma NonZeroLine(ts: seq<real>, p: Parabola)
    requires |ts| >= 2 && Increasing(ts) && p.a == 0.0 && p != Parabola(0.0, 0.0, 0.0)
    ensures SquareSum(ts, p) > 0.0
  {
    if Value(p, ts[0]) != 0.0 {
      SquareSumPositive(ts, p, 0);
    } else if Value(p, ts[1]) != 0.0 {
      SquareSumPositive(ts, p, 1);
    } else {
      TwoRoots(p, ts[0], ts[1]);
    }
  }

  lemma NonZeroParabola(ts: seq<real>, p: Parabola)
    requires |ts| >= 3 && Increasing(ts) && p != Parabola(0.0, 0.0, 0.0)
    ensures SquareSum(ts, p) > 0.0
  {
    if Value(p, ts[0]) != 0.0 {
      SquareSumPositive(ts, p, 0);
    } else if Value(p, ts[1]) != 0.0 {
      SquareSumPositive(ts, p, 1);
    } else if Value(p, ts[2]) != 0.0 {
      SquareSumPositive(ts, p, 2);
    } else {
      ThreeRoots(p, ts[0], ts[1], ts[2]);
    }
  }

  /** A parabola that vanishes at three different times is zero. */
  lemma ThreeRoots(p: Parabola, t: real, u: real, w: real)
    requires t < u < w && Value(p, t) == 0.0 && Value(p, u) == 0.0 && Value(p, w) == 0.0
    ensures p == Parabola(0.0, 0.0, 0.0)
  {
    Cancel(u - t, p.v + p.a * (u + t), 0.0);
    Cancel(w - t, p.v + p.a * (w + t), 0.0);
    Cancel(w - u, p.a, 0.0);
  }

  lemma TwoRoots(p: Parabola, t: real, u: real)
    requires t < u && p.a == 0.0 && Value(p, t) == 0.0 && Value(p, u) == 0.0
    ensures p == Parabola(0.0, 0.0, 0.0)
  {
    Cancel(u - t, p.v, 0.0);
  }

  // ----- when the denominators vanish

  lemma {:induction false} CountOf(ts: seq<real>)
    ensures MomentsOf(ts).n == |ts| as real
  {
    if ts != [] {
      CountOf(ts[..|ts| - 1]);
    }
  }

  /** On strictly increasing times the linear denominator is positive from two points on, else zero. */
  lemma LinearDenominatorPositive(ts: seq<real>)
    requires Increasing(ts)
    ensures if |ts| >= 2 then LinearDenominator(MomentsOf(ts)) > 0.0 else LinearDenominator(MomentsOf(ts)) == 0.0
  {
    hide MomentsOf, LinearDenominator;
    if |ts| >= 2 {
      LinearDenominatorOfMany(ts);
    } else {
      FewPointsSingular(ts);
    }
  }

  lemma LinearDenominatorOfMany(ts: seq<real>)
    requires |ts| >= 2 && Increasing(ts)
    ensures LinearDenominator(MomentsOf(ts)) > 0.0
  {
    hide MomentsOf, LinearDenominator, Form, SquareSum;
    var m := MomentsOf(ts);
    var p := Parabola(-m.t, m.n, 0.0);
    CountOf(ts);
    FormIsSquareSum(ts, p);
    LinearForm(m);
    NonZeroLine(ts, p);
    PositiveFactor(m.n, LinearDenominator(m));
  }

  lemma LinearForm(m: Moments)
    ensures Form(m, Parabola(-m.t, m.n, 0.0)) == m.n * LinearDenominator(m)
  {
  }

  lemma PositiveFactor(a: real, b: real)
    requires a > 0.0 && a * b > 0.0
    ensures b > 0.0
  {
  }

  /** The vector that the Gram matrix maps to (0, 0, -QuadraticDenominator). */
  function Kernel(m: Moments): Parabola {
    Parabola(m.t * m.t3 - m.t2 * m.t2, m.t * m.t2 - m.n * m.t3, m.n * m.t2 - m.t * m.t)
  }

  lemma KernelRows(m: Moments)
    ensures var p := Kernel(m);
            Row0(m, p) == 0.0 && Row1(m, p) == 0.0 && Row2(m, p) == -QuadraticDenominator(m)
  {
  }

  lemma KernelForm(m: Moments)
    ensures Form(m, Kernel(m)) == Kernel(m).a * -QuadraticDenominator(m)
  {
    hide QuadraticDenominator, Row0, Row1, Row2, Kernel;
    KernelRows(m);
  }

  /** On strictly increasing times the quadratic denominator is negative from three points on, else zero. */
  lemma QuadraticDenominatorNegative(ts: seq<real>)
    requires Increasing(ts)
    ensures if |ts| >= 3 then QuadraticDenominator(MomentsOf(ts)) < 0.0
            else QuadraticDenominator(MomentsOf(ts)) == 0.0
  {
    hide MomentsOf, QuadraticDenominator;
    if |ts| >= 3 {
      QuadraticDenominatorOfMany(ts);
    } else {
      FewPointsSingular(ts);
    }
  }

  lemma QuadraticDenominatorOfMany(ts: seq<real>)
    requires |ts| >= 3 && Increasing(ts)
    ensures QuadraticDenominator(MomentsOf(ts)) < 0.0
  {
    hide MomentsOf, QuadraticDenominator, Form, SquareSum;
    var m := MomentsOf(ts);
    var d, p := QuadraticDenominator(m), Kernel(m);
    assert p.a == LinearDenominator(m);
    LinearDenominatorOfMany(ts);
    FormIsSquareSum(ts, p);
    KernelForm(m);
    NonZeroParabola(ts, p);
    PositiveFactor(p.a, -d);
  }

  const NO_MOMENTS := Moments(0.0, 0.0, 0.0, 0.0, 0.0)

  lemma FewPointsSingular(ts: seq<real>)
    requires |ts| <= 2
    ensures QuadraticDenominator(MomentsOf(ts)) == 0.0
    ensures |ts| <= 1 ==> LinearDenominator(MomentsOf(ts)) == 0.0
  {
    hide QuadraticDenominator, LinearDenominator, AddTime;
    EmptySingular();
    if |ts| == 2 {
      assert ts[..1][..0] == [] && ts[..1][0] == ts[0];
      assert MomentsOf(ts) == AddTime(AddTime(NO_MOMENTS, ts[0]), ts[1]);
      TwoPointsSingular(ts[0], ts[1]);
    } else if |ts| == 1 {
      assert MomentsOf(ts) == AddTime(NO_MOMENTS, ts[0]);
      OnePointSingular(ts[0]);
    }
  }

  lemma EmptySingular()
    ensures LinearDenominator(NO_MOMENTS) == 0.0 && QuadraticDenominator(NO_MOMENTS) == 0.0
  {
  }

  lemma OnePointSingular(t: real)
    ensures var m := AddTime(NO_MOMENTS, t); LinearDenominator(m) == 0.0 && QuadraticDenominator(m) == 0.0
  {
    hide QuadraticDenominator;
    var m := AddTime(NO_MOMENTS, t);
    assert m.n == 1.0 && m.t == t && m.t2 == t * t && m.t3 == t * m.t2 && m.t4 == t * m.t3;
    DependentColumns(m, t, 0.0);
  }

  lemma TwoPointsSingular(t: real, u: real)
    ensures QuadraticDenominator(AddTime(AddTime(NO_MOMENTS, t), u)) == 0.0
  {
    hide QuadraticDenominator;
    var m := AddTime(AddTime(NO_MOMENTS, t), u);
    var p, q := t + u, t * u;
    assert m.t2 == p * m.t - q * m.n;
    assert m.t3 == p * m.t2 - q * m.t;
    assert m.t4 == p * m.t3 - q * m.t2;
    DependentColumns(m, p, q);
  }

  lemma DependentColumns(m: Moments, p: real, q: real)
    requires m.t2 == p * m.t - q * m.n && m.t3 == p * m.t2 - q * m.t && m.t4 == p * m.t3 - q * m.t2
    ensures QuadraticDenominator(m) == 0.0
  {
    assert p * (m.t * m.t - m.n * m.t2) == m.t * m.t2 - m.n * m.t3;
    assert q * (m.t * m.t - m.n * m.t2) == m.t2 * m.t2 - m.t * m.t3;
    assert QuadraticDenominator(m)
           == m.t4 * (m.t * m.t - m.n * m.t2) - m.t3 * (m.t * m.t2 - m.n * m.t3) + m.t2 * (m.t2 * m.t2 - m.t * m.t3);
  }

  // ----- the fits minimise the error

  /** The sum of the products of the residuals of `p` with the values of `q`. */
  function Cross(ts: seq<real>, xs: seq<real>, p: Parabola, q: Parabola): real
    requires |ts| == |xs|
  {
    if ts == [] then 0.0
    else var k := |ts| - 1; Cross(ts[..k], xs[..k], p, q) + Times(xs[k] - Value(p, ts[k]), Value(q, ts[k]))
  }

  function CrossForm(m: Moments, s: Proj, p: Parabola, q: Parabola): real {
    q.p0 * (s.x - Row0(m, p)) + q.v * (s.xt - Row1(m, p)) + q.a * (s.xt2 - Row2(m, p))
  }

  lemma CrossAlgebra(q: Parabola, a: real, b: real, c: real, r: real, t: real)
    ensures q.p0 * (a + r) + q.v * (b + r * t) + q.a * (c + r * (t * t))
            == q.p0 * a + q.v * b + q.a * c + r * Value(q, t)
  {
  }

  lemma ResidualSums(m: Moments, s: Proj, t: real, x: real, p: Parabola)
    ensures var m', s', r := AddTime(m, t), AddPoint(s, t, x), x - Value(p, t);
            && s'.x - Row0(m', p) == s.x - Row0(m, p) + r
            && s'.xt - Row1(m', p) == s.xt - Row1(m, p) + r * t
            && s'.xt2 - Row2(m', p) == s.xt2 - Row2(m, p) + r * (t * t)
  {
    hide Row0, Row1, Row2, Value, AddTime;
    RowsStep(m, t, p);
  }

  lemma CrossStep(m: Moments, s: Proj, t: real, x: real, p: Parabola, q: Parabola)
    ensures CrossForm(AddTime(m, t), AddPoint(s, t, x), p, q)
            == CrossForm(m, s, p, q) + Times(x - Value(p, t), Value(q, t))
  {
    hide Row0, Row1, Row2, Value, AddTime, AddPoint;
    ResidualSums(m, s, t, x, p);
    CrossAlgebra(q, s.x - Row0(m, p), s.xt - Row1(m, p), s.xt2 - Row2(m, p), x - Value(p, t), t);
  }

  lemma {:induction false} CrossIsForm(ts: seq<real>, xs: seq<real>, p: Parabola, q: Parabola)
    requires |ts| == |xs|
    ensures Cross(ts, xs, p, q) == CrossForm(MomentsOf(ts), ProjOf(ts, xs), p, q)
  {
    if ts == [] {
      assert CrossForm(Moments(0.0, 0.0, 0.0, 0.0, 0.0), Proj(0.0, 0.0, 0.0), p, q) == 0.0;
    }
    hide CrossForm, Value, AddTime, AddPoint, Times;
    if ts != [] {
      var k := |ts| - 1;
      CrossIsForm(ts[..k], xs[..k], p, q);
      CrossStep(MomentsOf(ts[..k]), ProjOf(ts[..k], xs[..k]), ts[k], xs[k], p, q);
    }
  }

  lemma ValueOfMinus(q: Parabola, p: Parabola, t: real)
    ensures Value(Minus(q, p), t) == Value(q, t) - Value(p, t)
  {
  }

  lemma SquareOfDifference(r: real, d: real)
    ensures Square(r - d) == Square(r) - 2.0 * Times(r, d) + Square(d)
  {
  }

  lemma {:induction false} ErrorExpands(ts: seq<real>, xs: seq<real>, p: Parabola, q: Parabola)
    requires |ts| == |xs|
    ensures Error(ts, xs, q)
            == Error(ts, xs, p) - 2.0 * Cross(ts, xs, p, Minus(q, p)) + SquareSum(ts, Minus(q, p))
  {
    hide Square, Times, Value, Minus;
    if ts != [] {
      var k := |ts| - 1;
      ErrorExpands(ts[..k], xs[..k], p, q);
      ValueOfMinus(q, p, ts[k]);
      var r, d := xs[k] - Value(p, ts[k]), Value(Minus(q, p), ts[k]);
      assert xs[k] - Value(q, ts[k]) == r - d;
      SquareOfDifference(r, d);
    }
  }

  lemma LinearModelIsLine(m: Moments, s: Proj)
    requires LinearDenominator(m) != 0.0
    ensures LinearModel(m, s).a == 0.0
  {
  }

  lemma CrossVanishes(m: Moments, s: Proj, p: Parabola, q: Parabola)
    requires Row0(m, p) == s.x && Row1(m, p) == s.xt && (q.a == 0.0 || Row2(m, p) == s.xt2)
    ensures CrossForm(m, s, p, q) == 0.0
  {
  }

  /** From two points on, the linear model is the one line of least squared error. */
  lemma LinearModelIsBest(ts: seq<real>, xs: seq<real>)
    requires |ts| == |xs| >= 2 && Increasing(ts)
    ensures LinearDenominator(MomentsOf(ts)) != 0.0
    ensures BestLine(ts, xs, LinearModel(MomentsOf(ts), ProjOf(ts, xs)))
  {
    LinearDenominatorPositive(ts);
    hide MomentsOf, ProjOf, LinearModel, LinearDenominator, CrossForm, Error, SquareSum, Cross;
    var m, s := MomentsOf(ts), ProjOf(ts, xs);
    var p := LinearModel(m, s);
    LinearModelIsLine(m, s);
    LinearNormalEquations(m, s);
    forall q: Parabola | q.a == 0.0 && q != p ensures Error(ts, xs, p) < Error(ts, xs, q) {
      var d := Minus(q, p);
      ErrorExpands(ts, xs, p, q);
      CrossIsForm(ts, xs, p, d);
      CrossVanishes(m, s, p, d);
      NonZeroLine(ts, d);
    }
  }

  /** From three points on, the quadratic model is the one parabola of least squared error. */
  lemma QuadraticModelIsBest(ts: seq<real>, xs: seq<real>)
    requires |ts| == |xs| >= 3 && Increasing(ts)
    ensures QuadraticDenominator(MomentsOf(ts)) != 0.0
    ensures BestParabola(ts, xs, QuadraticModel(MomentsOf(ts), ProjOf(ts, xs)))
  {
    QuadraticDenominatorNegative(ts);
    hide MomentsOf, ProjOf, QuadraticModel, QuadraticDenominator, CrossForm, Error, SquareSum, Cross;
    var m, s := MomentsOf(ts), ProjOf(ts, xs);
    var p := QuadraticModel(m, s);
    QuadraticNormalEquations(m, s);
    forall q: Parabola | q != p ensures Error(ts, xs, p) < Error(ts, xs, q) {
      var d := Minus(q, p);
      ErrorExpands(ts, xs, p, q);
      CrossIsForm(ts, xs, p, d);
      CrossVanishes(m, s, p, d);
      NonZeroParabola(ts, d);
    }
  }

  // ----- data that lies on a curve is recovered

  ghost predicate LiesOn(ts: seq<real>, xs: seq<real>, p: Parabola)
    requires |ts| == |xs|
  {
    forall i :: 0 <= i < |ts| ==> xs[i] == Value(p, ts[i])
  }

  lemma {:induction false} ErrorNonNegative(ts: seq<real>, xs: seq<real>, p: Parabola)
    requires |ts| == |xs|
    ensures Error(ts, xs, p) >= 0.0
    ensures LiesOn(ts, xs, p) ==> Error(ts, xs, p) == 0.0
  {
    if ts != [] {
      ErrorNonNegative(ts[..|ts| - 1], xs[..|ts| - 1], p);
    }
  }

  lemma LineRecovered(ts: seq<real>, xs: seq<real>, p: Parabola)
    requires |ts| == |xs| >= 2 && Increasing(ts) && p.a == 0.0 && LiesOn(ts, xs, p)
    ensures LinearDenominator(MomentsOf(ts)) != 0.0 && LinearModel(MomentsOf(ts), ProjOf(ts, xs)) == p
  {
    hide MomentsOf, ProjOf, LinearModel, LinearDenominator, Value, Error;
    LinearModelIsBest(ts, xs);
    ErrorNonNegative(ts, xs, p);
    ErrorNonNegative(ts, xs, LinearModel(MomentsOf(ts), ProjOf(ts, xs)));
  }

  lemma ParabolaRecovered(ts: seq<real>, xs: seq<real>, p: Parabola)
    requires |ts| == |xs| >= 3 && Increasing(ts) && LiesOn(ts, xs, p)
    ensures QuadraticDenominator(MomentsOf(ts)) != 0.0 && QuadraticModel(MomentsOf(ts), ProjOf(ts, xs)) == p
  {
    hide MomentsOf, ProjOf, QuadraticModel, QuadraticDenominator, Value, Error;
    QuadraticModelIsBest(ts, xs);
    ErrorNonNegative(ts, xs, p);
    ErrorNonNegative(ts, xs, QuadraticModel(MomentsOf(ts), ProjOf(ts, xs)));
  }
}
