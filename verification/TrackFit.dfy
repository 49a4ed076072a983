/** Fitting a trajectory's window (datapro2/src/datapro2.cpp, datapro2/src/calculationTrajectory.cpp). */
module TrackFit {
  import opened LeastSquares
  import opened TrackTypes

  type Window = seq<Measurement>

  /** diff_time_in_seconds */
  function Seconds(start: int, stop: int): real {
    (stop - start) as real / 1000000000.0
  }

  /** Durations add up, and a second has 10^9 nanoseconds. */
  lemma SecondsAdd(a: int, b: int, c: int)
    ensures Seconds(a, b) + Seconds(b, c) == Seconds(a, c)
    ensures Seconds(a, a + 1_000_000_000) == 1.0 && Seconds(a, b) == -Seconds(b, a)
  {
    assert (b - a) as real + (c - b) as real == (c - a) as real;
  }

  function TimesOf(w: Window, time0: int): (ts: seq<real>)
    ensures |ts| == |w|
  {
    seq(|w|, i requires 0 <= i < |w| => Seconds(time0, w[i].time))
  }

  function XsOf(w: Window): (xs: seq<real>)
    ensures |xs| == |w|
  {
    seq(|w|, i requires 0 <= i < |w| => w[i].p.x)
  }

  function YsOf(w: Window): (xs: seq<real>)
    ensures |xs| == |w|
  {
    seq(|w|, i requires 0 <= i < |w| => w[i].p.y)
  }

  function ZsOf(w: Window): (xs: seq<real>)
    ensures |xs| == |w|
  {
    seq(|w|, i requires 0 <= i < |w| => w[i].p.z)
  }

  ghost predicate TimesIncrease(w: Window) {
    forall i, j :: 0 <= i < j < |w| ==> w[i].time < w[j].time
  }

  lemma TimesOfIncrease(w: Window, time0: int)
    requires TimesIncrease(w)
    ensures Increasing(TimesOf(w, time0))
  {
  }

  /** A window of at least two points has a line, and one of at least three a parabola: the denominators by
      which the source divides are not zero. */
  lemma Solvable(w: Window)
    requires |w| >= 2 && TimesIncrease(w)
    ensures var m := MomentsOf(TimesOf(w, w[0].time));
            LinearDenominator(m) != 0.0 && (QuadraticDenominator(m) != 0.0 <==> |w| >= 3)
  {
    hide LinearDenominator, QuadraticDenominator, MomentsOf;
    var ts := TimesOf(w, w[0].time);
    TimesOfIncrease(w, w[0].time);
    LinearDenominatorPositive(ts);
    QuadraticDenominatorNegative(ts);
  }

  function LinearFit(w: Window): Fit
    requires |w| >= 2 && TimesIncrease(w)
  {
    Solvable(w);
    var ts := TimesOf(w, w[0].time);
    var m := MomentsOf(ts);
    Fit(LinearModel(m, ProjOf(ts, XsOf(w))), LinearModel(m, ProjOf(ts, YsOf(w))), LinearModel(m, ProjOf(ts, ZsOf(w))))
  }

  function QuadraticFit(w: Window): Fit
    requires |w| >= 3 && TimesIncrease(w)
  {
    Solvable(w);
    var ts := TimesOf(w, w[0].time);
    var m := MomentsOf(ts);
    Fit(QuadraticModel(m, ProjOf(ts, XsOf(w))), QuadraticModel(m, ProjOf(ts, YsOf(w))),
        QuadraticModel(m, ProjOf(ts, ZsOf(w))))
  }

  ghost predicate BestLines(w: Window, time0: int, f: Fit) {
    var ts := TimesOf(w, time0);
    BestLine(ts, XsOf(w), f.x) && BestLine(ts, YsOf(w), f.y) && BestLine(ts, ZsOf(w), f.z)
  }

  ghost predicate BestParabolas(w: Window, time0: int, f: Fit) {
    var ts := TimesOf(w, time0);
    BestParabola(ts, XsOf(w), f.x) && BestParabola(ts, YsOf(w), f.y) && BestParabola(ts, ZsOf(w), f.z)
  }

  lemma LinearFitIsBest(w: Window)
    requires |w| >= 2 && TimesIncrease(w)
    ensures BestLines(w, w[0].time, LinearFit(w))
  {
    hide LinearDenominator, MomentsOf, ProjOf, LinearModel, BestLine;
    var ts := TimesOf(w, w[0].time);
    TimesOfIncrease(w, w[0].time);
    LinearModelIsBest(ts, XsOf(w));
    LinearModelIsBest(ts, YsOf(w));
    LinearModelIsBest(ts, ZsOf(w));
  }

  lemma QuadraticFitIsBest(w: Window)
    requires |w| >= 3 && TimesIncrease(w)
    ensures BestParabolas(w, w[0].time, QuadraticFit(w))
  {
    hide QuadraticDenominator, MomentsOf, ProjOf, QuadraticModel, BestParabola;
    var ts := TimesOf(w, w[0].time);
    TimesOfIncrease(w, w[0].time);
    QuadraticModelIsBest(ts, XsOf(w));
    QuadraticModelIsBest(ts, YsOf(w));
    QuadraticModelIsBest(ts, ZsOf(w));
  }

  // ----- the source's loops

  lemma Prefix(w: Window, time0: int, k: nat)
    requires k < |w|
    ensures var v := w[..k + 1];
            && TimesOf(v, time0)[..k] == TimesOf(w[..k], time0) && TimesOf(v, time0)[k] == Seconds(time0, w[k].time)
            && XsOf(v)[..k] == XsOf(w[..k]) && YsOf(v)[..k] == YsOf(w[..k]) && ZsOf(v)[..k] == ZsOf(w[..k])
            && XsOf(v)[k] == w[k].p.x && YsOf(v)[k] == w[k].p.y && ZsOf(v)[k] == w[k].p.z
  {
  }

  /** All the sums over a window that the fits use. */
  datatype Sums = Sums(m: Moments, x: Proj, y: Proj, z: Proj)

  function SumsOf(w: Window, time0: int): Sums {
    var ts := TimesOf(w, time0);
    Sums(MomentsOf(ts), ProjOf(ts, XsOf(w)), ProjOf(ts, YsOf(w)), ProjOf(ts, ZsOf(w)))
  }

  function AddMeasurement(s: Sums, p: Point, dt: real): Sums {
    Sums(AddTime(s.m, dt), AddPoint(s.x, dt, p.x), AddPoint(s.y, dt, p.y), AddPoint(s.z, dt, p.z))
  }

  const NO_PROJ := Proj(0.0, 0.0, 0.0)

  lemma SumsStep(w: Window, time0: int, k: nat)
    requires k < |w|
    ensures SumsOf(w[..k + 1], time0) == AddMeasurement(SumsOf(w[..k], time0), w[k].p, Seconds(time0, w[k].time))
  {
    hide AddTime, AddPoint, Seconds;
    Prefix(w, time0, k);
  }

  lemma SumsStart(w: Window, time0: int)
    ensures SumsOf(w[..0], time0) == Sums(NO_MOMENTS, NO_PROJ, NO_PROJ, NO_PROJ)
    ensures w[..|w|] == w
    ensures SumsOf(w, time0).m.n == |w| as real
  {
    CountOf(TimesOf(w, time0));
  }

  method CalculationParametersLinearLeastSquares(w: Window, time0: int)
    returns (sumX: real, sumY: real, sumZ: real, sumXDt: real, sumYDt: real, sumZDt: real,
             sumDt: real, sumDt2: real, n: int, denominator: real)
    ensures var s := SumsOf(w, time0);
            && sumX == s.x.x && sumXDt == s.x.xt && sumY == s.y.x && sumYDt == s.y.xt && sumZ == s.z.x && sumZDt == s.z.xt
            && sumDt == s.m.t && sumDt2 == s.m.t2 && n as real == s.m.n && denominator == LinearDenominator(s.m)
  {
    hide SumsOf, Seconds, Times;
    sumX, sumY, sumZ, sumXDt, sumYDt, sumZDt, sumDt, sumDt2 := 0.0, 0.0, 0.0, 0.0, 0.0, 0.0, 0.0, 0.0;
    SumsStart(w, time0);
    for k := 0 to |w|
      invariant var s := SumsOf(w[..k], time0);
                && sumX == s.x.x && sumXDt == s.x.xt && sumY == s.y.x && sumYDt == s.y.xt && sumZ == s.z.x && sumZDt == s.z.xt
                && sumDt == s.m.t && sumDt2 == s.m.t2
    {
      SumsStep(w, time0, k);
      var m := w[k];
      var dt := Seconds(time0, m.time);
      sumX := sumX + m.p.x;
      sumY := sumY + m.p.y;
      sumZ := sumZ + m.p.z;
      sumXDt := sumXDt + Times(m.p.x, dt);
      sumYDt := sumYDt + Times(m.p.y, dt);
      sumZDt := sumZDt + Times(m.p.z, dt);
      sumDt := sumDt + dt;
      sumDt2 := sumDt2 + Times(dt, dt);
    }
    n := |w|;
    denominator := n as real * sumDt2 - sumDt * sumDt;
  }

  method CalculationParametersQuadraticLeastSquares(w: Window, time0: int)
    returns (x: Proj, y: Proj, z: Proj, m: Moments, denominator: real)
    ensures Sums(m, x, y, z) == SumsOf(w, time0) && denominator == QuadraticDenominator(m)
  {
    hide SumsOf, Seconds, Times, QuadraticDenominator;
    var sumDt, sumDt2, sumDt3, sumDt4 := 0.0, 0.0, 0.0, 0.0;
    x, y, z := NO_PROJ, NO_PROJ, NO_PROJ;
    SumsStart(w, time0);
    for k := 0 to |w|
      invariant var s := SumsOf(w[..k], time0);
                && (x, y, z) == (s.x, s.y, s.z)
                && sumDt == s.m.t && sumDt2 == s.m.t2 && sumDt3 == s.m.t3 && sumDt4 == s.m.t4
    {
      SumsStep(w, time0, k);
      var el := w[k];
      var dt := Seconds(time0, el.time);
      var dt2 := Times(dt, dt);
      x := Proj(x.x + el.p.x, x.xt + Times(el.p.x, dt), x.xt2 + Times(el.p.x, dt2));
      y := Proj(y.x + el.p.y, y.xt + Times(el.p.y, dt), y.xt2 + Times(el.p.y, dt2));
      z := Proj(z.x + el.p.z, z.xt + Times(el.p.z, dt), z.xt2 + Times(el.p.z, dt2));
      sumDt := sumDt + dt;
      sumDt2 := sumDt2 + dt2;
      sumDt3 := sumDt3 + Times(dt2, dt);
      sumDt4 := sumDt4 + Times(dt2, dt2);
    }
    m := Moments(|w| as real, sumDt, sumDt2, sumDt3, sumDt4);
    denominator := QuadraticDenominator(m);
  }

  /** calc_parameters_linear_model, with the result for one coordinate. */
  method CalcParametersLinearModel(sumX: real, sumXDt: real, sumDt: real, sumDt2: real, n: int, denominator: real,
                                   ghost m: Moments, ghost s: Proj)
    returns (p: Parabola)
    requires sumX == s.x && sumXDt == s.xt && sumDt == m.t && sumDt2 == m.t2 && n as real == m.n
    requires denominator == LinearDenominator(m) != 0.0
    ensures p == LinearModel(m, s)
  {
    p := Parabola((sumDt2 * sumX - sumDt * sumXDt) / denominator, (n as real * sumXDt - sumDt * sumX) / denominator, 0.0);
  }

  method UpdateTrajectoryParameters(tr: Trajectory) returns (updated: Trajectory)
    requires |tr.measurements| >= 2 && TimesIncrease(tr.measurements)
    ensures updated == tr.(time0 := tr.measurements[0].time, fit := LinearFit(tr.measurements))
  {
    var w := tr.measurements;
    var time0 := w[0].time;
    var sumX, sumY, sumZ, sumXDt, sumYDt, sumZDt, sumDt, sumDt2, n, denominator :=
      CalculationParametersLinearLeastSquares(w, time0);
    Solvable(w);
    hide LinearDenominator, LinearModel, MomentsOf, ProjOf;
    ghost var s := SumsOf(w, time0);
    var x := CalcParametersLinearModel(sumX, sumXDt, sumDt, sumDt2, n, denominator, s.m, s.x);
    var y := CalcParametersLinearModel(sumY, sumYDt, sumDt, sumDt2, n, denominator, s.m, s.y);
    var z := CalcParametersLinearModel(sumZ, sumZDt, sumDt, sumDt2, n, denominator, s.m, s.z);
    updated := tr.(time0 := time0, fit := Fit(x, y, z));
  }

  method UpdateTrajectoryParametersQm(tr: Trajectory) returns (updated: Trajectory)
    requires |tr.measurements| >= 3 && TimesIncrease(tr.measurements)
    ensures updated == tr.(time0 := tr.measurements[0].time, fit := QuadraticFit(tr.measurements))
  {
    var w := tr.measurements;
    var time0 := w[0].time;
    var x, y, z, m, denominator := CalculationParametersQuadraticLeastSquares(w, time0);
    Solvable(w);
    hide QuadraticDenominator, QuadraticModel, MomentsOf, ProjOf;
    updated := tr.(time0 := time0, fit := Fit(QuadraticModel(m, x), QuadraticModel(m, y), QuadraticModel(m, z)));
  }

  // ----- prediction

  function LinearPosition(f: Fit, dt: real): Point {
    Point(f.x.p0 + f.x.v * dt, f.y.p0 + f.y.v * dt, f.z.p0 + f.z.v * dt)
  }

  function QuadraticPosition(f: Fit, dt: real): Point {
    Point(f.x.p0 + f.x.v * dt + f.x.a * (dt * dt), f.y.p0 + f.y.v * dt + f.y.a * (dt * dt),
          f.z.p0 + f.z.v * dt + f.z.a * (dt * dt))
  }

  function ExtrapolatePosition(tr: Trajectory, time: int): Measurement {
    Measurement(0, 0.0, 0.0, LinearPosition(tr.fit, Seconds(tr.time0, time)), time)
  }

  function ExtrapolatePositionQm(tr: Trajectory, time: int): Measurement {
    Measurement(0, 0.0, 0.0, QuadraticPosition(tr.fit, Seconds(tr.time0, time)), time)
  }

  /** Three parabolas in space. */
  function PositionAt(f: Fit, dt: real): Point {
    Point(Value(f.x, dt), Value(f.y, dt), Value(f.z, dt))
  }

  ghost predicate MovesAlong(w: Window, time0: int, f: Fit) {
    var ts := TimesOf(w, time0);
    LiesOn(ts, XsOf(w), f.x) && LiesOn(ts, YsOf(w), f.y) && LiesOn(ts, ZsOf(w), f.z)
  }

  /** An object that moves uniformly is predicted exactly by the linear model from two points on ... */
  lemma UniformMotionPredicted(tr: Trajectory, f: Fit, time: int)
    requires |tr.measurements| >= 2 && TimesIncrease(tr.measurements) && tr.time0 == tr.measurements[0].time
    requires tr.fit == LinearFit(tr.measurements)
    requires f.x.a == 0.0 && f.y.a == 0.0 && f.z.a == 0.0 && MovesAlong(tr.measurements, tr.time0, f)
    ensures ExtrapolatePosition(tr, time).p == PositionAt(f, Seconds(tr.time0, time))
  {
    hide LinearDenominator, MomentsOf, ProjOf, LinearModel, LiesOn;
    var w := tr.measurements;
    var ts := TimesOf(w, tr.time0);
    TimesOfIncrease(w, tr.time0);
    LineRecovered(ts, XsOf(w), f.x);
    LineRecovered(ts, YsOf(w), f.y);
    LineRecovered(ts, ZsOf(w), f.z);
    assert tr.fit == f;
  }

  /** ... and one that accelerates uniformly by the quadratic model from three points on. */
  lemma AcceleratedMotionPredicted(tr: Trajectory, f: Fit, time: int)
    requires |tr.measurements| >= 3 && TimesIncrease(tr.measurements) && tr.time0 == tr.measurements[0].time
    requires tr.fit == QuadraticFit(tr.measurements) && MovesAlong(tr.measurements, tr.time0, f)
    ensures ExtrapolatePositionQm(tr, time).p == PositionAt(f, Seconds(tr.time0, time))
  {
    hide QuadraticDenominator, MomentsOf, ProjOf, QuadraticModel, LiesOn;
    var w := tr.measurements;
    var ts := TimesOf(w, tr.time0);
    TimesOfIncrease(w, tr.time0);
    ParabolaRecovered(ts, XsOf(w), f.x);
    ParabolaRecovered(ts, YsOf(w), f.y);
    ParabolaRecovered(ts, ZsOf(w), f.z);
    assert tr.fit == f;
  }
}
