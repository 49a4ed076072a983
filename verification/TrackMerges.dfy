/** When a new track is merged into a lost one (datapro2/src/datapro2.cpp, try_merge_trajectories), and what that is
    for. */
module TrackMerges {
  import opened LeastSquares
  import opened Nearest
  import opened Options
  import opened TrackChoices
  import opened TrackFit
  import opened TrackReports
  import opened TrackSpec
  import opened TrackTheorems
  import opened TrackTypes

  // ----- the condition

  datatype Velocity = Velocity(x: real, y: real, z: real)

  /** The velocity of an object that is seen at `p` and then at `m`. */
  function VelocityOf(p: Measurement, m: Measurement): Velocity
    requires p.time < m.time
  {
    var dt := Seconds(p.time, m.time);
    Velocity((m.p.x - p.p.x) / dt, (m.p.y - p.p.y) / dt, (m.p.z - p.p.z) / dt)
  }

  /** At the speed between `p` and `m`, an object can have come from `last` to `p`: the gap is at most `kDist` times what
      it covers in the time between. */
  predicate Reaches(cfg: Config, last: Measurement, p: Measurement, m: Measurement)
    requires p.time < m.time
  {
    var v := VelocityOf(p, m);
    cfg.distance(p.p, last.p) <= cfg.kDist * (cfg.speed(v.x, v.y, v.z) * Seconds(last.time, p.time))
  }

  function Last(tr: Trajectory): Measurement
    requires tr.measurements != []
  {
    tr.measurements[|tr.measurements| - 1]
  }

  /** The line through two points has the velocity between them. */
  lemma FitOfTwo(p: Measurement, m: Measurement)
    requires p.time < m.time
    ensures TimesIncrease([p, m])
    ensures var f, v := LinearFit([p, m]), VelocityOf(p, m); f.x.v == v.x && f.y.v == v.y && f.z.v == v.z
  {
    PairIncreases(p, m);
    var w, dt, v := [p, m], Seconds(p.time, m.time), VelocityOf(p, m);
    var ts := TimesOf(w, p.time);
    TimesOfIncrease(w, p.time);
    assert ts == [0.0, dt];
    hide LinearDenominator, MomentsOf, ProjOf, LinearModel, Seconds;
    LineOfTwo(dt, p.p.x, m.p.x, v.x);
    LineOfTwo(dt, p.p.y, m.p.y, v.y);
    LineOfTwo(dt, p.p.z, m.p.z, v.z);
    assert XsOf(w) == [p.p.x, m.p.x] && YsOf(w) == [p.p.y, m.p.y] && ZsOf(w) == [p.p.z, m.p.z];
    hide LiesOn;
    LineRecovered(ts, XsOf(w), Parabola(p.p.x, v.x, 0.0));
    LineRecovered(ts, YsOf(w), Parabola(p.p.y, v.y, 0.0));
    LineRecovered(ts, ZsOf(w), Parabola(p.p.z, v.z, 0.0));
  }

  lemma LineOfTwo(dt: real, a: real, b: real, v: real)
    requires dt > 0.0 && v == (b - a) / dt
    ensures LiesOn([0.0, dt], [a, b], Parabola(a, v, 0.0))
  {
    assert v * dt == b - a;
  }

  lemma MergesIff(cfg: Config, to: Trajectory, id: nat, camIndex: int, p: Measurement, m: Measurement)
    requires to.measurements != [] && p.time < m.time
    ensures CanMerge(cfg, to, NewTrajectory(id, camIndex, p, m)) <==> !to.updated && Reaches(cfg, Last(to), p, m)
  {
    FitOfTwo(p, m);
    var v, dt := VelocityOf(p, m), Seconds(Last(to).time, p.time);
    hide LinearFit, VelocityOf, Seconds;
    assert dt * cfg.speed(v.x, v.y, v.z) * cfg.kDist == cfg.kDist * (cfg.speed(v.x, v.y, v.z) * dt);
  }

  // ----- the merges of a frame

  /** Track `k` was not updated, neither before these pending points nor by one of them. */
  ghost predicate Open(trs: seq<Trajectory>, fates: seq<Fate>, k: nat) {
    k < |trs| && !trs[k].updated && k !in Joins(fates)
  }

  /** A pending point that takes a measurement is merged into the first open track that it can have come from, and starts
      a track of its own only when there is none. */
  ghost predicate MergedIntoFirst(cfg: Config, trs: seq<Trajectory>, p: Measurement, meas: seq<Measurement>,
                                  earlier: seq<Fate>, f: Fate)
    requires HasPoints(trs)
  {
    match f
    case Joined(i, at) =>
      && i < |meas| && p.time < meas[i].time && Open(trs, earlier, at) && Reaches(cfg, Last(trs[at]), p, meas[i])
      && forall k: nat :: k < at && Open(trs, earlier, k) ==> !Reaches(cfg, Last(trs[k]), p, meas[i])
    case Started(i, at) =>
      && i < |meas| && p.time < meas[i].time && at >= |trs|
      && forall k: nat :: Open(trs, earlier, k) ==> !Reaches(cfg, Last(trs[k]), p, meas[i])
    case _ => true
  }

  lemma FirstMerges(cfg: Config, trs: seq<Trajectory>, id: nat, camIndex: int, p: Measurement, meas: seq<Measurement>, i: nat)
    requires HasPoints(trs) && i < |meas| && p.time < meas[i].time
    ensures MergedIntoFirst(cfg, trs, p, meas, [], FateOf(cfg, trs, NewTrajectory(id, camIndex, p, meas[i]), i))
  {
    var from := NewTrajectory(id, camIndex, p, meas[i]);
    assert Joins([]) == [];
    hide Reaches, CanMerge, LinearFit, Joins;
    forall k: nat | k < |trs| ensures CanMerge(cfg, trs[k], from) <==> !trs[k].updated && Reaches(cfg, Last(trs[k]), p, meas[i]) {
      MergesIff(cfg, trs[k], id, camIndex, p, meas[i]);
    }
  }

  /** An updated track came to position `at`, and nothing else changed. */
  ghost predicate OnlyAt(trs: seq<Trajectory>, after: seq<Trajectory>, at: nat) {
    && |trs| <= |after| && at < |after| && after[at].updated
    && forall k: nat :: k < |after| && k != at ==> k < |trs| && after[k] == trs[k]
  }

  /** A new track is placed where its fate says, and only there. */
  lemma PlacedThere(cfg: Config, trs: seq<Trajectory>, from: Trajectory, i: nat)
    requires HasPoints(trs) && |from.measurements| >= 2 && TimesIncrease(from.measurements)
    ensures var r, at := Placed(cfg, trs, from), FateOf(cfg, trs, from, i).at;
            HasPoints(r) && OnlyAt(trs, r, at)
  {
    hide LinearFit, CanMerge;
  }

  lemma OpenAfter(trs: seq<Trajectory>, after: seq<Trajectory>, f: Fate, fates: seq<Fate>, k: nat)
    requires (f.Started? || f.Joined?) && OnlyAt(trs, after, f.at)
    ensures Open(after, fates, k) <==> Open(trs, [f] + fates, k)
    ensures Open(after, fates, k) ==> after[k] == trs[k]
  {
    JoinsCons(f, fates);
    hide Joins;
  }

  lemma MergedLater(cfg: Config, trs: seq<Trajectory>, after: seq<Trajectory>, p: Measurement, meas: seq<Measurement>,
                    first: Fate, earlier: seq<Fate>, f: Fate)
    requires (first.Started? || first.Joined?) && HasPoints(trs) && HasPoints(after) && OnlyAt(trs, after, first.at)
    requires MergedIntoFirst(cfg, after, p, meas, earlier, f)
    ensures MergedIntoFirst(cfg, trs, p, meas, [first] + earlier, f)
  {
    hide Reaches, Open;
    forall k: nat
      ensures Open(after, earlier, k) <==> Open(trs, [first] + earlier, k)
      ensures Open(after, earlier, k) ==> k < |after| && k < |trs| && after[k] == trs[k]
    {
      OpenAfter(trs, after, first, earlier, k);
      IsTrack(after, earlier, k);
      IsTrack(trs, [first] + earlier, k);
    }
  }

  lemma IsTrack(trs: seq<Trajectory>, fates: seq<Fate>, k: nat)
    ensures Open(trs, fates, k) ==> k < |trs|
  {
  }

  lemma MergedAfterNone(cfg: Config, trs: seq<Trajectory>, p: Measurement, meas: seq<Measurement>, first: Fate,
                        earlier: seq<Fate>, f: Fate)
    requires HasPoints(trs) && MergedIntoFirst(cfg, trs, p, meas, earlier, f) && !first.Started? && !first.Joined?
    ensures MergedIntoFirst(cfg, trs, p, meas, [first] + earlier, f)
  {
    JoinsCons(first, earlier);
    hide Reaches, Joins;
    forall k: nat ensures Open(trs, earlier, k) <==> Open(trs, [first] + earlier, k) {
    }
  }

  lemma {:induction false} PromoteAllMerges(cfg: Config, frame: Frame, ptts: seq<PTPoint>, meas: seq<Measurement>,
                                            taken: seq<bool>, trs: seq<Trajectory>, counter: nat, j: nat)
    requires |taken| == |meas| && Stamped(meas, frame.time) && PttsBefore(ptts, frame.time) && HasPoints(trs)
    requires j < |ptts|
    ensures var fates := PromoteAll(cfg, frame, ptts, meas, taken, trs, counter).fates;
            MergedIntoFirst(cfg, trs, ptts[j].measurement, meas, fates[..j], fates[j])
    decreases |ptts|
  {
    hide PromoteAll, Placed, PttChoice, FateOf, HasPoints, LinearFit, TimesIncrease, MergedIntoFirst, NewTrajectory, OnlyAt;
    match PttChoice(cfg, ptts[0].measurement, meas, taken)
    case Some(i) =>
      var from, rest := PromoteOne(cfg, frame, ptts, meas, taken, trs, counter, i);
      var f, after := FateOf(cfg, trs, from, i), Placed(cfg, trs, from);
      if j == 0 {
        FirstMerges(cfg, trs, counter, frame.camIndex, ptts[0].measurement, meas, i);
        assert ([f] + rest.fates)[..0] == [];
      } else {
        PromoteAllMerges(cfg, frame, ptts[1..], meas, taken[i := true], after, counter + 1, j - 1);
        PlacedThere(cfg, trs, from, i);
        MergedLater(cfg, trs, after, ptts[j].measurement, meas, f, rest.fates[..j - 1], rest.fates[j - 1]);
        assert ([f] + rest.fates)[..j] == [f] + rest.fates[..j - 1] && ptts[1..][j - 1] == ptts[j];
      }
    case None =>
      var f, rest := PromoteNone(cfg, frame, ptts, meas, taken, trs, counter);
      if j == 0 {
        NoMerge(cfg, trs, ptts[0].measurement, meas, f);
      } else {
        PromoteAllMerges(cfg, frame, ptts[1..], meas, taken, trs, counter, j - 1);
        MergedAfterNone(cfg, trs, ptts[j].measurement, meas, f, rest.fates[..j - 1], rest.fates[j - 1]);
        assert ([f] + rest.fates)[..j] == [f] + rest.fates[..j - 1] && ptts[1..][j - 1] == ptts[j];
      }
  }

  lemma NoMerge(cfg: Config, trs: seq<Trajectory>, p: Measurement, meas: seq<Measurement>, f: Fate)
    requires HasPoints(trs) && !f.Started? && !f.Joined?
    ensures forall earlier :: MergedIntoFirst(cfg, trs, p, meas, earlier, f)
  {
  }

  /** Track `k` took no measurement, and none of these pending points was merged into it. */
  ghost predicate Lost(choices: seq<Option<nat>>, fates: seq<Fate>, k: nat) {
    k < |choices| && choices[k].None? && k !in Joins(fates)
  }

  /** What the frame makes of a pending point that takes a measurement, in terms of the tracks before the frame. */
  ghost predicate JoinsFirstLost(cfg: Config, trs: seq<Trajectory>, choices: seq<Option<nat>>, earlier: seq<Fate>,
                                 p: Measurement, meas: seq<Measurement>, f: Fate)
    requires HasPoints(trs) && |choices| == |trs|
  {
    match f
    case Joined(i, at) =>
      && i < |meas| && p.time < meas[i].time && Lost(choices, earlier, at) && Reaches(cfg, Last(trs[at]), p, meas[i])
      && forall k: nat :: k < at && Lost(choices, earlier, k) ==> !Reaches(cfg, Last(trs[k]), p, meas[i])
    case Started(i, at) =>
      && i < |meas| && p.time < meas[i].time && at >= |trs|
      && forall k: nat :: Lost(choices, earlier, k) ==> !Reaches(cfg, Last(trs[k]), p, meas[i])
    case _ => true
  }

  lemma OpenIsLost(trs: seq<Trajectory>, after: seq<Trajectory>, choices: seq<Option<nat>>, fates: seq<Fate>, k: nat)
    requires |trs| == |after| == |choices| && (k < |trs| ==> Treated(trs[k], after[k], choices[k]))
    ensures Open(after, fates, k) <==> Lost(choices, fates, k)
    ensures Lost(choices, fates, k) ==> k < |trs| && after[k].measurements == trs[k].measurements
    ensures Open(after, fates, k) ==> k < |trs|
  {
    hide Joins;
  }

  lemma LostJoin(cfg: Config, trs: seq<Trajectory>, after: seq<Trajectory>, choices: seq<Option<nat>>, earlier: seq<Fate>,
                 p: Measurement, meas: seq<Measurement>, f: Fate)
    requires |trs| == |after| == |choices| && HasPoints(trs) && HasPoints(after)
    requires forall k: nat :: k < |trs| ==> Treated(trs[k], after[k], choices[k])
    requires MergedIntoFirst(cfg, after, p, meas, earlier, f)
    ensures JoinsFirstLost(cfg, trs, choices, earlier, p, meas, f)
  {
    hide Treated, Open, Lost, Reaches;
    forall k: nat
      ensures Open(after, earlier, k) <==> Lost(choices, earlier, k)
      ensures Lost(choices, earlier, k) ==> k < |trs| && Last(after[k]) == Last(trs[k])
      ensures Open(after, earlier, k) ==> k < |trs|
    {
      OpenIsLost(trs, after, choices, earlier, k);
    }
  }

  /** In a frame, every pending point that takes a measurement is merged into the first track that is still without an
      update and whose last point it can have come from, and starts a new track only when there is none. */
  lemma MergesIntoFirstLost(cfg: Config, frame: Frame, trs: seq<Trajectory>, ptts: seq<PTPoint>, meas: seq<Measurement>,
                            counter: nat, j: nat)
    requires Outcomes(cfg, frame, trs, ptts, meas) && j < |ptts|
    ensures var o := FrameOutcome(cfg, frame, trs, ptts, meas, counter);
            var choices, fates := o.matching.choices, o.promotion.fates;
            && |fates| == |ptts| && |choices| == |trs| && HasPoints(trs)
            && JoinsFirstLost(cfg, trs, choices, fates[..j], ptts[j].measurement, meas, fates[j])
  {
    OutcomeParts(cfg, frame, trs, ptts, meas, counter);
    BeforeHasPoints(cfg, trs, frame.time);
    hide FrameOutcome, Outcomes, MatchAll, PromoteAll, LiveBefore, Stamped, PttsBefore, MergedIntoFirst, JoinsFirstLost, Treated;
    var a := MatchAll(cfg, frame, trs, meas, AllFree(|meas|));
    var fates := PromoteAll(cfg, frame, ptts, meas, a.taken, a.trs, counter).fates;
    PromoteAllMerges(cfg, frame, ptts, meas, a.taken, a.trs, counter, j);
    forall k: nat | k < |trs| ensures Treated(trs[k], a.trs[k], a.choices[k]) {
      MatchAllOverlooks(cfg, frame, trs, meas, AllFree(|meas|), k);
    }
    LostJoin(cfg, trs, a.trs, a.choices, fates[..j], ptts[j].measurement, meas, fates[j]);
  }

  lemma BeforeHasPoints(cfg: Config, trs: seq<Trajectory>, time: int)
    requires LiveBefore(cfg, trs, time)
    ensures HasPoints(trs)
  {
  }

  // ----- what merging is for

  /** Where an object that moves uniformly is after `dt` seconds. */
  function Moved(p: Point, v: Velocity, dt: real): Point {
    Point(p.x + v.x * dt, p.y + v.y * dt, p.z + v.z * dt)
  }

  /** An object that moves uniformly is as far from its start as its speed says. */
  ghost predicate SpeedIsDistance(cfg: Config) {
    && (forall v: Velocity :: cfg.speed(v.x, v.y, v.z) >= 0.0)
    && (forall p: Point, v: Velocity, dt: real :: dt >= 0.0 ==> cfg.distance(Moved(p, v, dt), p) == cfg.speed(v.x, v.y, v.z) * dt)
  }

  function Abs(x: real): real {
    if x < 0.0 then -x else x
  }

  function CityDistance(p: Point, q: Point): real {
    Abs(p.x - q.x) + Abs(p.y - q.y) + Abs(p.z - q.z)
  }

  function CitySpeed(x: real, y: real, z: real): real {
    Abs(x) + Abs(y) + Abs(z)
  }

  lemma CityMoved(p: Point, v: Velocity, dt: real)
    requires dt >= 0.0
    ensures CityDistance(Moved(p, v, dt), p) == Times(CitySpeed(v.x, v.y, v.z), dt) && CitySpeed(v.x, v.y, v.z) >= 0.0
  {
    var q := Moved(p, v, dt);
    assert q.x == p.x + v.x * dt && q.y == p.y + v.y * dt && q.z == p.z + v.z * dt;
    hide Abs, Times, Moved;
    CoordinateMoved(p.x, q.x, v.x, dt);
    CoordinateMoved(p.y, q.y, v.y, dt);
    CoordinateMoved(p.z, q.z, v.z, dt);
    TimesSum(Abs(v.x), Abs(v.y), Abs(v.z), dt);
  }

  lemma CoordinateMoved(a: real, b: real, v: real, dt: real)
    requires dt >= 0.0 && b == a + v * dt
    ensures Abs(b - a) == Times(Abs(v), dt) && Abs(v) >= 0.0
  {
    if v < 0.0 {
      assert v * dt <= 0.0 && -(v * dt) == -v * dt;
    } else {
      assert v * dt >= 0.0;
    }
  }

  lemma TimesSum(a: real, b: real, c: real, dt: real)
    ensures Times(a + b + c, dt) == Times(a, dt) + Times(b, dt) + Times(c, dt)
  {
  }

  /** Every norm gives such a pair; this one needs no square root. */
  lemma CitySpeedIsDistance(cfg: Config)
    ensures SpeedIsDistance(cfg.(distance := CityDistance, speed := CitySpeed))
  {
    hide CityDistance, CitySpeed, Moved;
    forall p: Point, v: Velocity, dt: real | dt >= 0.0
      ensures CityDistance(Moved(p, v, dt), p) == CitySpeed(v.x, v.y, v.z) * dt
    {
      CityMoved(p, v, dt);
    }
    forall v: Velocity ensures CitySpeed(v.x, v.y, v.z) >= 0.0 {
      CityMoved(NO_POINT, v, 0.0);
    }
  }

  /** The points `last`, `p` and `m` are those of one object that moves uniformly. */
  predicate MovesOn(last: Measurement, p: Measurement, m: Measurement, v: Velocity) {
    && last.time <= p.time < m.time
    && p.p == Moved(last.p, v, Seconds(last.time, p.time)) && m.p == Moved(p.p, v, Seconds(p.time, m.time))
  }

  lemma VelocityFound(p: Measurement, m: Measurement, v: Velocity)
    requires p.time < m.time && m.p == Moved(p.p, v, Seconds(p.time, m.time))
    ensures VelocityOf(p, m) == v
  {
    var dt := Seconds(p.time, m.time);
    assert dt > 0.0;
    hide Seconds;
    Quotient(p.p.x, v.x, dt);
    Quotient(p.p.y, v.y, dt);
    Quotient(p.p.z, v.z, dt);
  }

  lemma Quotient(a: real, v: real, dt: real)
    requires dt > 0.0
    ensures (a + v * dt - a) / dt == v
  {
    assert a + v * dt - a == v * dt;
  }

  lemma AtLeastOnce(k: real, d: real)
    requires k >= 1.0 && d >= 0.0
    ensures d <= k * d
  {
    assert (k - 1.0) * d >= 0.0;
  }

  lemma ContinuationReaches(cfg: Config, last: Measurement, p: Measurement, m: Measurement, v: Velocity)
    requires SpeedIsDistance(cfg) && cfg.kDist >= 1.0 && MovesOn(last, p, m, v)
    ensures Reaches(cfg, last, p, m)
  {
    var dt := Seconds(last.time, p.time);
    assert dt >= 0.0;
    VelocityFound(p, m, v);
    hide Seconds, VelocityOf;
    var d := cfg.speed(v.x, v.y, v.z) * dt;
    assert d >= 0.0;
    AtLeastOnce(cfg.kDist, d);
    assert cfg.distance(Moved(last.p, v, dt), last.p) == d;
  }

  /** A lost object that moves on uniformly is found again: with a `kDist` of at least 1, the new track that its points
      would start is merged into its old track, or into an earlier one that these points can have come from. */
  lemma LostObjectIsFound(cfg: Config, frame: Frame, trs: seq<Trajectory>, ptts: seq<PTPoint>, meas: seq<Measurement>,
                          counter: nat, j: nat, i: nat, k: nat, v: Velocity)
    requires Outcomes(cfg, frame, trs, ptts, meas) && SpeedIsDistance(cfg) && cfg.kDist >= 1.0
    requires j < |ptts| && i < |meas| && k < |trs| && trs[k].measurements != []
    requires var o := FrameOutcome(cfg, frame, trs, ptts, meas, counter);
             Lost(o.matching.choices, o.promotion.fates[..j], k) && TakenBy(o.promotion.fates[j]) == Some(i)
    requires MovesOn(Last(trs[k]), ptts[j].measurement, meas[i], v)
    ensures var f := FrameOutcome(cfg, frame, trs, ptts, meas, counter).promotion.fates[j];
            f.Joined? && f.meas == i && f.at <= k
  {
    MergesIntoFirstLost(cfg, frame, trs, ptts, meas, counter, j);
    ContinuationReaches(cfg, Last(trs[k]), ptts[j].measurement, meas[i], v);
    hide FrameOutcome, Outcomes, Reaches, SpeedIsDistance, Lost, Joins;
  }

  /** A larger `kDist` never loses a merge. */
  lemma LargerReachMerges(cfg: Config, kDist: real, last: Measurement, p: Measurement, m: Measurement)
    requires p.time < m.time && last.time <= p.time && cfg.kDist <= kDist && Reaches(cfg, last, p, m)
    requires var v := VelocityOf(p, m); cfg.speed(v.x, v.y, v.z) >= 0.0
    ensures Reaches(cfg.(kDist := kDist), last, p, m)
  {
    var v, dt := VelocityOf(p, m), Seconds(last.time, p.time);
    assert dt >= 0.0;
    hide Seconds, VelocityOf;
    var d := cfg.speed(v.x, v.y, v.z) * dt;
    assert d >= 0.0;
    assert (kDist - cfg.kDist) * d >= 0.0;
  }
}
