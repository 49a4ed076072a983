/** What one frame does to the tracks of one camera (datapro2/src/datapro2.cpp, process_frame), as functions. */
module TrackSpec {
  import opened Naturals
  import opened Nearest
  import opened Options
  import opened TrackFit
  import opened TrackTypes

  // ----- the invariant of a track

  /** The settings for which no fit divides by zero. */
  predicate FitsDefined(cfg: Config) {
    cfg.linearModel || cfg.maxTrackingFrames != 2
  }

  ghost predicate Fitted(cfg: Config, tr: Trajectory) {
    if cfg.linearModel || |tr.measurements| == 2 then BestLines(tr.measurements, tr.time0, tr.fit)
    else BestParabolas(tr.measurements, tr.time0, tr.fit)
  }

  /** The window of a track has increasing times, starts at `time0`, is within its limit, and is fitted best. */
  ghost predicate Live(cfg: Config, tr: Trajectory) {
    var w := tr.measurements;
    && |w| >= 2 && TimesIncrease(w) && tr.time0 == w[0].time
    && (cfg.maxTrackingFrames >= 2 ==> |w| <= cfg.maxTrackingFrames)
    && Fitted(cfg, tr)
  }

  function LastTime(tr: Trajectory): int
    requires tr.measurements != []
  {
    tr.measurements[|tr.measurements| - 1].time
  }

  ghost predicate LiveBy(cfg: Config, tr: Trajectory, time: int) {
    Live(cfg, tr) && LastTime(tr) <= time
  }

  ghost predicate AllLiveBy(cfg: Config, trs: seq<Trajectory>, time: int) {
    forall k :: 0 <= k < |trs| ==> LiveBy(cfg, trs[k], time)
  }

  ghost predicate Stamped(meas: seq<Measurement>, time: int) {
    forall i :: 0 <= i < |meas| ==> meas[i].time == time
  }

  ghost predicate PttsBefore(ptts: seq<PTPoint>, time: int) {
    forall k :: 0 <= k < |ptts| ==> ptts[k].measurement.time < time
  }

  // ----- existing tracks

  function IsInStrobeTrajectory(m: Measurement, s: Strobe): bool {
    && s.min.x <= m.p.x && s.max.x >= m.p.x
    && s.min.y <= m.p.y && s.max.y >= m.p.y
    && s.min.z <= m.p.z && s.max.z >= m.p.z
  }

  function UsesLine(cfg: Config, tr: Trajectory): bool {
    cfg.linearModel || |tr.measurements| == 2
  }

  function Prediction(cfg: Config, frame: Frame, tr: Trajectory): Measurement {
    if UsesLine(cfg, tr) then ExtrapolatePosition(tr, frame.time) else ExtrapolatePositionQm(tr, frame.time)
  }

  /** The track as it enters the matching of a frame: not updated, with the strobe for its prediction. */
  function Prepared(cfg: Config, frame: Frame, tr: Trajectory): Trajectory {
    var reset := tr.(updated := false);
    reset.(strobe := cfg.strobe(UsesLine(cfg, tr), reset, Prediction(cfg, frame, reset), frame))
  }

  lemma PreparedPrediction(cfg: Config, frame: Frame, tr: Trajectory)
    ensures Prediction(cfg, frame, Prepared(cfg, frame, tr)) == Prediction(cfg, frame, tr.(updated := false))
    ensures Prepared(cfg, frame, tr).measurements == tr.measurements
  {
    var reset, prepared := tr.(updated := false), Prepared(cfg, frame, tr);
    assert prepared.measurements == reset.measurements && prepared.time0 == reset.time0 && prepared.fit == reset.fit;
    SamePrediction(cfg, frame, reset, prepared);
  }

  /** A prediction depends on the window, the start and the coefficients of a track only. */
  lemma SamePrediction(cfg: Config, frame: Frame, a: Trajectory, b: Trajectory)
    requires a.measurements == b.measurements && a.time0 == b.time0 && a.fit == b.fit
    ensures Prediction(cfg, frame, a) == Prediction(cfg, frame, b)
  {
    hide LinearPosition, QuadraticPosition, Seconds;
  }

  function TrackCost(cfg: Config, frame: Frame, prepared: Trajectory, m: Measurement, taken: bool): Option<real> {
    if !taken && IsInStrobeTrajectory(m, prepared.strobe)
    then Some(cfg.distance(Prediction(cfg, frame, prepared).p, m.p)) else None
  }

  function TrackCosts(cfg: Config, frame: Frame, prepared: Trajectory, meas: seq<Measurement>, taken: seq<bool>)
    : (costs: seq<Option<real>>)
    requires |taken| == |meas|
    ensures |costs| == |meas|
  {
    seq(|meas|, i requires 0 <= i < |meas| => TrackCost(cfg, frame, prepared, meas[i], taken[i]))
  }

  /** The window after a new point: at its limit it first loses its oldest point. */
  function Extended(cfg: Config, w: seq<Measurement>, m: Measurement): seq<Measurement>
    requires w != []
  {
    (if |w| == cfg.maxTrackingFrames then w[1..] else w) + [m]
  }

  lemma ExtendedWindow(cfg: Config, w: seq<Measurement>, m: Measurement)
    requires FitsDefined(cfg) && |w| >= 2 && TimesIncrease(w) && w[|w| - 1].time < m.time
    ensures var v := Extended(cfg, w, m);
            && |v| >= 2 && TimesIncrease(v) && (!cfg.linearModel ==> |v| >= 3) && v[|v| - 1] == m
            && (2 <= cfg.maxTrackingFrames && |w| <= cfg.maxTrackingFrames ==> |v| <= cfg.maxTrackingFrames)
  {
  }

  /** The track after it absorbed a measurement. */
  function Absorbed(cfg: Config, tr: Trajectory, m: Measurement): Trajectory
    requires FitsDefined(cfg) && |tr.measurements| >= 2 && TimesIncrease(tr.measurements) && LastTime(tr) < m.time
  {
    ExtendedWindow(cfg, tr.measurements, m);
    var w := Extended(cfg, tr.measurements, m);
    tr.(measurements := w, time0 := w[0].time, fit := if cfg.linearModel then LinearFit(w) else QuadraticFit(w),
        unconfirmedFramesCount := if tr.unconfirmedFramesCount > 0 then tr.unconfirmedFramesCount - 1
                                  else tr.unconfirmedFramesCount,
        updated := true)
  }

  lemma AbsorbedLive(cfg: Config, tr: Trajectory, m: Measurement)
    requires FitsDefined(cfg) && Live(cfg, tr) && LastTime(tr) < m.time
    ensures LiveBy(cfg, Absorbed(cfg, tr, m), m.time)
  {
    ExtendedWindow(cfg, tr.measurements, m);
    var w := Extended(cfg, tr.measurements, m);
    hide LinearFit, QuadraticFit, BestLines, BestParabolas;
    LinearFitIsBest(w);
    if !cfg.linearModel {
      QuadraticFitIsBest(w);
    }
  }

  function Choice(cfg: Config, frame: Frame, tr: Trajectory, meas: seq<Measurement>, taken: seq<bool>): (c: Option<nat>)
    requires |taken| == |meas|
    ensures c.Some? ==> c.value < |meas| && !taken[c.value]
  {
    NearestOf(TrackCosts(cfg, frame, Prepared(cfg, frame, tr), meas, taken), cfg.maxDistance)
  }

  /** One track in one frame. */
  function MatchOne(cfg: Config, frame: Frame, tr: Trajectory, meas: seq<Measurement>, taken: seq<bool>): Trajectory
    requires FitsDefined(cfg) && |taken| == |meas| && Stamped(meas, frame.time)
    requires Live(cfg, tr) && LastTime(tr) < frame.time
  {
    var prepared := Prepared(cfg, frame, tr);
    match Choice(cfg, frame, tr, meas, taken)
    case Some(i) => Absorbed(cfg, prepared, meas[i])
    case None => prepared.(unconfirmedFramesCount := tr.unconfirmedFramesCount + 1)
  }

  /** What the matching makes of a track. */
  ghost predicate Matched(cfg: Config, before: Trajectory, after: Trajectory, choice: Option<nat>, time: int) {
    LiveBy(cfg, after, time) && after.id == before.id && after.updated == choice.Some?
  }

  lemma MatchOneLive(cfg: Config, frame: Frame, tr: Trajectory, meas: seq<Measurement>, taken: seq<bool>)
    requires FitsDefined(cfg) && |taken| == |meas| && Stamped(meas, frame.time)
    requires Live(cfg, tr) && LastTime(tr) < frame.time
    ensures var r := MatchOne(cfg, frame, tr, meas, taken);
            Matched(cfg, tr, r, Choice(cfg, frame, tr, meas, taken), frame.time)
  {
    var prepared := Prepared(cfg, frame, tr);
    hide BestLines, BestParabolas;
    assert Live(cfg, prepared);
    match Choice(cfg, frame, tr, meas, taken)
    case Some(i) => AbsorbedLive(cfg, prepared, meas[i]);
    case None =>
  }

  function Mark(taken: seq<bool>, c: Option<nat>): (r: seq<bool>)
    requires c.Some? ==> c.value < |taken|
    ensures |r| == |taken|
  {
    if c.Some? then taken[c.value := true] else taken
  }

  /** The result of the first stage; `choices` says which measurement each track took. */
  datatype Matching = Matching(trs: seq<Trajectory>, taken: seq<bool>, choices: seq<Option<nat>>)

  ghost predicate LiveBefore(cfg: Config, trs: seq<Trajectory>, time: int) {
    forall k :: 0 <= k < |trs| ==> Live(cfg, trs[k]) && LastTime(trs[k]) < time
  }

  function MatchAll(cfg: Config, frame: Frame, trs: seq<Trajectory>, meas: seq<Measurement>, taken: seq<bool>)
    : (r: Matching)
    requires FitsDefined(cfg) && |taken| == |meas| && Stamped(meas, frame.time) && LiveBefore(cfg, trs, frame.time)
    ensures |r.trs| == |r.choices| == |trs| && |r.taken| == |meas|
  {
    if trs == [] then Matching([], taken, [])
    else
      var c := Choice(cfg, frame, trs[0], meas, taken);
      var rest := MatchAll(cfg, frame, trs[1..], meas, Mark(taken, c));
      Matching([MatchOne(cfg, frame, trs[0], meas, taken)] + rest.trs, rest.taken, [c] + rest.choices)
  }

  lemma LiveRest(cfg: Config, trs: seq<Trajectory>, time: int)
    requires LiveBefore(cfg, trs, time) && trs != []
    ensures LiveBefore(cfg, trs[1..], time) && Live(cfg, trs[0]) && LastTime(trs[0]) < time
  {
    hide Live;
  }

  lemma MatchAllOne(cfg: Config, frame: Frame, trs: seq<Trajectory>, meas: seq<Measurement>, taken: seq<bool>)
    requires FitsDefined(cfg) && |taken| == |meas| && Stamped(meas, frame.time) && LiveBefore(cfg, trs, frame.time)
    requires trs != []
    ensures var c := Choice(cfg, frame, trs[0], meas, taken); var r := MatchAll(cfg, frame, trs, meas, taken);
            var rest := MatchAll(cfg, frame, trs[1..], meas, Mark(taken, c));
            r == Matching([MatchOne(cfg, frame, trs[0], meas, taken)] + rest.trs, rest.taken, [c] + rest.choices)
    ensures LiveBefore(cfg, trs[1..], frame.time) && Live(cfg, trs[0]) && LastTime(trs[0]) < frame.time
  {
    LiveRest(cfg, trs, frame.time);
    hide Live, LiveBefore, Stamped, MatchOne, Choice, Mark;
  }

  lemma {:induction false} MatchAllAt(cfg: Config, frame: Frame, trs: seq<Trajectory>, meas: seq<Measurement>,
                                      taken: seq<bool>, k: nat)
    requires FitsDefined(cfg) && |taken| == |meas| && Stamped(meas, frame.time) && LiveBefore(cfg, trs, frame.time)
    requires k < |trs|
    ensures var r := MatchAll(cfg, frame, trs, meas, taken); Matched(cfg, trs[k], r.trs[k], r.choices[k], frame.time)
    decreases |trs|
  {
    hide *;
    MatchAllOne(cfg, frame, trs, meas, taken);
    var c := Choice(cfg, frame, trs[0], meas, taken);
    MatchOneLive(cfg, frame, trs[0], meas, taken);
    if k > 0 {
      MatchAllAt(cfg, frame, trs[1..], meas, Mark(taken, c), k - 1);
      MatchedNext(cfg, frame, trs, meas, taken, k);
    }
  }

  /** The later positions are those of the matching of the other tracks. */
  lemma MatchedNext(cfg: Config, frame: Frame, trs: seq<Trajectory>, meas: seq<Measurement>, taken: seq<bool>, k: nat)
    requires FitsDefined(cfg) && |taken| == |meas| && Stamped(meas, frame.time) && LiveBefore(cfg, trs, frame.time)
    requires 0 < k < |trs| && LiveBefore(cfg, trs[1..], frame.time) && Live(cfg, trs[0]) && LastTime(trs[0]) < frame.time
    ensures var c, r := Choice(cfg, frame, trs[0], meas, taken), MatchAll(cfg, frame, trs, meas, taken);
            var rest := MatchAll(cfg, frame, trs[1..], meas, Mark(taken, c));
            r.trs[k] == rest.trs[k - 1] && r.choices[k] == rest.choices[k - 1] && trs[1..][k - 1] == trs[k]
  {
    hide *;
    MatchAllOne(cfg, frame, trs, meas, taken);
  }

  lemma MatchAllLive(cfg: Config, frame: Frame, trs: seq<Trajectory>, meas: seq<Measurement>, taken: seq<bool>)
    requires FitsDefined(cfg) && |taken| == |meas| && Stamped(meas, frame.time) && LiveBefore(cfg, trs, frame.time)
    ensures var r := MatchAll(cfg, frame, trs, meas, taken);
            && AllLiveBy(cfg, r.trs, frame.time)
            && forall k :: 0 <= k < |trs| ==> r.trs[k].id == trs[k].id && r.trs[k].updated == r.choices[k].Some?
  {
    hide MatchAll, LiveBy, Live;
    var r := MatchAll(cfg, frame, trs, meas, taken);
    forall k | 0 <= k < |trs| ensures Matched(cfg, trs[k], r.trs[k], r.choices[k], frame.time) {
      MatchAllAt(cfg, frame, trs, meas, taken, k);
    }
  }

  // ----- pending points

  /** is_in_strobe, with the radii that the allowed speeds give. */
  function IsInStrobe(cfg: Config, d: real, dt: real): bool {
    d >= cfg.minSpeed * dt && d <= cfg.maxSpeed * dt
  }

  function PttCost(cfg: Config, ptt: Measurement, m: Measurement, taken: bool): Option<real> {
    var d := cfg.distance(ptt.p, m.p);
    if !taken && IsInStrobe(cfg, d, Seconds(ptt.time, m.time)) then Some(d) else None
  }

  function PttCosts(cfg: Config, ptt: Measurement, meas: seq<Measurement>, taken: seq<bool>): (costs: seq<Option<real>>)
    requires |taken| == |meas|
    ensures |costs| == |meas|
  {
    seq(|meas|, i requires 0 <= i < |meas| => PttCost(cfg, ptt, meas[i], taken[i]))
  }

  function PttChoice(cfg: Config, ptt: Measurement, meas: seq<Measurement>, taken: seq<bool>): (c: Option<nat>)
    requires |taken| == |meas|
    ensures c.Some? ==> c.value < |meas| && !taken[c.value]
  {
    NearestOf(PttCosts(cfg, ptt, meas, taken), cfg.maxDistance)
  }

  const NO_POINT := Point(0.0, 0.0, 0.0)

  /** A track of two points. */
  function NewTrajectory(id: nat, camIndex: int, a: Measurement, b: Measurement): Trajectory
    requires a.time < b.time
  {
    Trajectory([a, b], id, camIndex, a.time, LinearFit([a, b]), 0, false,
               Stats(0.0, 0.0, 0.0, 0.0, 0.0, 0.0), Strobe(NO_POINT, NO_POINT))
  }

  function CanMerge(cfg: Config, to: Trajectory, from: Trajectory): bool
    requires to.measurements != [] && from.measurements != []
  {
    var last, first := to.measurements[|to.measurements| - 1], from.measurements[0];
    var possible := Seconds(last.time, first.time) * cfg.speed(from.fit.x.v, from.fit.y.v, from.fit.z.v) * cfg.kDist;
    !to.updated && !(possible < cfg.distance(first.p, last.p))
  }

  predicate HasPoints(trs: seq<Trajectory>) {
    forall k :: 0 <= k < |trs| ==> trs[k].measurements != []
  }

  /** The first track that the new one can be merged into. */
  function MergeTarget(cfg: Config, trs: seq<Trajectory>, from: Trajectory): (r: Option<nat>)
    requires HasPoints(trs) && from.measurements != []
    ensures match r
            case Some(k) => k < |trs| && CanMerge(cfg, trs[k], from) && forall j :: 0 <= j < k ==> !CanMerge(cfg, trs[j], from)
            case None => forall j :: 0 <= j < |trs| ==> !CanMerge(cfg, trs[j], from)
  {
    if trs == [] then None
    else
      var k := |trs| - 1;
      var before := MergeTarget(cfg, trs[..k], from);
      if before.Some? then before else if CanMerge(cfg, trs[k], from) then Some(k) else None
  }

  function Merged(to: Trajectory, from: Trajectory): Trajectory
    requires |from.measurements| >= 2 && TimesIncrease(from.measurements)
  {
    to.(updated := true, measurements := from.measurements, time0 := from.measurements[0].time,
        fit := LinearFit(from.measurements), unconfirmedFramesCount := 0)
  }

  /** Puts a new track among the tracks. */
  function Placed(cfg: Config, trs: seq<Trajectory>, from: Trajectory): seq<Trajectory>
    requires HasPoints(trs) && |from.measurements| >= 2 && TimesIncrease(from.measurements)
  {
    match MergeTarget(cfg, trs, from)
    case Some(k) => trs[k := Merged(trs[k], from)]
    case None => trs + [from.(updated := true)]
  }

  /** What became of a pending point: `at` is the position of the track that it joined. */
  datatype Fate = Started(meas: nat, at: nat) | Joined(meas: nat, at: nat) | Aged | Expired

  function FateOf(cfg: Config, trs: seq<Trajectory>, from: Trajectory, i: nat): Fate
    requires HasPoints(trs) && from.measurements != []
  {
    match MergeTarget(cfg, trs, from)
    case Some(k) => Joined(i, k)
    case None => Started(i, |trs|)
  }

  datatype Promotion = Promotion(ptts: seq<PTPoint>, trs: seq<Trajectory>, taken: seq<bool>, counter: nat, fates: seq<Fate>)

  lemma PairIncreases(a: Measurement, b: Measurement)
    requires a.time < b.time
    ensures TimesIncrease([a, b])
  {
  }

  function PromoteAll(cfg: Config, frame: Frame, ptts: seq<PTPoint>, meas: seq<Measurement>, taken: seq<bool>,
                      trs: seq<Trajectory>, counter: nat): (r: Promotion)
    requires |taken| == |meas| && Stamped(meas, frame.time) && PttsBefore(ptts, frame.time) && HasPoints(trs)
    ensures |r.taken| == |meas| && |r.fates| == |ptts|
    decreases |ptts|
  {
    if ptts == [] then Promotion([], trs, taken, counter, [])
    else
      var p := ptts[0];
      match PttChoice(cfg, p.measurement, meas, taken)
      case Some(i) =>
        var from := NewTrajectory(counter, frame.camIndex, p.measurement, meas[i]);
        var rest := PromoteAll(cfg, frame, ptts[1..], meas, taken[i := true], Placed(cfg, trs, from), counter + 1);
        rest.(fates := [FateOf(cfg, trs, from, i)] + rest.fates)
      case None =>
        var rest := PromoteAll(cfg, frame, ptts[1..], meas, taken, trs, counter);
        if p.passedFrames + 1 < cfg.maxPttFrames
        then rest.(ptts := [p.(passedFrames := p.passedFrames + 1)] + rest.ptts, fates := [Aged] + rest.fates)
        else rest.(fates := [Expired] + rest.fates)
  }

  lemma PlacedLive(cfg: Config, trs: seq<Trajectory>, from: Trajectory, time: int)
    requires AllLiveBy(cfg, trs, time) && HasPoints(trs)
    requires |from.measurements| == 2 && TimesIncrease(from.measurements) && LastTime(from) <= time
    requires from.time0 == from.measurements[0].time && from.fit == LinearFit(from.measurements)
    ensures AllLiveBy(cfg, Placed(cfg, trs, from), time) && HasPoints(Placed(cfg, trs, from))
  {
    hide LinearFit, BestLines, BestParabolas, CanMerge;
    LinearFitIsBest(from.measurements);
  }

  lemma {:induction false} PromoteAllLive(cfg: Config, frame: Frame, ptts: seq<PTPoint>, meas: seq<Measurement>,
                                          taken: seq<bool>, trs: seq<Trajectory>, counter: nat)
    requires |taken| == |meas| && Stamped(meas, frame.time) && PttsBefore(ptts, frame.time) && HasPoints(trs)
    requires AllLiveBy(cfg, trs, frame.time)
    ensures var r := PromoteAll(cfg, frame, ptts, meas, taken, trs, counter);
            AllLiveBy(cfg, r.trs, frame.time) && PttsBefore(r.ptts, frame.time)
    decreases |ptts|
  {
    if ptts != [] {
      hide LiveBy, Placed, FateOf, PttChoice, LinearFit;
      var p := ptts[0];
      match PttChoice(cfg, p.measurement, meas, taken)
      case Some(i) =>
        PairIncreases(p.measurement, meas[i]);
        var from := NewTrajectory(counter, frame.camIndex, p.measurement, meas[i]);
        PlacedLive(cfg, trs, from, frame.time);
        PromoteAllLive(cfg, frame, ptts[1..], meas, taken[i := true], Placed(cfg, trs, from), counter + 1);
      case None =>
        PromoteAllLive(cfg, frame, ptts[1..], meas, taken, trs, counter);
    }
  }

  // ----- the rest of the measurements, and the end of the frame

  /** The positions below `n` that are still free. */
  function Unassigned(taken: seq<bool>): (s: seq<nat>)
    ensures forall k :: 0 <= k < |s| ==> s[k] < |taken|
  {
    if taken == [] then []
    else
      var n := |taken| - 1;
      Unassigned(taken[..n]) + (if taken[n] then [] else [n])
  }

  function NewPtts(meas: seq<Measurement>, taken: seq<bool>): (r: seq<PTPoint>)
    requires |taken| == |meas|
    ensures |r| == |Unassigned(taken)|
    ensures forall k :: 0 <= k < |r| ==> r[k] == PTPoint(meas[Unassigned(taken)[k]], 1)
  {
    var s := Unassigned(taken);
    seq(|s|, k requires 0 <= k < |s| => PTPoint(meas[s[k]], 1))
  }

  function WithStatistics(cfg: Config, trs: seq<Trajectory>): (r: seq<Trajectory>)
    ensures |r| == |trs|
    ensures forall k :: 0 <= k < |r| ==> r[k] == trs[k].(stats := cfg.statistics(cfg.linearModel, trs[k]))
  {
    seq(|trs|, k requires 0 <= k < |trs| => trs[k].(stats := cfg.statistics(cfg.linearModel, trs[k])))
  }

  /** trajectory_matches_requirements */
  function MatchesRequirements(cfg: Config, tr: Trajectory, drop: bool): bool {
    var q, s := if drop then cfg.drop else cfg.show, tr.stats;
    && !(q.maxConfirmedFrames - tr.unconfirmedFramesCount < q.minConfirmedFrames)
    && !(s.speed < q.minSpeed || s.speed > q.maxSpeed)
    && (!cfg.linearModel ==> !(s.acceleration < q.minAcceleration || s.acceleration > q.maxAcceleration))
    && !(s.stdDevX > q.maxXStdDev) && !(s.stdDevY > q.maxYStdDev) && !(s.stdDevZ > q.maxZStdDev)
    && !(s.stdDevXyz > q.maxXyzStdDev)
    && !(!drop && |tr.measurements| < AsUnsigned64(cfg.showMinFrames))
  }

  function Kept(cfg: Config, trs: seq<Trajectory>): seq<Trajectory> {
    if trs == [] then []
    else
      var n := |trs| - 1;
      Kept(cfg, trs[..n]) + (if MatchesRequirements(cfg, trs[n], true) then [trs[n]] else [])
  }

  function DroppedIds(cfg: Config, trs: seq<Trajectory>): seq<nat> {
    if trs == [] then []
    else
      var n := |trs| - 1;
      DroppedIds(cfg, trs[..n]) + (if MatchesRequirements(cfg, trs[n], true) then [] else [trs[n].id])
  }

  /** The ids of the updated tracks that have two points (`two`), or that have not. */
  function UpdatedIds(trs: seq<Trajectory>, two: bool): seq<nat> {
    if trs == [] then []
    else
      var n := |trs| - 1;
      UpdatedIds(trs[..n], two)
      + (if trs[n].updated && (|trs[n].measurements| == 2) == two then [trs[n].id] else [])
  }

  function Presented(cfg: Config, trs: seq<Trajectory>): seq<Trajectory> {
    if trs == [] then []
    else
      var n := |trs| - 1;
      Presented(cfg, trs[..n]) + (if MatchesRequirements(cfg, trs[n], false) then [trs[n]] else [])
  }

  // ----- the whole frame

  /** The lists that a frame can be processed on. */
  ghost predicate Outcomes(cfg: Config, frame: Frame, trs: seq<Trajectory>, ptts: seq<PTPoint>, meas: seq<Measurement>) {
    && FitsDefined(cfg) && Stamped(meas, frame.time) && LiveBefore(cfg, trs, frame.time) && PttsBefore(ptts, frame.time)
    && HasPoints(MatchAll(cfg, frame, trs, meas, AllFree(|meas|)).trs)
  }

  /** All that one frame brings about. */
  datatype Outcome = Outcome(matching: Matching, promotion: Promotion, ptts: seq<PTPoint>, trajectories: seq<Trajectory>,
                             newIds: seq<nat>, updatedIds: seq<nat>, droppedIds: seq<nat>)

  function FrameOutcome(cfg: Config, frame: Frame, trs: seq<Trajectory>, ptts: seq<PTPoint>, meas: seq<Measurement>, counter: nat)
    : Outcome
    requires Outcomes(cfg, frame, trs, ptts, meas)
  {
    var a := MatchAll(cfg, frame, trs, meas, AllFree(|meas|));
    var b := PromoteAll(cfg, frame, ptts, meas, a.taken, a.trs, counter);
    var all := WithStatistics(cfg, b.trs);
    var kept := Kept(cfg, all);
    Outcome(a, b, b.ptts + NewPtts(meas, b.taken), kept, UpdatedIds(kept, true), UpdatedIds(kept, false), DroppedIds(cfg, all))
  }
}
