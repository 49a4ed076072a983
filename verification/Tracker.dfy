/** The tracker as the source runs it (datapro2/src/datapro2.cpp): loops over lists that are updated in place,
    proved against the functions of TrackSpec. */
module Tracker {
  import opened LeastSquares
  import opened Nearest
  import opened NoiseFilter
  import opened Options
  import opened TrackFit
  import opened TrackSpec
  import opened TrackTheorems
  import opened TrackTypes

  /** The free measurement inside the strobe that is nearest to the prediction. */
  method FindTrackMatch(cfg: Config, frame: Frame, prepared: Trajectory, extrapolated: Measurement,
                        meas: seq<Measurement>, taken: seq<bool>) returns (best: Option<nat>)
    requires |taken| == |meas| && extrapolated == Prediction(cfg, frame, prepared)
    ensures best == NearestOf(TrackCosts(cfg, frame, prepared, meas, taken), cfg.maxDistance)
  {
    ghost var costs := TrackCosts(cfg, frame, prepared, meas, taken);
    best := None;
    var bestDistance := cfg.maxDistance;
    for i := 0 to |meas|
      invariant best == NearestOf(costs[..i], cfg.maxDistance)
      invariant bestDistance == if best.Some? then costs[best.value].value else cfg.maxDistance
    {
      NearestOfPrefix(costs, i, cfg.maxDistance);
      var inStrobe := IsInStrobeTrajectory(meas[i], prepared.strobe);
      if !taken[i] && inStrobe {
        var dist := cfg.distance(extrapolated.p, meas[i].p);
        if dist < bestDistance {
          bestDistance := dist;
          best := Some(i);
        }
      }
    }
    assert costs[..|meas|] == costs;
  }

  /** The free measurement, at a possible speed, that is nearest to a pending point. */
  method FindPttMatch(cfg: Config, ptt: Measurement, meas: seq<Measurement>, taken: seq<bool>) returns (best: Option<nat>)
    requires |taken| == |meas|
    ensures best == PttChoice(cfg, ptt, meas, taken)
  {
    hide Seconds, IsInStrobe;
    ghost var costs := PttCosts(cfg, ptt, meas, taken);
    best := None;
    var bestDistance := cfg.maxDistance;
    for i := 0 to |meas|
      invariant best == NearestOf(costs[..i], cfg.maxDistance)
      invariant bestDistance == if best.Some? then costs[best.value].value else cfg.maxDistance
    {
      NearestOfPrefix(costs, i, cfg.maxDistance);
      var dt := Seconds(ptt.time, meas[i].time);
      var dist := cfg.distance(ptt.p, meas[i].p);
      if !taken[i] && IsInStrobe(cfg, dist, dt) {
        if dist < bestDistance {
          bestDistance := dist;
          best := Some(i);
        }
      }
    }
    assert costs[..|meas|] == costs;
  }

  method UpdateTrack(cfg: Config, prepared: Trajectory, m: Measurement) returns (tr: Trajectory)
    requires FitsDefined(cfg) && |prepared.measurements| >= 2 && TimesIncrease(prepared.measurements)
    requires LastTime(prepared) < m.time
    ensures tr == Absorbed(cfg, prepared, m)
    ensures var w := prepared.measurements;
            && (|w| != cfg.maxTrackingFrames ==> tr.measurements == w + [m])
            && (|w| == cfg.maxTrackingFrames ==> tr.measurements == w[1..] + [m])
  {
    ExtendedWindow(cfg, prepared.measurements, m);
    hide LinearFit, QuadraticFit;
    var w := prepared.measurements;
    if |w| == cfg.maxTrackingFrames {
      w := w[1..];
    }
    w := w + [m];
    tr := prepared.(measurements := w);
    if cfg.linearModel {
      tr := UpdateTrajectoryParameters(tr);
    } else {
      tr := UpdateTrajectoryParametersQm(tr);
    }
    if tr.unconfirmedFramesCount > 0 {
      tr := tr.(unconfirmedFramesCount := tr.unconfirmedFramesCount - 1);
    }
    tr := tr.(updated := true);
  }

  function After(trs: seq<Trajectory>, choices: seq<Option<nat>>, rest: Matching): Matching {
    Matching(trs + rest.trs, rest.taken, choices + rest.choices)
  }

  /** The tracks and choices so far, followed by what the other tracks bring, are the whole. */
  ghost predicate Halfway(cfg: Config, frame: Frame, whole: Matching, before: seq<Trajectory>, k: nat, meas: seq<Measurement>,
                          trs: seq<Trajectory>, taken: seq<bool>, choices: seq<Option<nat>>) {
    && k <= |before| && FitsDefined(cfg) && |taken| == |meas| && Stamped(meas, frame.time) && LiveBefore(cfg, before[k..], frame.time)
    && whole == After(trs, choices, MatchAll(cfg, frame, before[k..], meas, taken))
  }

  lemma StartMatching(cfg: Config, frame: Frame, before: seq<Trajectory>, meas: seq<Measurement>, taken: seq<bool>)
    requires FitsDefined(cfg) && |taken| == |meas| && Stamped(meas, frame.time) && LiveBefore(cfg, before, frame.time)
    ensures Halfway(cfg, frame, MatchAll(cfg, frame, before, meas, taken), before, 0, meas, [], taken, [])
  {
    hide MatchAll, Live;
    var whole := MatchAll(cfg, frame, before, meas, taken);
    assert before[0..] == before && [] + whole.trs == whole.trs && [] + whole.choices == whole.choices;
  }

  lemma EndMatching(cfg: Config, frame: Frame, whole: Matching, before: seq<Trajectory>, meas: seq<Measurement>,
                    trs: seq<Trajectory>, taken: seq<bool>, choices: seq<Option<nat>>)
    requires Halfway(cfg, frame, whole, before, |before|, meas, trs, taken, choices)
    ensures whole == Matching(trs, taken, choices)
  {
    hide MatchAll, Live;
    assert before[|before|..] == [];
    MatchNothing(cfg, frame, meas, taken);
    assert trs + [] == trs && choices + [] == choices;
  }

  lemma AdvanceMatching(cfg: Config, frame: Frame, whole: Matching, before: seq<Trajectory>, k: nat, meas: seq<Measurement>,
                        trs: seq<Trajectory>, taken: seq<bool>, choices: seq<Option<nat>>)
    requires Halfway(cfg, frame, whole, before, k, meas, trs, taken, choices) && k < |before| && |taken| == |meas|
    ensures Live(cfg, before[k]) && LastTime(before[k]) < frame.time
    ensures var tr, c := MatchOne(cfg, frame, before[k], meas, taken), Choice(cfg, frame, before[k], meas, taken);
            Halfway(cfg, frame, whole, before, k + 1, meas, trs + [tr], Mark(taken, c), choices + [c])
  {
    hide Live, MatchOne, Choice, MatchAll, Mark;
    assert before[k..][0] == before[k] && before[k..][1..] == before[k + 1..];
    MatchAllOne(cfg, frame, before[k..], meas, taken);
    var tr, c := MatchOne(cfg, frame, before[k], meas, taken), Choice(cfg, frame, before[k], meas, taken);
    var rest := MatchAll(cfg, frame, before[k + 1..], meas, Mark(taken, c));
    assert trs + ([tr] + rest.trs) == trs + [tr] + rest.trs;
    assert choices + ([c] + rest.choices) == choices + [c] + rest.choices;
  }

  /** Check the existing tracks. */
  method MatchTrajectories(cfg: Config, frame: Frame, trajectories: seq<Trajectory>, meas: seq<Measurement>)
    returns (trs: seq<Trajectory>, taken: seq<bool>)
    requires FitsDefined(cfg) && Stamped(meas, frame.time) && LiveBefore(cfg, trajectories, frame.time)
    ensures var whole := MatchAll(cfg, frame, trajectories, meas, AllFree(|meas|));
            trs == whole.trs && taken == whole.taken
  {
    hide Live, MatchOne, Choice, MatchAll, Mark, Halfway;
    ghost var choices: seq<Option<nat>> := [];
    trs, taken := trajectories, AllFree(|meas|);
    ghost var whole := MatchAll(cfg, frame, trajectories, meas, AllFree(|meas|));
    StartMatching(cfg, frame, trajectories, meas, taken);
    for k := 0 to |trs|
      invariant |trs| == |trajectories| && |taken| == |meas|
      invariant forall j :: k <= j < |trs| ==> trs[j] == trajectories[j]
      invariant Halfway(cfg, frame, whole, trajectories, k, meas, trs[..k], taken, choices)
    {
      AdvanceMatching(cfg, frame, whole, trajectories, k, meas, trs[..k], taken, choices);
      var tr, c := MatchTrack(cfg, frame, trs[k], meas, taken);
      assert trs[k := tr][..k + 1] == trs[..k] + [tr];
      trs := trs[k := tr];
      choices := choices + [c];
      taken := Mark(taken, c);
    }
    assert trs[..|trs|] == trs;
    EndMatching(cfg, frame, whole, trajectories, meas, trs, taken, choices);
  }

  /** One pass of the loop over the existing tracks. */
  method MatchTrack(cfg: Config, frame: Frame, trajectory: Trajectory, meas: seq<Measurement>, taken: seq<bool>)
    returns (tr: Trajectory, best: Option<nat>)
    requires FitsDefined(cfg) && |taken| == |meas| && Stamped(meas, frame.time)
    requires Live(cfg, trajectory) && LastTime(trajectory) < frame.time
    ensures tr == MatchOne(cfg, frame, trajectory, meas, taken) && best == Choice(cfg, frame, trajectory, meas, taken)
  {
    PreparedPrediction(cfg, frame, trajectory);
    hide NearestOf, Absorbed, ExtrapolatePosition, ExtrapolatePositionQm, Live, Stamped;
    tr := trajectory.(updated := false);
    var extrapolated;
    if cfg.linearModel || |tr.measurements| == 2 {
      extrapolated := ExtrapolatePosition(tr, frame.time);
      tr := tr.(strobe := cfg.strobe(true, tr, extrapolated, frame));
    } else {
      extrapolated := ExtrapolatePositionQm(tr, frame.time);
      tr := tr.(strobe := cfg.strobe(false, tr, extrapolated, frame));
    }
    assert tr == Prepared(cfg, frame, trajectory);
    best := FindTrackMatch(cfg, frame, tr, extrapolated, meas, taken);
    LiveWindow(cfg, trajectory, frame.time, meas);
    if best.Some? {
      tr := UpdateTrack(cfg, tr, meas[best.value]);
    } else {
      tr := tr.(unconfirmedFramesCount := tr.unconfirmedFramesCount + 1);
    }
  }

  lemma LiveWindow(cfg: Config, tr: Trajectory, time: int, meas: seq<Measurement>)
    requires Live(cfg, tr) && LastTime(tr) < time && Stamped(meas, time)
    ensures |tr.measurements| >= 2 && TimesIncrease(tr.measurements)
    ensures forall i :: 0 <= i < |meas| ==> LastTime(tr) < meas[i].time
  {
  }

  /** The first track into which the new one can be merged takes its points. */
  method TryMergeTrajectories(cfg: Config, to: Trajectory, from: Trajectory) returns (merged: bool, tr: Trajectory)
    requires to.measurements != [] && |from.measurements| >= 2 && TimesIncrease(from.measurements)
    ensures var last, first := to.measurements[|to.measurements| - 1], from.measurements[0];
            var speed := cfg.speed(from.fit.x.v, from.fit.y.v, from.fit.z.v);
            merged <==> !to.updated && cfg.distance(first.p, last.p) <= cfg.kDist * (speed * Seconds(last.time, first.time))
    ensures merged == CanMerge(cfg, to, from)
    ensures tr == if merged then Merged(to, from) else to
  {
    hide LinearFit, Seconds;
    tr := to;
    if to.updated {
      return false, to;
    }
    var last := to.measurements[|to.measurements| - 1];
    var distBetweenTr := cfg.distance(from.measurements[0].p, last.p);
    var deltaT := Seconds(last.time, from.measurements[0].time);
    var newTrV := cfg.speed(from.fit.x.v, from.fit.y.v, from.fit.z.v);
    var possibleDist := deltaT * newTrV;
    possibleDist := possibleDist * cfg.kDist;
    assert possibleDist == cfg.kDist * (newTrV * deltaT);
    if possibleDist < distBetweenTr {
      return false, to;
    }
    tr := tr.(updated := true);
    tr := tr.(measurements := from.measurements);
    tr := UpdateTrajectoryParameters(tr);
    tr := tr.(unconfirmedFramesCount := 0);
    merged := true;
  }

  method PlaceTrack(cfg: Config, trajectories: seq<Trajectory>, from: Trajectory) returns (trs: seq<Trajectory>)
    requires HasPoints(trajectories) && |from.measurements| >= 2 && TimesIncrease(from.measurements)
    ensures trs == Placed(cfg, trajectories, from)
  {
    hide CanMerge, Merged;
    trs := trajectories;
    var wasMerged := false;
    for k := 0 to |trs|
      invariant trs == trajectories && !wasMerged
      invariant forall j :: 0 <= j < k ==> !CanMerge(cfg, trajectories[j], from)
    {
      var tr;
      wasMerged, tr := TryMergeTrajectories(cfg, trs[k], from);
      if wasMerged {
        MergesFirst(cfg, trajectories, from, k);
        trs := trs[k := tr];
        return;
      }
    }
    trs := trs + [from.(updated := true)];
  }

  lemma MergesFirst(cfg: Config, trs: seq<Trajectory>, from: Trajectory, k: nat)
    requires HasPoints(trs) && from.measurements != [] && k < |trs| && CanMerge(cfg, trs[k], from)
    requires forall j :: 0 <= j < k ==> !CanMerge(cfg, trs[j], from)
    ensures MergeTarget(cfg, trs, from) == Some(k)
  {
    hide CanMerge;
  }

  function AfterP(ptts: seq<PTPoint>, fates: seq<Fate>, rest: Promotion): Promotion {
    rest.(ptts := ptts + rest.ptts, fates := fates + rest.fates)
  }

  /** The fates and the remaining points so far, followed by what the other pending points bring, are the whole. */
  ghost predicate Underway(cfg: Config, frame: Frame, whole: Promotion, ptts: seq<PTPoint>, k: nat, meas: seq<Measurement>,
                           remaining: seq<PTPoint>, taken: seq<bool>, trs: seq<Trajectory>, counter: nat, fates: seq<Fate>) {
    && k <= |ptts| && |taken| == |meas| && Stamped(meas, frame.time) && PttsBefore(ptts, frame.time) && HasPoints(trs)
    && whole == AfterP(remaining, fates, PromoteAll(cfg, frame, ptts[k..], meas, taken, trs, counter))
  }

  lemma StartPromotion(cfg: Config, frame: Frame, ptts: seq<PTPoint>, meas: seq<Measurement>, taken: seq<bool>,
                       trs: seq<Trajectory>, counter: nat)
    requires |taken| == |meas| && Stamped(meas, frame.time) && PttsBefore(ptts, frame.time) && HasPoints(trs)
    ensures var whole := PromoteAll(cfg, frame, ptts, meas, taken, trs, counter);
            Underway(cfg, frame, whole, ptts, 0, meas, [], taken, trs, counter, [])
  {
    hide PromoteAll;
    var whole := PromoteAll(cfg, frame, ptts, meas, taken, trs, counter);
    assert ptts[0..] == ptts && [] + whole.ptts == whole.ptts && [] + whole.fates == whole.fates;
  }

  lemma EndPromotion(cfg: Config, frame: Frame, whole: Promotion, ptts: seq<PTPoint>, meas: seq<Measurement>,
                     remaining: seq<PTPoint>, taken: seq<bool>, trs: seq<Trajectory>, counter: nat, fates: seq<Fate>)
    requires Underway(cfg, frame, whole, ptts, |ptts|, meas, remaining, taken, trs, counter, fates)
    ensures whole == Promotion(remaining, trs, taken, counter, fates)
  {
    hide PromoteAll;
    assert ptts[|ptts|..] == [];
    PromoteNothing(cfg, frame, meas, taken, trs, counter);
    assert remaining + [] == remaining && fates + [] == fates;
  }

  lemma AdvanceSome(cfg: Config, frame: Frame, whole: Promotion, ptts: seq<PTPoint>, k: nat, meas: seq<Measurement>,
                    remaining: seq<PTPoint>, taken: seq<bool>, trs: seq<Trajectory>, counter: nat, fates: seq<Fate>, i: nat)
    returns (f: Fate)
    requires Underway(cfg, frame, whole, ptts, k, meas, remaining, taken, trs, counter, fates) && k < |ptts|
    requires PttChoice(cfg, ptts[k].measurement, meas, taken) == Some(i)
    ensures i < |meas| && ptts[k].measurement.time < meas[i].time
    ensures var from := NewTrajectory(counter, frame.camIndex, ptts[k].measurement, meas[i]);
            && |from.measurements| == 2 && TimesIncrease(from.measurements)
            && Underway(cfg, frame, whole, ptts, k + 1, meas, remaining, taken[i := true], Placed(cfg, trs, from),
                        counter + 1, fates + [f])
  {
    hide PromoteAll, PttChoice, Placed, FateOf, LinearFit, HasPoints;
    var tail := ptts[k..];
    assert tail[0] == ptts[k] && tail[1..] == ptts[k + 1..];
    var from, rest := PromoteOne(cfg, frame, tail, meas, taken, trs, counter, i);
    f := FateOf(cfg, trs, from, i);
    assert fates + ([f] + rest.fates) == fates + [f] + rest.fates;
  }

  lemma AdvanceNone(cfg: Config, frame: Frame, whole: Promotion, ptts: seq<PTPoint>, k: nat, meas: seq<Measurement>,
                    remaining: seq<PTPoint>, taken: seq<bool>, trs: seq<Trajectory>, counter: nat, fates: seq<Fate>)
    returns (f: Fate)
    requires Underway(cfg, frame, whole, ptts, k, meas, remaining, taken, trs, counter, fates) && k < |ptts|
    requires PttChoice(cfg, ptts[k].measurement, meas, taken) == None
    ensures var older := ptts[k].(passedFrames := ptts[k].passedFrames + 1);
            var left := if older.passedFrames < cfg.maxPttFrames then remaining + [older] else remaining;
            Underway(cfg, frame, whole, ptts, k + 1, meas, left, taken, trs, counter, fates + [f])
  {
    hide PromoteAll, PttChoice, HasPoints;
    var tail := ptts[k..];
    assert tail[0] == ptts[k] && tail[1..] == ptts[k + 1..];
    var rest;
    f, rest := PromoteNone(cfg, frame, tail, meas, taken, trs, counter);
    var stays := if f.Aged? then [ptts[k].(passedFrames := ptts[k].passedFrames + 1)] else [];
    assert remaining + (stays + rest.ptts) == remaining + stays + rest.ptts;
    assert remaining + [] == remaining;
    assert fates + ([f] + rest.fates) == fates + [f] + rest.fates;
  }

  /** Check the pending points. */
  method PromotePtts(cfg: Config, frame: Frame, ptts: seq<PTPoint>, meas: seq<Measurement>, taken0: seq<bool>,
                     trs0: seq<Trajectory>, counter0: nat)
    returns (remaining: seq<PTPoint>, trs: seq<Trajectory>, taken: seq<bool>, counter: nat)
    requires |taken0| == |meas| && Stamped(meas, frame.time) && PttsBefore(ptts, frame.time) && HasPoints(trs0)
    ensures var whole := PromoteAll(cfg, frame, ptts, meas, taken0, trs0, counter0);
            remaining == whole.ptts && trs == whole.trs && taken == whole.taken && counter == whole.counter
  {
    hide PromoteAll, PttChoice, Placed, LinearFit, AfterP;
    ghost var fates: seq<Fate> := [];
    remaining, trs, taken, counter := [], trs0, taken0, counter0;
    ghost var whole := PromoteAll(cfg, frame, ptts, meas, taken0, trs0, counter0);
    StartPromotion(cfg, frame, ptts, meas, taken0, trs0, counter0);
    for k := 0 to |ptts|
      invariant Underway(cfg, frame, whole, ptts, k, meas, remaining, taken, trs, counter, fates)
    {
      var ptt := ptts[k];
      var best := FindPttMatch(cfg, ptt.measurement, meas, taken);
      ghost var f;
      if best.Some? {
        f := AdvanceSome(cfg, frame, whole, ptts, k, meas, remaining, taken, trs, counter, fates, best.value);
        var newTrajectory := Trajectory([ptt.measurement, meas[best.value]], counter, frame.camIndex, 0, NO_FIT, 0, false,
                                        NO_STATS, Strobe(NO_POINT, NO_POINT));
        counter := counter + 1;
        newTrajectory := UpdateTrajectoryParameters(newTrajectory);
        trs := PlaceTrack(cfg, trs, newTrajectory);
        taken := taken[best.value := true];
      } else {
        f := AdvanceNone(cfg, frame, whole, ptts, k, meas, remaining, taken, trs, counter, fates);
        ptt := ptt.(passedFrames := ptt.passedFrames + 1);
        if ptt.passedFrames < cfg.maxPttFrames {
          remaining := remaining + [ptt];
        }
      }
      fates := fates + [f];
    }
    EndPromotion(cfg, frame, whole, ptts, meas, remaining, taken, trs, counter, fates);
  }

  // ----- the tracker

  function Get<V>(m: map<int, seq<V>>, cam: int): seq<V> {
    if cam in m then m[cam] else []
  }

  /** The identities in all cameras together are distinct and were all handed out. */
  ghost predicate GlobalIds(trajectories: map<int, seq<Trajectory>>, counter: nat) {
    && (forall cam :: cam in trajectories ==> DistinctIds(trajectories[cam], counter))
    && forall c, d, j, k ::
         (c in trajectories && d in trajectories && c != d && 0 <= j < |trajectories[c]| && 0 <= k < |trajectories[d]|)
         ==> trajectories[c][j].id != trajectories[d][k].id
  }

  /** Every identity is either a new one or that of one of the tracks `before`. */
  ghost predicate IdsFrom(trs: seq<Trajectory>, before: seq<Trajectory>, counter: nat) {
    forall k :: 0 <= k < |trs| ==> trs[k].id >= counter || exists j :: 0 <= j < |before| && before[j].id == trs[k].id
  }

  /** What the tracker holds; `lastTime` is the time of the last frame of each camera. */
  datatype State = State(ptts: map<int, seq<PTPoint>>, trajectories: map<int, seq<Trajectory>>, counter: nat,
                         lastTime: map<int, int>)

  /** The invariant of the whole tracker. */
  ghost predicate Sound(cfg: Config, s: State) {
    && FitsDefined(cfg) && cfg.filterSize > 0
    && (forall cam :: cam in s.trajectories ==> cam in s.lastTime && AllLiveBy(cfg, s.trajectories[cam], s.lastTime[cam]))
    && (forall cam :: cam in s.ptts ==> cam in s.lastTime && PttsBefore(s.ptts[cam], s.lastTime[cam] + 1))
    && GlobalIds(s.trajectories, s.counter)
  }

  /** A frame can be processed when it is the camera's latest and its measurements carry its time. */
  ghost predicate Admits(s: State, frame: Frame, measurements: seq<Measurement>) {
    Stamped(measurements, frame.time) && (frame.camIndex in s.lastTime ==> s.lastTime[frame.camIndex] < frame.time)
  }

  function Surviving(cfg: Config, frame: Frame, measurements: seq<Measurement>): seq<Measurement>
    requires cfg.filterSize > 0
  {
    Filtered(measurements, frame.width, frame.height, cfg.filterSize, cfg.filterLimit)
  }

  lemma CameraReady(cfg: Config, s: State, frame: Frame, measurements: seq<Measurement>)
    requires Sound(cfg, s) && Admits(s, frame, measurements)
    ensures LiveBefore(cfg, Get(s.trajectories, frame.camIndex), frame.time)
    ensures PttsBefore(Get(s.ptts, frame.camIndex), frame.time)
    ensures DistinctIds(Get(s.trajectories, frame.camIndex), s.counter)
  {
    hide Fitted;
    var trs := Get(s.trajectories, frame.camIndex);
    forall k | 0 <= k < |trs| ensures Live(cfg, trs[k]) && LastTime(trs[k]) < frame.time {
      assert LiveBy(cfg, trs[k], s.lastTime[frame.camIndex]);
    }
  }

  lemma FrameReady(cfg: Config, s: State, frame: Frame, measurements: seq<Measurement>)
    requires Sound(cfg, s) && Admits(s, frame, measurements)
    ensures Outcomes(cfg, frame, Get(s.trajectories, frame.camIndex), Get(s.ptts, frame.camIndex),
                     Surviving(cfg, frame, measurements))
    ensures DistinctIds(Get(s.trajectories, frame.camIndex), s.counter)
  {
    CameraReady(cfg, s, frame, measurements);
    FilteredStamped(frame, measurements, cfg);
    hide MatchAll, PromoteAll, Filtered, Live;
    var trs := Get(s.trajectories, frame.camIndex);
    FrameKeeps(cfg, frame, trs, Get(s.ptts, frame.camIndex), Surviving(cfg, frame, measurements), s.counter);
  }

  /** All that process_frame brings about for the camera of the frame. */
  ghost function Processed(cfg: Config, s: State, frame: Frame, measurements: seq<Measurement>): Outcome
    requires Sound(cfg, s) && Admits(s, frame, measurements)
  {
    FrameReady(cfg, s, frame, measurements);
    FrameOutcome(cfg, frame, Get(s.trajectories, frame.camIndex), Get(s.ptts, frame.camIndex),
                 Surviving(cfg, frame, measurements), s.counter)
  }

  /** The state after a frame. */
  ghost function Next(cfg: Config, s: State, frame: Frame, measurements: seq<Measurement>): State
    requires Sound(cfg, s) && Admits(s, frame, measurements)
  {
    var o := Processed(cfg, s, frame, measurements);
    State(s.ptts[frame.camIndex := o.ptts], s.trajectories[frame.camIndex := o.trajectories], o.promotion.counter,
          s.lastTime[frame.camIndex := frame.time])
  }

  /** The parts of the next state, in terms of the lists of the camera. */
  lemma NextParts(cfg: Config, s: State, frame: Frame, measurements: seq<Measurement>)
    requires Sound(cfg, s) && Admits(s, frame, measurements)
    ensures var cam := frame.camIndex;
            var trs, points, meas := Get(s.trajectories, cam), Get(s.ptts, cam), Surviving(cfg, frame, measurements);
            && Outcomes(cfg, frame, trs, points, meas)
            && var o := FrameOutcome(cfg, frame, trs, points, meas, s.counter);
               && Processed(cfg, s, frame, measurements) == o
               && Next(cfg, s, frame, measurements)
                  == State(s.ptts[cam := o.ptts], s.trajectories[cam := o.trajectories], o.promotion.counter,
                           s.lastTime[cam := frame.time])
  {
    FrameReady(cfg, s, frame, measurements);
    hide Sound, Admits, FrameOutcome, Outcomes, Surviving;
  }

  lemma NextIs(cfg: Config, s: State, frame: Frame, measurements: seq<Measurement>)
    requires Sound(cfg, s) && Admits(s, frame, measurements)
    ensures var o := Processed(cfg, s, frame, measurements);
            Next(cfg, s, frame, measurements)
            == State(s.ptts[frame.camIndex := o.ptts], s.trajectories[frame.camIndex := o.trajectories], o.promotion.counter,
                     s.lastTime[frame.camIndex := frame.time])
  {
    hide Processed, Sound, Admits;
  }

  /** A frame keeps the invariant; identities are either those of the camera's tracks or new ones. */
  lemma NextSound(cfg: Config, s: State, frame: Frame, measurements: seq<Measurement>)
    requires Sound(cfg, s) && Admits(s, frame, measurements)
    ensures var t := Next(cfg, s, frame, measurements);
            && Sound(cfg, t) && t.counter >= s.counter
            && IdsFrom(Get(t.trajectories, frame.camIndex), Get(s.trajectories, frame.camIndex), s.counter)
  {
    NextParts(cfg, s, frame, measurements);
    CameraReady(cfg, s, frame, measurements);
    FilteredStamped(frame, measurements, cfg);
    var cam, trs := frame.camIndex, Get(s.trajectories, frame.camIndex);
    var meas, o := Surviving(cfg, frame, measurements), Processed(cfg, s, frame, measurements);
    assert FitsDefined(cfg) && Stamped(meas, frame.time);
    hide Next, Processed, FrameOutcome, Outcomes, AllLiveBy, PttsBefore, IdsFrom, DistinctIds, LiveBefore, Stamped, Surviving;
    hide Sound, Admits, FitsDefined;
    FrameKeeps(cfg, frame, trs, Get(s.ptts, cam), meas, s.counter);
    SoundAfter(cfg, s, cam, o.ptts, o.trajectories, o.promotion.counter, frame.time);
  }

  lemma SoundAfter(cfg: Config, s: State, cam: int, camPtts: seq<PTPoint>, kept: seq<Trajectory>, counter: nat, time: int)
    requires Sound(cfg, s) && s.counter <= counter
    requires AllLiveBy(cfg, kept, time) && PttsBefore(camPtts, time + 1) && DistinctIds(kept, counter)
    requires IdsFrom(kept, Get(s.trajectories, cam), s.counter)
    ensures Sound(cfg, State(s.ptts[cam := camPtts], s.trajectories[cam := kept], counter, s.lastTime[cam := time]))
    ensures Get(s.trajectories[cam := kept], cam) == kept
  {
    hide AllLiveBy, PttsBefore, GlobalIds, IdsFrom, DistinctIds;
    GlobalIdsKept(s.trajectories, cam, kept, s.counter, counter);
  }

  /** The filter and the stages of a frame, on the lists of its camera. */
  method ProcessCamera(cfg: Config, ghost s: State, frame: Frame, measurements: seq<Measurement>,
                       trs: seq<Trajectory>, points: seq<PTPoint>, counter0: nat)
    returns (camPtts: seq<PTPoint>, kept: seq<Trajectory>, counter: nat, newIds: seq<nat>, updatedIds: seq<nat>,
             droppedIds: seq<nat>)
    requires Sound(cfg, s) && Admits(s, frame, measurements)
    requires trs == Get(s.trajectories, frame.camIndex) && points == Get(s.ptts, frame.camIndex) && counter0 == s.counter
    ensures var o := Processed(cfg, s, frame, measurements);
            && camPtts == o.ptts && kept == o.trajectories && counter == o.promotion.counter
            && newIds == o.newIds && updatedIds == o.updatedIds && droppedIds == o.droppedIds
  {
    NextParts(cfg, s, frame, measurements);
    assert cfg.filterSize > 0;
    hide Sound, Admits, FrameOutcome, Outcomes, Filtered, Next, Processed, Get;
    var meas := FilterNoisyRegions(frame.width, frame.height, cfg.filterSize, cfg.filterLimit, measurements);
    camPtts, kept, counter, newIds, updatedIds, droppedIds := RunFrame(cfg, frame, trs, points, meas, counter0);
  }

  class StrobeMethod {
    const cfg: Config
    var ptts: map<int, seq<PTPoint>>
    var trajectories: map<int, seq<Trajectory>>
    var trajectoriesCounter: nat
    var newTracksId: seq<nat>
    var updatedTracksId: seq<nat>
    var droppedTracksId: seq<nat>
    ghost var lastTime: map<int, int>

    ghost function Contents(): State
      reads this
    {
      State(ptts, trajectories, trajectoriesCounter, lastTime)
    }

    ghost predicate Valid()
      reads this
    {
      Sound(cfg, Contents())
    }

    constructor (cfg: Config)
      ensures this.cfg == cfg && Contents() == State(map[], map[], 0, map[])
      ensures Valid() <==> FitsDefined(cfg) && cfg.filterSize > 0
    {
      this.cfg := cfg;
      ptts, trajectories, trajectoriesCounter := map[], map[], 0;
      newTracksId, updatedTracksId, droppedTracksId := [], [], [];
      lastTime := map[];
    }

    method ProcessFrame(frame: Frame, measurements: seq<Measurement>) returns (shown: seq<Trajectory>)
      requires Valid() && Admits(Contents(), frame, measurements)
      modifies this
      ensures Valid() && Contents() == Next(cfg, old(Contents()), frame, measurements)
      ensures var o := Processed(cfg, old(Contents()), frame, measurements);
              && newTracksId == o.newIds && updatedTracksId == o.updatedIds && droppedTracksId == o.droppedIds
              && shown == Presented(cfg, o.trajectories)
    {
      ghost var before := Contents();
      NextSound(cfg, before, frame, measurements);
      NextIs(cfg, before, frame, measurements);
      newTracksId, updatedTracksId, droppedTracksId := [], [], [];
      var trs, points := Get(trajectories, frame.camIndex), Get(ptts, frame.camIndex);
      assert Contents() == before && trs == Get(before.trajectories, frame.camIndex) && points == Get(before.ptts, frame.camIndex);
      hide *;
      var camPtts, kept, counter, newIds, updatedIds, droppedIds :=
        ProcessCamera(cfg, before, frame, measurements, trs, points, trajectoriesCounter);
      Install(frame, camPtts, kept, counter, newIds, updatedIds, droppedIds);
      shown := Presented(cfg, kept);
    }

    /** The lists of the camera, the counter and the notifications after a frame. */
    method Install(frame: Frame, camPtts: seq<PTPoint>, kept: seq<Trajectory>, counter: nat,
                   newIds: seq<nat>, updatedIds: seq<nat>, droppedIds: seq<nat>)
      requires Sound(cfg, State(ptts[frame.camIndex := camPtts], trajectories[frame.camIndex := kept], counter,
                                lastTime[frame.camIndex := frame.time]))
      modifies this
      ensures Valid()
      ensures Contents() == State(old(ptts)[frame.camIndex := camPtts], old(trajectories)[frame.camIndex := kept], counter,
                                  old(lastTime)[frame.camIndex := frame.time])
      ensures newTracksId == newIds && updatedTracksId == updatedIds && droppedTracksId == droppedIds
    {
      newTracksId, updatedTracksId, droppedTracksId := newIds, updatedIds, droppedIds;
      ptts, trajectories := ptts[frame.camIndex := camPtts], trajectories[frame.camIndex := kept];
      trajectoriesCounter := counter;
      lastTime := lastTime[frame.camIndex := frame.time];
    }
  }

  /** The stages of a frame, on the lists of its camera. */
  method RunFrame(cfg: Config, frame: Frame, trs: seq<Trajectory>, points: seq<PTPoint>, meas: seq<Measurement>, counter0: nat)
    returns (camPtts: seq<PTPoint>, kept: seq<Trajectory>, counter: nat, newIds: seq<nat>, updatedIds: seq<nat>,
             droppedIds: seq<nat>)
    requires Outcomes(cfg, frame, trs, points, meas)
    ensures var o := FrameOutcome(cfg, frame, trs, points, meas, counter0);
            && camPtts == o.ptts && kept == o.trajectories && counter == o.promotion.counter
            && newIds == o.newIds && updatedIds == o.updatedIds && droppedIds == o.droppedIds
  {
    hide MatchAll, PromoteAll, Live, Kept, DroppedIds, UpdatedIds, Stamped, PttsBefore, NewPtts;
    var taken, remaining, camTrajectories;
    camTrajectories, taken := MatchTrajectories(cfg, frame, trs, meas);
    remaining, camTrajectories, taken, counter :=
      PromotePtts(cfg, frame, points, meas, taken, camTrajectories, counter0);
    camPtts := AddRemaining(remaining, meas, taken);
    camTrajectories := WithStatistics(cfg, camTrajectories);
    kept, droppedIds := DropTrajectories(cfg, camTrajectories);
    newIds, updatedIds := ResolveTracksMutation(kept);
  }

  /** The filter only returns measurements that it was given. */
  lemma FilteredStamped(frame: Frame, measurements: seq<Measurement>, cfg: Config)
    requires Stamped(measurements, frame.time) && cfg.filterSize > 0
    ensures Stamped(Filtered(measurements, frame.width, frame.height, cfg.filterSize, cfg.filterLimit), frame.time)
  {
    var p := m => Survives(measurements, m, frame.width, frame.height, cfg.filterSize, cfg.filterLimit);
    var meas := Filtered(measurements, frame.width, frame.height, cfg.filterSize, cfg.filterLimit);
    FilterMeaning(measurements, frame.width, frame.height, cfg.filterSize, cfg.filterLimit);
    hide Filtered, Survives;
    PickMembers(measurements, p);
    forall i | 0 <= i < |meas| ensures meas[i].time == frame.time {
      assert meas[i] in multiset(meas);
      assert meas[i] in Pick(measurements, p);
    }
  }

  lemma {:induction false} PickMembers(all: seq<Measurement>, p: Measurement -> bool)
    ensures forall m :: m in Pick(all, p) ==> m in all
  {
    if all != [] {
      PickMembers(all[..|all| - 1], p);
    }
  }

  /** What a frame leaves behind: live tracks, pending points up to its time, fresh identities. */
  lemma FrameKeeps(cfg: Config, frame: Frame, trs: seq<Trajectory>, ptts: seq<PTPoint>, meas: seq<Measurement>, counter: nat)
    requires FitsDefined(cfg) && Stamped(meas, frame.time) && LiveBefore(cfg, trs, frame.time) && PttsBefore(ptts, frame.time)
    requires DistinctIds(trs, counter)
    ensures Outcomes(cfg, frame, trs, ptts, meas)
    ensures var o := FrameOutcome(cfg, frame, trs, ptts, meas, counter);
            && AllLiveBy(cfg, o.trajectories, frame.time) && PttsBefore(o.ptts, frame.time + 1)
            && o.promotion.counter >= counter && DistinctIds(o.trajectories, o.promotion.counter)
            && IdsFrom(o.trajectories, trs, counter)
  {
    hide MatchAll, PromoteAll, Live, MatchesRequirements;
    var a := MatchAll(cfg, frame, trs, meas, AllFree(|meas|));
    MatchAllLive(cfg, frame, trs, meas, AllFree(|meas|));
    LiveHasPoints(cfg, a.trs, frame.time);
    var b := PromoteAll(cfg, frame, ptts, meas, a.taken, a.trs, counter);
    PromoteAllLive(cfg, frame, ptts, meas, a.taken, a.trs, counter);
    PromoteAllIds(cfg, frame, ptts, meas, a.taken, a.trs, counter);
    var all := WithStatistics(cfg, b.trs);
    StatisticsLive(cfg, b.trs, frame.time);
    KeptMembers(cfg, all, b.counter);
    hide Kept, NewPtts, Stamped;
    var kept := Kept(cfg, all);
    forall k | 0 <= k < |kept|
      ensures LiveBy(cfg, kept[k], frame.time)
      ensures kept[k].id >= counter || exists j :: 0 <= j < |trs| && trs[j].id == kept[k].id
    {
      var i :| 0 <= i < |all| && all[i] == kept[k];
      if i < |a.trs| {
        assert trs[i].id == kept[k].id;
      }
    }
    NewPttsBy(frame, meas, b.taken, b.ptts);
  }

  lemma NewPttsBy(frame: Frame, meas: seq<Measurement>, taken: seq<bool>, ptts: seq<PTPoint>)
    requires |taken| == |meas| && Stamped(meas, frame.time) && PttsBefore(ptts, frame.time)
    ensures PttsBefore(ptts + NewPtts(meas, taken), frame.time + 1)
  {
  }

  lemma LiveHasPoints(cfg: Config, trs: seq<Trajectory>, time: int)
    requires AllLiveBy(cfg, trs, time)
    ensures HasPoints(trs)
  {
    forall k | 0 <= k < |trs| ensures trs[k].measurements != [] {
      assert LiveBy(cfg, trs[k], time);
    }
  }

  lemma StatisticsLive(cfg: Config, trs: seq<Trajectory>, time: int)
    requires AllLiveBy(cfg, trs, time)
    ensures AllLiveBy(cfg, WithStatistics(cfg, trs), time)
  {
    hide Fitted;
    var r := WithStatistics(cfg, trs);
    forall k | 0 <= k < |r| ensures LiveBy(cfg, r[k], time) {
      assert LiveBy(cfg, trs[k], time);
      FittedStats(cfg, trs[k], r[k].stats);
    }
  }

  lemma FittedStats(cfg: Config, tr: Trajectory, stats: Stats)
    ensures Fitted(cfg, tr.(stats := stats)) == Fitted(cfg, tr)
  {
    hide BestLines, BestParabolas;
  }

  lemma GlobalIdsKept(trajectories: map<int, seq<Trajectory>>, cam: int, kept: seq<Trajectory>, counter: nat, counter': nat)
    requires GlobalIds(trajectories, counter) && counter <= counter' && DistinctIds(kept, counter')
    requires IdsFrom(kept, Get(trajectories, cam), counter)
    ensures GlobalIds(trajectories[cam := kept], counter')
  {
  }

  method AddRemaining(remaining: seq<PTPoint>, meas: seq<Measurement>, taken: seq<bool>) returns (camPtts: seq<PTPoint>)
    requires |taken| == |meas|
    ensures camPtts == remaining + NewPtts(meas, taken)
  {
    camPtts := remaining;
    for i := 0 to |meas|
      invariant camPtts == remaining + NewPtts(meas[..i], taken[..i])
    {
      assert taken[..i + 1][..i] == taken[..i];
      if !taken[i] {
        camPtts := camPtts + [PTPoint(meas[i], 1)];
      }
      assert Unassigned(taken[..i + 1]) == Unassigned(taken[..i]) + (if taken[i] then [] else [i]);
      assert NewPtts(meas[..i + 1], taken[..i + 1])
             == NewPtts(meas[..i], taken[..i]) + (if taken[i] then [] else [PTPoint(meas[i], 1)]);
    }
    assert meas[..|meas|] == meas && taken[..|meas|] == taken;
  }

  method DropTrajectories(cfg: Config, trajectories: seq<Trajectory>) returns (kept: seq<Trajectory>, dropped: seq<nat>)
    ensures kept == Kept(cfg, trajectories) && dropped == DroppedIds(cfg, trajectories)
  {
    hide MatchesRequirements;
    kept, dropped := [], [];
    for k := 0 to |trajectories|
      invariant kept == Kept(cfg, trajectories[..k]) && dropped == DroppedIds(cfg, trajectories[..k])
    {
      assert trajectories[..k + 1][..k] == trajectories[..k];
      if !MatchesRequirements(cfg, trajectories[k], true) {
        dropped := dropped + [trajectories[k].id];
      } else {
        kept := kept + [trajectories[k]];
      }
    }
    assert trajectories[..|trajectories|] == trajectories;
  }

  method ResolveTracksMutation(trajectories: seq<Trajectory>) returns (newIds: seq<nat>, updatedIds: seq<nat>)
    ensures newIds == UpdatedIds(trajectories, true) && updatedIds == UpdatedIds(trajectories, false)
  {
    newIds, updatedIds := [], [];
    for k := 0 to |trajectories|
      invariant newIds == UpdatedIds(trajectories[..k], true) && updatedIds == UpdatedIds(trajectories[..k], false)
    {
      assert trajectories[..k + 1][..k] == trajectories[..k];
      if trajectories[k].updated {
        if |trajectories[k].measurements| == 2 {
          newIds := newIds + [trajectories[k].id];
        } else {
          updatedIds := updatedIds + [trajectories[k].id];
        }
      }
    }
    assert trajectories[..|trajectories|] == trajectories;
  }

  const NO_FIT := Fit(Parabola(0.0, 0.0, 0.0), Parabola(0.0, 0.0, 0.0), Parabola(0.0, 0.0, 0.0))
  const NO_STATS := Stats(0.0, 0.0, 0.0, 0.0, 0.0, 0.0)
}
