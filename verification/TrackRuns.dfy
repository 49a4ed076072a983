/** Whole runs of the tracker: any number of frames, of any cameras, in any interleaving. */
module TrackRuns {
  import opened LeastSquares
  import opened Nearest
  import opened TrackFit
  import opened TrackSpec
  import opened TrackTheorems
  import opened TrackTypes
  import opened Tracker

  datatype Input = Input(frame: Frame, measurements: seq<Measurement>)

  const START := State(map[], map[], 0, map[])

  /** The frames of each camera come in the order of their times, and measurements carry the time of their frame. */
  ghost predicate InOrder(lastTime: map<int, int>, inputs: seq<Input>)
    decreases |inputs|
  {
    inputs == [] ||
    (var f := inputs[0].frame;
     && Stamped(inputs[0].measurements, f.time)
     && (f.camIndex in lastTime ==> lastTime[f.camIndex] < f.time)
     && InOrder(lastTime[f.camIndex := f.time], inputs[1..]))
  }

  ghost function Run(cfg: Config, s: State, inputs: seq<Input>): State
    requires Sound(cfg, s) && InOrder(s.lastTime, inputs)
    decreases |inputs|
  {
    if inputs == [] then s
    else
      NextSound(cfg, s, inputs[0].frame, inputs[0].measurements);
      Run(cfg, Next(cfg, s, inputs[0].frame, inputs[0].measurements), inputs[1..])
  }

  lemma {:induction false} RunSound(cfg: Config, s: State, inputs: seq<Input>)
    requires Sound(cfg, s) && InOrder(s.lastTime, inputs)
    ensures Sound(cfg, Run(cfg, s, inputs)) && Run(cfg, s, inputs).counter >= s.counter
    decreases |inputs|
  {
    if inputs != [] {
      NextSound(cfg, s, inputs[0].frame, inputs[0].measurements);
      hide Sound, Next, Stamped;
      RunSound(cfg, Next(cfg, s, inputs[0].frame, inputs[0].measurements), inputs[1..]);
    }
  }

  /** What the tracker holds after its first frames. */
  ghost function History(cfg: Config, inputs: seq<Input>): State
    requires FitsDefined(cfg) && cfg.filterSize > 0 && InOrder(map[], inputs)
  {
    StartSound(cfg);
    Run(cfg, START, inputs)
  }

  lemma StartSound(cfg: Config)
    requires FitsDefined(cfg) && cfg.filterSize > 0
    ensures Sound(cfg, START)
  {
  }

  /** In every run, every track has a window of at least two points with increasing times that starts at its `time0` and,
      for a limit of at least 2, is within it; its linear denominator is positive, its quadratic one negative from three
      points on; and it has the coefficients of the best line or parabola through its points. */
  lemma EveryTrackIsLive(cfg: Config, inputs: seq<Input>, cam: int, k: nat)
    requires FitsDefined(cfg) && cfg.filterSize > 0 && InOrder(map[], inputs)
    requires cam in History(cfg, inputs).trajectories && k < |History(cfg, inputs).trajectories[cam]|
    ensures var tr := History(cfg, inputs).trajectories[cam][k];
            && Live(cfg, tr)
            && var m := MomentsOf(TimesOf(tr.measurements, tr.time0));
               && LinearDenominator(m) > 0.0
               && (if |tr.measurements| >= 3 then QuadraticDenominator(m) < 0.0 else QuadraticDenominator(m) == 0.0)
  {
    StartSound(cfg);
    RunSound(cfg, START, inputs);
    var s := History(cfg, inputs);
    hide Run, Fitted, MomentsOf, LinearDenominator, QuadraticDenominator;
    assert LiveBy(cfg, s.trajectories[cam][k], s.lastTime[cam]);
    var w := s.trajectories[cam][k].measurements;
    hide Live;
    TimesOfIncrease(w, w[0].time);
    LinearDenominatorPositive(TimesOf(w, w[0].time));
    QuadraticDenominatorNegative(TimesOf(w, w[0].time));
  }

  // ----- identities

  /** No track of any camera has this identity. */
  ghost predicate Gone(trajectories: map<int, seq<Trajectory>>, id: nat) {
    forall cam, k :: cam in trajectories && 0 <= k < |trajectories[cam]| ==> trajectories[cam][k].id != id
  }

  /** An identity that was handed out before and belongs to no track stays gone. */
  lemma {:induction false} GoneForGood(cfg: Config, s: State, inputs: seq<Input>, id: nat)
    requires Sound(cfg, s) && InOrder(s.lastTime, inputs) && id < s.counter && Gone(s.trajectories, id)
    ensures Gone(Run(cfg, s, inputs).trajectories, id)
    decreases |inputs|
  {
    if inputs != [] {
      var f, ms := inputs[0].frame, inputs[0].measurements;
      NextSound(cfg, s, f, ms);
      var t := Next(cfg, s, f, ms);
      GoneAfter(s.trajectories, f.camIndex, t.trajectories[f.camIndex], s.counter, id);
      hide Sound, Processed, Stamped, Gone;
      GoneForGood(cfg, t, inputs[1..], id);
    }
  }

  lemma GoneAfter(trajectories: map<int, seq<Trajectory>>, cam: int, kept: seq<Trajectory>, counter: nat, id: nat)
    requires Gone(trajectories, id) && id < counter && IdsFrom(kept, Get(trajectories, cam), counter)
    ensures Gone(trajectories[cam := kept], id)
  {
  }

  /** A dropped track was there, and none of the kept tracks has its identity. */
  lemma {:induction false} DroppedApart(cfg: Config, trs: seq<Trajectory>, counter: nat, id: nat)
    requires DistinctIds(trs, counter) && id in DroppedIds(cfg, trs)
    ensures exists j :: 0 <= j < |trs| && trs[j].id == id
    ensures forall k :: 0 <= k < |Kept(cfg, trs)| ==> Kept(cfg, trs)[k].id != id
  {
    hide MatchesRequirements;
    var n := |trs| - 1;
    KeptMembers(cfg, trs[..n], counter);
    if id in DroppedIds(cfg, trs[..n]) {
      DroppedApart(cfg, trs[..n], counter, id);
      var j :| 0 <= j < n && trs[..n][j].id == id;
      assert trs[j].id == id;
    }
  }

  /** What a frame reports as dropped has left the camera, and was one of its tracks or new in this frame. */
  lemma FrameDrops(cfg: Config, frame: Frame, trs: seq<Trajectory>, ptts: seq<PTPoint>, meas: seq<Measurement>, counter: nat,
                   id: nat)
    requires FitsDefined(cfg) && Stamped(meas, frame.time) && LiveBefore(cfg, trs, frame.time) && PttsBefore(ptts, frame.time)
    requires DistinctIds(trs, counter) && Outcomes(cfg, frame, trs, ptts, meas)
    requires id in FrameOutcome(cfg, frame, trs, ptts, meas, counter).droppedIds
    ensures var o := FrameOutcome(cfg, frame, trs, ptts, meas, counter);
            && id < o.promotion.counter && (forall k :: 0 <= k < |o.trajectories| ==> o.trajectories[k].id != id)
            && (id >= counter || exists j :: 0 <= j < |trs| && trs[j].id == id)
  {
    hide MatchAll, PromoteAll, Live, MatchesRequirements, LiveBefore, Stamped, PttsBefore;
    var a := MatchAll(cfg, frame, trs, meas, AllFree(|meas|));
    MatchAllLive(cfg, frame, trs, meas, AllFree(|meas|));
    LiveHasPoints(cfg, a.trs, frame.time);
    hide AllLiveBy;
    var b := PromoteAll(cfg, frame, ptts, meas, a.taken, a.trs, counter);
    PromoteAllIds(cfg, frame, ptts, meas, a.taken, a.trs, counter);
    var all := WithStatistics(cfg, b.trs);
    DroppedApart(cfg, all, b.counter, id);
    hide Kept, DroppedIds, NewPtts;
    var i :| 0 <= i < |all| && all[i].id == id;
    if i < |a.trs| {
      assert trs[i].id == id;
    }
  }

  /** Once a track is reported as dropped, its identity never shows up again in any camera. */
  lemma DroppedForGood(cfg: Config, s: State, frame: Frame, measurements: seq<Measurement>, later: seq<Input>, id: nat)
    requires Sound(cfg, s) && Admits(s, frame, measurements)
    requires InOrder(s.lastTime[frame.camIndex := frame.time], later)
    requires id in Processed(cfg, s, frame, measurements).droppedIds
    ensures Sound(cfg, Next(cfg, s, frame, measurements))
    ensures Gone(Run(cfg, Next(cfg, s, frame, measurements), later).trajectories, id)
  {
    NextSound(cfg, s, frame, measurements);
    NextParts(cfg, s, frame, measurements);
    CameraReady(cfg, s, frame, measurements);
    FilteredStamped(frame, measurements, cfg);
    var t, cam := Next(cfg, s, frame, measurements), frame.camIndex;
    var trs, meas := Get(s.trajectories, cam), Surviving(cfg, frame, measurements);
    assert Stamped(meas, frame.time) && GlobalIds(s.trajectories, s.counter) && FitsDefined(cfg);
    hide Sound, Admits, Next, Processed, FrameOutcome, Outcomes, Surviving, Stamped, LiveBefore, PttsBefore, DistinctIds, Run;
    FrameDrops(cfg, frame, trs, Get(s.ptts, cam), meas, s.counter, id);
    DroppedHere(s.trajectories, cam, t.trajectories[cam], s.counter, id);
    GoneForGood(cfg, t, later, id);
  }

  lemma DroppedHere(trajectories: map<int, seq<Trajectory>>, cam: int, kept: seq<Trajectory>, counter: nat, id: nat)
    requires GlobalIds(trajectories, counter) && (forall k :: 0 <= k < |kept| ==> kept[k].id != id)
    requires id >= counter || exists j :: 0 <= j < |Get(trajectories, cam)| && Get(trajectories, cam)[j].id == id
    ensures Gone(trajectories[cam := kept], id)
  {
  }
}
