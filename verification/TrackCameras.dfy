/** Several cameras (datapro2/src/datapro2.cpp): every track belongs to the camera that saw it, and is shown for no
    other. */
module TrackCameras {
  import opened Options
  import opened Sequences
  import opened TrackFit
  import opened TrackLives
  import opened TrackReports
  import opened TrackRuns
  import opened TrackSpec
  import opened TrackTheorems
  import opened TrackTypes
  import opened Tracker

  /** Every track carries the index of the camera whose list it is in. */
  ghost predicate OwnTracks(trajectories: map<int, seq<Trajectory>>) {
    forall cam, k :: cam in trajectories && 0 <= k < |trajectories[cam]| ==> trajectories[cam][k].camIndex == cam
  }

  ghost predicate AllOf(trs: seq<Trajectory>, cam: int) {
    forall k :: 0 <= k < |trs| ==> trs[k].camIndex == cam
  }

  lemma OutcomeCamera(cfg: Config, frame: Frame, trs: seq<Trajectory>, ptts: seq<PTPoint>, meas: seq<Measurement>, counter: nat)
    requires Outcomes(cfg, frame, trs, ptts, meas) && DistinctIds(trs, counter) && AllOf(trs, frame.camIndex)
    ensures AllOf(FrameOutcome(cfg, frame, trs, ptts, meas, counter).trajectories, frame.camIndex)
  {
    OutcomeParts(cfg, frame, trs, ptts, meas, counter);
    var o := FrameOutcome(cfg, frame, trs, ptts, meas, counter);
    hide FrameOutcome, Outcomes, MatchAll, PromoteAll, DistinctIds, Kept, EventOf, LiveBefore, Stamped, PttsBefore, HasPoints;
    forall k: nat | k < |o.promotion.trs| ensures o.promotion.trs[k].camIndex == frame.camIndex {
      EveryTrackFollows(cfg, frame, trs, ptts, meas, counter, k);
    }
    var at := KeptInOrder(cfg, WithStatistics(cfg, o.promotion.trs));
  }

  lemma NextOwn(cfg: Config, s: State, i: Input)
    requires Sound(cfg, s) && Admits(s, i.frame, i.measurements) && OwnTracks(s.trajectories)
    ensures OwnTracks(Next(cfg, s, i.frame, i.measurements).trajectories)
  {
    NextParts(cfg, s, i.frame, i.measurements);
    FrameReady(cfg, s, i.frame, i.measurements);
    var cam := i.frame.camIndex;
    var trs, meas := Get(s.trajectories, cam), Surviving(cfg, i.frame, i.measurements);
    assert AllOf(trs, cam);
    hide FrameOutcome, Outcomes, Surviving, Next, Processed, Sound, Admits, DistinctIds, Get;
    OutcomeCamera(cfg, i.frame, trs, Get(s.ptts, cam), meas, s.counter);
  }

  lemma {:induction false} RunOwn(cfg: Config, s: State, inputs: seq<Input>)
    requires Sound(cfg, s) && InOrder(s.lastTime, inputs) && OwnTracks(s.trajectories)
    ensures OwnTracks(Run(cfg, s, inputs).trajectories)
    decreases |inputs|
  {
    if inputs != [] {
      var i := inputs[0];
      NextSound(cfg, s, i.frame, i.measurements);
      NextOwn(cfg, s, i);
      hide Sound, Next, OwnTracks, IdsFrom;
      RunOwn(cfg, Next(cfg, s, i.frame, i.measurements), inputs[1..]);
    }
  }

  // ----- what is shown for one camera

  /** get_presented_trajectories without an index: the shown tracks of these cameras, one camera after the other. */
  function PresentedOfAll(cfg: Config, trajectories: map<int, seq<Trajectory>>, cams: seq<int>): seq<Trajectory> {
    if cams == [] then [] else Presented(cfg, Get(trajectories, cams[0])) + PresentedOfAll(cfg, trajectories, cams[1..])
  }

  function Own(tr: Trajectory, cam: int): seq<Trajectory> {
    if tr.camIndex == cam then [tr] else []
  }

  /** get_presented_trajectories for one camera selects from these by the index that each track carries. */
  function OfCamera(trs: seq<Trajectory>, cam: int): seq<Trajectory> {
    if trs == [] then [] else Own(trs[0], cam) + OfCamera(trs[1..], cam)
  }

  lemma OfCameraCons(tr: Trajectory, rest: seq<Trajectory>, cam: int)
    ensures OfCamera([tr] + rest, cam) == Own(tr, cam) + OfCamera(rest, cam)
  {
    assert ([tr] + rest)[1..] == rest;
  }

  lemma {:induction false} OfCameraAppend(s: seq<Trajectory>, t: seq<Trajectory>, cam: int)
    ensures OfCamera(s + t, cam) == OfCamera(s, cam) + OfCamera(t, cam)
  {
    hide OfCamera, Own;
    if s == [] {
      assert s + t == t;
      OfCameraNone(cam);
      assert [] + OfCamera(t, cam) == OfCamera(t, cam);
    } else {
      OfCameraAppend(s[1..], t, cam);
      Assoc([s[0]], s[1..], t);
      assert [s[0]] + s[1..] == s;
      OfCameraCons(s[0], s[1..], cam);
      OfCameraCons(s[0], s[1..] + t, cam);
      Assoc(Own(s[0], cam), OfCamera(s[1..], cam), OfCamera(t, cam));
    }
  }

  lemma OfCameraNone(cam: int)
    ensures OfCamera([], cam) == []
  {
  }

  lemma {:induction false} OfOneCamera(trs: seq<Trajectory>, own: int, cam: int)
    requires AllOf(trs, own)
    ensures OfCamera(trs, cam) == if own == cam then trs else []
  {
    if trs != [] {
      OfOneCamera(trs[1..], own, cam);
    }
  }

  lemma PresentedOwn(cfg: Config, trajectories: map<int, seq<Trajectory>>, cam: int)
    requires OwnTracks(trajectories)
    ensures AllOf(Presented(cfg, Get(trajectories, cam)), cam)
  {
    hide Presented;
    var trs := Get(trajectories, cam);
    assert AllOf(trs, cam);
    var at := ShownInOrder(cfg, trs);
  }

  /** Whatever the order of the cameras in the map: when every track carries the index of its own camera, selecting the
      tracks of one camera from those of all is the same as looking at its own list. */
  lemma {:induction false} ShownFromAllCameras(cfg: Config, trajectories: map<int, seq<Trajectory>>, cams: seq<int>, cam: int)
    requires OwnTracks(trajectories) && forall i, j :: 0 <= i < j < |cams| ==> cams[i] != cams[j]
    ensures OfCamera(PresentedOfAll(cfg, trajectories, cams), cam)
            == if cam in cams then Presented(cfg, Get(trajectories, cam)) else []
  {
    if cams != [] {
      hide Presented, Get, OwnTracks;
      var first, rest := Presented(cfg, Get(trajectories, cams[0])), PresentedOfAll(cfg, trajectories, cams[1..]);
      PresentedOwn(cfg, trajectories, cams[0]);
      ShownFromAllCameras(cfg, trajectories, cams[1..], cam);
      OfCameraAppend(first, rest, cam);
      OfOneCamera(first, cams[0], cam);
      assert first + [] == first && [] + OfCamera(rest, cam) == OfCamera(rest, cam);
    }
  }

  /** In every run, what is shown for a camera is what its own list shows. */
  lemma EveryCameraShowsItsOwn(cfg: Config, inputs: seq<Input>, cams: seq<int>, cam: int)
    requires FitsDefined(cfg) && cfg.filterSize > 0 && InOrder(map[], inputs)
    requires (forall i, j :: 0 <= i < j < |cams| ==> cams[i] != cams[j])
    requires forall c :: c in cams <==> c in History(cfg, inputs).trajectories
    ensures var trajectories := History(cfg, inputs).trajectories;
            OfCamera(PresentedOfAll(cfg, trajectories, cams), cam) == Presented(cfg, Get(trajectories, cam))
  {
    StartSound(cfg);
    assert OwnTracks(START.trajectories);
    RunOwn(cfg, START, inputs);
    hide Run, OwnTracks, OfCamera, PresentedOfAll;
    ShownFromAllCameras(cfg, History(cfg, inputs).trajectories, cams, cam);
  }
}
