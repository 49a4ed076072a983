/** What a frame tells the outside: how long an unseen track stays, and which identities are reported
    (datapro2/src/datapro2.cpp). */
module TrackReports {
  import opened Nearest
  import opened Options
  import opened TrackFit
  import opened TrackRuns
  import opened TrackSpec
  import opened TrackTheorems
  import opened TrackTypes
  import opened Tracker

  // ----- unseen tracks

  /** Without a measurement a track keeps its points and is one more frame unconfirmed. */
  ghost predicate Overlooked(before: Trajectory, after: Trajectory) {
    && after.id == before.id && after.measurements == before.measurements && after.fit == before.fit
    && after.unconfirmedFramesCount == before.unconfirmedFramesCount + 1
  }

  ghost predicate Treated(before: Trajectory, after: Trajectory, choice: Option<nat>) {
    if choice.Some? then after.updated else !after.updated && Overlooked(before, after)
  }

  lemma {:induction false} MatchAllOverlooks(cfg: Config, frame: Frame, trs: seq<Trajectory>, meas: seq<Measurement>,
                                             taken: seq<bool>, k: nat)
    requires FitsDefined(cfg) && |taken| == |meas| && Stamped(meas, frame.time) && LiveBefore(cfg, trs, frame.time)
    requires k < |trs|
    ensures var r := MatchAll(cfg, frame, trs, meas, taken);
            Treated(trs[k], r.trs[k], r.choices[k])
    decreases |trs|
  {
    MatchAllOne(cfg, frame, trs, meas, taken);
    var c := Choice(cfg, frame, trs[0], meas, taken);
    hide MatchAll, Live, MatchOne, Choice, Mark, Treated;
    if k > 0 {
      MatchAllOverlooks(cfg, frame, trs[1..], meas, Mark(taken, c), k - 1);
      var r, rest := MatchAll(cfg, frame, trs, meas, taken), MatchAll(cfg, frame, trs[1..], meas, Mark(taken, c));
      assert r.trs[k] == rest.trs[k - 1] && r.choices[k] == rest.choices[k - 1] && trs[1..][k - 1] == trs[k];
    } else {
      MatchOneOverlooks(cfg, frame, trs[0], meas, taken);
    }
  }

  lemma MatchOneOverlooks(cfg: Config, frame: Frame, tr: Trajectory, meas: seq<Measurement>, taken: seq<bool>)
    requires FitsDefined(cfg) && |taken| == |meas| && Stamped(meas, frame.time)
    requires Live(cfg, tr) && LastTime(tr) < frame.time
    ensures var r := MatchOne(cfg, frame, tr, meas, taken);
            Treated(tr, r, Choice(cfg, frame, tr, meas, taken))
  {
    hide Live, Choice, LinearFit, QuadraticFit, Prediction;
  }

  lemma {:induction false} PromoteAllUpdates(cfg: Config, frame: Frame, ptts: seq<PTPoint>, meas: seq<Measurement>,
                                             taken: seq<bool>, trs: seq<Trajectory>, counter: nat)
    requires |taken| == |meas| && Stamped(meas, frame.time) && PttsBefore(ptts, frame.time) && HasPoints(trs)
    ensures var r := PromoteAll(cfg, frame, ptts, meas, taken, trs, counter);
            && |r.trs| >= |trs| && (forall k :: |trs| <= k < |r.trs| ==> r.trs[k].updated)
            && (forall k :: 0 <= k < |trs| ==> r.trs[k] == trs[k] || (!trs[k].updated && r.trs[k].updated))
    decreases |ptts|
  {
    if ptts != [] {
      hide PromoteAll, PttChoice, FateOf, HasPoints;
      match PttChoice(cfg, ptts[0].measurement, meas, taken)
      case Some(i) =>
        var from, rest := PromoteOne(cfg, frame, ptts, meas, taken, trs, counter, i);
        PlacedUpdated(cfg, trs, from);
        hide Placed;
        PromoteAllUpdates(cfg, frame, ptts[1..], meas, taken[i := true], Placed(cfg, trs, from), counter + 1);
      case None =>
        var f, rest := PromoteNone(cfg, frame, ptts, meas, taken, trs, counter);
        PromoteAllUpdates(cfg, frame, ptts[1..], meas, taken, trs, counter);
    }
  }

  lemma PlacedUpdated(cfg: Config, trs: seq<Trajectory>, from: Trajectory)
    requires HasPoints(trs) && |from.measurements| >= 2 && TimesIncrease(from.measurements)
    ensures var r := Placed(cfg, trs, from);
            && |trs| <= |r| && (forall k :: |trs| <= k < |r| ==> r[k].updated)
            && (forall k :: 0 <= k < |trs| ==> r[k] == trs[k] || (!trs[k].updated && r[k].updated))
            && HasPoints(r)
  {
    hide LinearFit;
  }

  /** A track that is still there after a frame and was not updated in it was there before, has kept its points, is one
      more frame unconfirmed, and is within the limit. */
  lemma UnseenInFrame(cfg: Config, frame: Frame, trs: seq<Trajectory>, ptts: seq<PTPoint>, meas: seq<Measurement>,
                      counter: nat, k: nat) returns (j: nat)
    requires FitsDefined(cfg) && Stamped(meas, frame.time) && LiveBefore(cfg, trs, frame.time) && PttsBefore(ptts, frame.time)
    requires DistinctIds(trs, counter) && Outcomes(cfg, frame, trs, ptts, meas)
    requires k < |FrameOutcome(cfg, frame, trs, ptts, meas, counter).trajectories|
    requires !FrameOutcome(cfg, frame, trs, ptts, meas, counter).trajectories[k].updated
    ensures var tr := FrameOutcome(cfg, frame, trs, ptts, meas, counter).trajectories[k];
            && j < |trs| && Overlooked(trs[j], tr)
            && tr.unconfirmedFramesCount <= cfg.drop.maxConfirmedFrames - cfg.drop.minConfirmedFrames
  {
    hide MatchAll, PromoteAll, Live, LiveBefore, Stamped, PttsBefore, MatchesRequirements, Overlooked;
    var tr := FrameOutcome(cfg, frame, trs, ptts, meas, counter).trajectories[k];
    var a := MatchAll(cfg, frame, trs, meas, AllFree(|meas|));
    MatchAllLive(cfg, frame, trs, meas, AllFree(|meas|));
    LiveHasPoints(cfg, a.trs, frame.time);
    hide AllLiveBy;
    var b := PromoteAll(cfg, frame, ptts, meas, a.taken, a.trs, counter);
    PromoteAllIds(cfg, frame, ptts, meas, a.taken, a.trs, counter);
    PromoteAllUpdates(cfg, frame, ptts, meas, a.taken, a.trs, counter);
    var all := WithStatistics(cfg, b.trs);
    KeptMembers(cfg, all, b.counter);
    hide Kept, NewPtts;
    j :| 0 <= j < |all| && all[j] == tr;
    assert b.trs[j] == a.trs[j];
    MatchAllOverlooks(cfg, frame, trs, meas, AllFree(|meas|), j);
    OverlookedStats(trs[j], a.trs[j], tr);
    WithinLimit(cfg, tr);
  }

  lemma OverlookedStats(before: Trajectory, after: Trajectory, tr: Trajectory)
    requires Overlooked(before, after) && tr == after.(stats := tr.stats)
    ensures Overlooked(before, tr)
  {
  }

  lemma WithinLimit(cfg: Config, tr: Trajectory)
    requires MatchesRequirements(cfg, tr, true)
    ensures tr.unconfirmedFramesCount <= cfg.drop.maxConfirmedFrames - cfg.drop.minConfirmedFrames
  {
  }

  /** The number of frames of one camera. */
  function FramesOf(inputs: seq<Input>, cam: int): nat {
    if inputs == [] then 0 else (if inputs[0].frame.camIndex == cam then 1 else 0) + FramesOf(inputs[1..], cam)
  }

  ghost predicate ThereUnseen(trs: seq<Trajectory>, id: nat) {
    exists k :: 0 <= k < |trs| && trs[k].id == id && !trs[k].updated
  }

  /** After each of these frames that is one of camera `cam`, the track is still there and was not updated. The frames of
      other cameras may come in between. */
  ghost predicate StaysUnseen(cfg: Config, s: State, cam: int, id: nat, inputs: seq<Input>)
    requires Sound(cfg, s) && InOrder(s.lastTime, inputs)
    decreases |inputs|
  {
    inputs == [] ||
    (NextSound(cfg, s, inputs[0].frame, inputs[0].measurements);
     var t := Next(cfg, s, inputs[0].frame, inputs[0].measurements);
     && (inputs[0].frame.camIndex == cam ==> ThereUnseen(Get(t.trajectories, cam), id))
     && StaysUnseen(cfg, t, cam, id, inputs[1..]))
  }

  lemma UnseenOnce(cfg: Config, s: State, i: Input, k: nat) returns (j: nat)
    requires Sound(cfg, s) && Admits(s, i.frame, i.measurements)
    requires k < |Get(Next(cfg, s, i.frame, i.measurements).trajectories, i.frame.camIndex)|
    requires !Get(Next(cfg, s, i.frame, i.measurements).trajectories, i.frame.camIndex)[k].updated
    ensures var trs := Get(s.trajectories, i.frame.camIndex);
            var tr := Get(Next(cfg, s, i.frame, i.measurements).trajectories, i.frame.camIndex)[k];
            && j < |trs| && Overlooked(trs[j], tr)
            && tr.unconfirmedFramesCount <= cfg.drop.maxConfirmedFrames - cfg.drop.minConfirmedFrames
  {
    NextParts(cfg, s, i.frame, i.measurements);
    CameraReady(cfg, s, i.frame, i.measurements);
    FilteredStamped(i.frame, i.measurements, cfg);
    var cam := i.frame.camIndex;
    var trs, meas := Get(s.trajectories, cam), Surviving(cfg, i.frame, i.measurements);
    assert Stamped(meas, i.frame.time) && FitsDefined(cfg);
    assert Get(Next(cfg, s, i.frame, i.measurements).trajectories, cam)
           == FrameOutcome(cfg, i.frame, trs, Get(s.ptts, cam), meas, s.counter).trajectories;
    hide Sound, Admits, Next, Processed, FrameOutcome, Outcomes, Surviving, Stamped, LiveBefore, PttsBefore, DistinctIds,
         Overlooked;
    j := UnseenInFrame(cfg, i.frame, trs, Get(s.ptts, cam), meas, s.counter, k);
  }

  /** A frame leaves the lists of other cameras alone. */
  lemma OtherCameraKept(cfg: Config, s: State, i: Input, cam: int)
    requires Sound(cfg, s) && Admits(s, i.frame, i.measurements) && i.frame.camIndex != cam
    ensures Get(Next(cfg, s, i.frame, i.measurements).trajectories, cam) == Get(s.trajectories, cam)
    ensures Get(Next(cfg, s, i.frame, i.measurements).ptts, cam) == Get(s.ptts, cam)
  {
    NextIs(cfg, s, i.frame, i.measurements);
    hide Sound, Admits, Next, Processed;
  }

  /** A frame of the track's own camera in which it is not seen makes it one frame more unconfirmed. */
  lemma UnseenStep(cfg: Config, s: State, i: Input, k: nat) returns (n: nat)
    requires Sound(cfg, s) && Admits(s, i.frame, i.measurements)
    requires k < |Get(s.trajectories, i.frame.camIndex)|
    requires ThereUnseen(Get(Next(cfg, s, i.frame, i.measurements).trajectories, i.frame.camIndex),
                         Get(s.trajectories, i.frame.camIndex)[k].id)
    ensures var before, after := Get(s.trajectories, i.frame.camIndex),
                                 Get(Next(cfg, s, i.frame, i.measurements).trajectories, i.frame.camIndex);
            && n < |after| && after[n].id == before[k].id
            && after[n].unconfirmedFramesCount == before[k].unconfirmedFramesCount + 1
            && after[n].unconfirmedFramesCount <= cfg.drop.maxConfirmedFrames - cfg.drop.minConfirmedFrames
  {
    var cam := i.frame.camIndex;
    var before, after := Get(s.trajectories, cam), Get(Next(cfg, s, i.frame, i.measurements).trajectories, cam);
    n :| 0 <= n < |after| && after[n].id == before[k].id && !after[n].updated;
    CameraReady(cfg, s, i.frame, i.measurements);
    hide Sound, Admits, Next, Get;
    var j := UnseenOnce(cfg, s, i, n);
    assert j == k;
  }

  /** A track that gets no measurement is dropped: in every run, whatever other cameras send in between, it outlives no
      more frames of its camera than its limit leaves. */
  lemma {:induction false} UnseenIsDropped(cfg: Config, s: State, cam: int, k: nat, inputs: seq<Input>)
    requires Sound(cfg, s) && InOrder(s.lastTime, inputs) && k < |Get(s.trajectories, cam)|
    requires StaysUnseen(cfg, s, cam, Get(s.trajectories, cam)[k].id, inputs)
    ensures FramesOf(inputs, cam) > 0 ==>
              FramesOf(inputs, cam) <= cfg.drop.maxConfirmedFrames - cfg.drop.minConfirmedFrames
                                       - Get(s.trajectories, cam)[k].unconfirmedFramesCount
    decreases |inputs|
  {
    if inputs != [] {
      var i := inputs[0];
      NextSound(cfg, s, i.frame, i.measurements);
      var t := Next(cfg, s, i.frame, i.measurements);
      if i.frame.camIndex == cam {
        var n := UnseenStep(cfg, s, i, k);
        hide Sound, Next, Get, ThereUnseen, IdsFrom;
        UnseenIsDropped(cfg, t, cam, n, inputs[1..]);
      } else {
        OtherCameraKept(cfg, s, i, cam);
        hide Sound, Next, Get, ThereUnseen, IdsFrom;
        UnseenIsDropped(cfg, t, cam, k, inputs[1..]);
      }
    }
  }

  // ----- what is reported

  /** The tracks that were updated, in order. */
  function OnlyUpdated(trs: seq<Trajectory>): seq<Trajectory> {
    if trs == [] then []
    else
      var n := |trs| - 1;
      OnlyUpdated(trs[..n]) + (if trs[n].updated then [trs[n]] else [])
  }

  lemma UpdatedPrefix(trs: seq<Trajectory>)
    requires trs != []
    ensures var n := |trs| - 1; var tr := trs[n];
            && OnlyUpdated(trs) == (if tr.updated then OnlyUpdated(trs[..n]) + [tr] else OnlyUpdated(trs[..n]))
            && UpdatedIds(trs, true) == (if tr.updated && |tr.measurements| == 2 then UpdatedIds(trs[..n], true) + [tr.id]
                                         else UpdatedIds(trs[..n], true))
            && UpdatedIds(trs, false) == (if tr.updated && |tr.measurements| != 2 then UpdatedIds(trs[..n], false) + [tr.id]
                                          else UpdatedIds(trs[..n], false))
  {
  }

  lemma NoneUpdated()
    ensures OnlyUpdated([]) == [] && UpdatedIds([], true) == [] && UpdatedIds([], false) == [] && IdsOf([]) == []
  {
  }

  /** Every updated track is reported once, as new or as updated. */
  lemma {:induction false} UpdatedAreReported(trs: seq<Trajectory>)
    ensures multiset(UpdatedIds(trs, true)) + multiset(UpdatedIds(trs, false)) == multiset(IdsOf(OnlyUpdated(trs)))
  {
    hide OnlyUpdated, UpdatedIds, IdsOf;
    if trs == [] {
      NoneUpdated();
    } else {
      var n := |trs| - 1;
      UpdatedAreReported(trs[..n]);
      UpdatedPrefix(trs);
      IdsSnoc(OnlyUpdated(trs[..n]), trs[n]);
    }
  }

  lemma {:induction false} OnlyUpdatedSome(trs: seq<Trajectory>)
    ensures multiset(IdsOf(OnlyUpdated(trs))) <= multiset(IdsOf(trs))
  {
    hide OnlyUpdated, UpdatedIds, IdsOf;
    if trs == [] {
      NoneUpdated();
    } else {
      var n := |trs| - 1;
      OnlyUpdatedSome(trs[..n]);
      UpdatedPrefix(trs);
      IdsSnoc(OnlyUpdated(trs[..n]), trs[n]);
      IdsSnoc(trs[..n], trs[n]);
      assert trs == trs[..n] + [trs[n]];
    }
  }

  lemma {:induction false} IdsOnce(trs: seq<Trajectory>, counter: nat, id: nat)
    requires DistinctIds(trs, counter)
    ensures multiset(IdsOf(trs))[id] <= 1
    ensures multiset(IdsOf(trs))[id] == 1 ==> exists j :: 0 <= j < |trs| && trs[j].id == id
  {
    if trs != [] {
      var n := |trs| - 1;
      IdsOnce(trs[..n], counter, id);
      if multiset(IdsOf(trs[..n]))[id] == 1 {
        var j :| 0 <= j < n && trs[..n][j].id == id;
        assert trs[j].id == id;
      } else if trs[n].id == id {
        assert trs[n].id == id;
      }
    }
  }

  /** In one frame no identity is reported twice: neither within one of the three lists nor across them. */
  lemma ReportedAtMostOnce(cfg: Config, all: seq<Trajectory>, counter: nat, id: nat)
    requires DistinctIds(all, counter)
    ensures var kept := Kept(cfg, all);
            multiset(UpdatedIds(kept, true))[id] + multiset(UpdatedIds(kept, false))[id] + multiset(DroppedIds(cfg, all))[id] <= 1
  {
    var kept := Kept(cfg, all);
    hide Kept, DroppedIds, UpdatedIds, IdsOf, OnlyUpdated;
    KeptOrDropped(cfg, all);
    UpdatedAreReported(kept);
    OnlyUpdatedSome(kept);
    IdsOnce(all, counter, id);
    assert multiset(IdsOf(all))[id] == multiset(IdsOf(kept))[id] + multiset(DroppedIds(cfg, all))[id];
    assert multiset(IdsOf(OnlyUpdated(kept)))[id]
           == multiset(UpdatedIds(kept, true))[id] + multiset(UpdatedIds(kept, false))[id];
  }

  lemma OutcomeReportsOnce(cfg: Config, frame: Frame, trs: seq<Trajectory>, ptts: seq<PTPoint>, meas: seq<Measurement>,
                           counter: nat, id: nat)
    requires FitsDefined(cfg) && Stamped(meas, frame.time) && LiveBefore(cfg, trs, frame.time) && PttsBefore(ptts, frame.time)
    requires DistinctIds(trs, counter) && Outcomes(cfg, frame, trs, ptts, meas)
    ensures var o := FrameOutcome(cfg, frame, trs, ptts, meas, counter);
            multiset(o.newIds)[id] + multiset(o.updatedIds)[id] + multiset(o.droppedIds)[id] <= 1
  {
    hide MatchAll, PromoteAll, Live, LiveBefore, Stamped, PttsBefore;
    var a := MatchAll(cfg, frame, trs, meas, AllFree(|meas|));
    MatchAllLive(cfg, frame, trs, meas, AllFree(|meas|));
    LiveHasPoints(cfg, a.trs, frame.time);
    hide AllLiveBy;
    var b := PromoteAll(cfg, frame, ptts, meas, a.taken, a.trs, counter);
    PromoteAllIds(cfg, frame, ptts, meas, a.taken, a.trs, counter);
    var all := WithStatistics(cfg, b.trs);
    assert DistinctIds(all, b.counter);
    hide DistinctIds, Kept, DroppedIds, UpdatedIds, NewPtts, WithStatistics;
    ReportedAtMostOnce(cfg, all, b.counter, id);
  }

  lemma FrameReportsOnce(cfg: Config, s: State, frame: Frame, measurements: seq<Measurement>, id: nat)
    requires Sound(cfg, s) && Admits(s, frame, measurements)
    ensures var o := Processed(cfg, s, frame, measurements);
            multiset(o.newIds)[id] + multiset(o.updatedIds)[id] + multiset(o.droppedIds)[id] <= 1
  {
    NextParts(cfg, s, frame, measurements);
    CameraReady(cfg, s, frame, measurements);
    FilteredStamped(frame, measurements, cfg);
    var trs, meas := Get(s.trajectories, frame.camIndex), Surviving(cfg, frame, measurements);
    assert Stamped(meas, frame.time) && FitsDefined(cfg);
    hide *;
    OutcomeReportsOnce(cfg, frame, trs, Get(s.ptts, frame.camIndex), meas, s.counter, id);
  }

  // ----- what is kept and shown

  /** All values of the track are within these limits; the acceleration counts for the quadratic model only. */
  predicate Meets(q: Requirements, linearModel: bool, tr: Trajectory) {
    && q.minConfirmedFrames + tr.unconfirmedFramesCount <= q.maxConfirmedFrames
    && q.minSpeed <= tr.stats.speed <= q.maxSpeed
    && (linearModel || q.minAcceleration <= tr.stats.acceleration <= q.maxAcceleration)
    && tr.stats.stdDevX <= q.maxXStdDev && tr.stats.stdDevY <= q.maxYStdDev && tr.stats.stdDevZ <= q.maxZStdDev
    && tr.stats.stdDevXyz <= q.maxXyzStdDev
  }

  predicate Stays(cfg: Config, tr: Trajectory) {
    Meets(cfg.drop, cfg.linearModel, tr)
  }

  /** A track that is shown also has enough points. A negative number is compared as the unsigned one of 64 bits. */
  predicate IsShown(cfg: Config, tr: Trajectory) {
    && Meets(cfg.show, cfg.linearModel, tr)
    && (0 <= cfg.showMinFrames <= |tr.measurements| || 0x1_0000_0000_0000_0000 + cfg.showMinFrames <= |tr.measurements|)
  }

  lemma RequirementsMean(cfg: Config, tr: Trajectory)
    ensures MatchesRequirements(cfg, tr, true) <==> Stays(cfg, tr)
    ensures MatchesRequirements(cfg, tr, false) <==> IsShown(cfg, tr)
  {
  }

  /** The positions, in order. */
  ghost predicate Ascending(at: seq<nat>, n: nat) {
    (forall i :: 0 <= i < |at| ==> at[i] < n) && forall i, j :: 0 <= i < j < |at| ==> at[i] < at[j]
  }

  lemma AscendingSnoc(at: seq<nat>, n: nat)
    requires Ascending(at, n)
    ensures Ascending(at, n + 1) && Ascending(at + [n], n + 1)
  {
  }

  /** `r` are the tracks at these positions. */
  ghost predicate Selects(trs: seq<Trajectory>, r: seq<Trajectory>, at: seq<nat>) {
    && Ascending(at, |trs|) && |r| == |at|
    && forall i :: 0 <= i < |at| ==> r[i] == trs[at[i]]
  }

  lemma SelectsSnoc(trs: seq<Trajectory>, r: seq<Trajectory>, at: seq<nat>)
    requires trs != [] && Selects(trs[..|trs| - 1], r, at)
    ensures Selects(trs, r, at) && Selects(trs, r + [trs[|trs| - 1]], at + [|trs| - 1])
  {
    AscendingSnoc(at, |trs| - 1);
  }

  /** The tracks that are kept are those within the limits for dropping, each once and in order. */
  lemma {:induction false} KeptInOrder(cfg: Config, trs: seq<Trajectory>) returns (at: seq<nat>)
    ensures Selects(trs, Kept(cfg, trs), at)
    ensures forall k: nat :: k in at <==> k < |trs| && Stays(cfg, trs[k])
  {
    hide MatchesRequirements, Stays, Selects;
    if trs == [] {
      at := [];
      NothingSelected();
    } else {
      var n := |trs| - 1;
      var before := KeptInOrder(cfg, trs[..n]);
      RequirementsMean(cfg, trs[n]);
      SelectsSnoc(trs, Kept(cfg, trs[..n]), before);
      at := if Stays(cfg, trs[n]) then before + [n] else before;
      assert Kept(cfg, trs[..n]) + [] == Kept(cfg, trs[..n]);
    }
  }

  lemma NothingSelected()
    ensures Selects([], [], [])
  {
  }

  /** The tracks that are shown are those within the limits for showing that have enough points, each once and in
      order. */
  lemma {:induction false} ShownInOrder(cfg: Config, trs: seq<Trajectory>) returns (at: seq<nat>)
    ensures Selects(trs, Presented(cfg, trs), at)
    ensures forall k: nat :: k in at <==> k < |trs| && IsShown(cfg, trs[k])
  {
    hide MatchesRequirements, IsShown, Selects;
    if trs == [] {
      at := [];
      NothingSelected();
    } else {
      var n := |trs| - 1;
      var before := ShownInOrder(cfg, trs[..n]);
      RequirementsMean(cfg, trs[n]);
      SelectsSnoc(trs, Presented(cfg, trs[..n]), before);
      at := if IsShown(cfg, trs[n]) then before + [n] else before;
      assert Presented(cfg, trs[..n]) + [] == Presented(cfg, trs[..n]);
    }
  }

  ghost predicate HasUpdated(trs: seq<Trajectory>, two: bool, id: nat) {
    exists k :: 0 <= k < |trs| && trs[k].updated && (|trs[k].measurements| == 2) == two && trs[k].id == id
  }

  lemma {:induction false} ReportsUpdated(trs: seq<Trajectory>, two: bool, id: nat)
    ensures id in UpdatedIds(trs, two) <==> HasUpdated(trs, two, id)
  {
    if trs != [] {
      var n := |trs| - 1;
      ReportsUpdated(trs[..n], two, id);
      if HasUpdated(trs[..n], two, id) {
        var k :| 0 <= k < n && trs[..n][k].updated && (|trs[..n][k].measurements| == 2) == two && trs[..n][k].id == id;
        assert trs[k].updated && trs[k].id == id;
      }
    }
  }

  ghost predicate HasLeaving(cfg: Config, trs: seq<Trajectory>, id: nat) {
    exists k :: 0 <= k < |trs| && !Stays(cfg, trs[k]) && trs[k].id == id
  }

  lemma {:induction false} ReportsDropped(cfg: Config, trs: seq<Trajectory>, id: nat)
    ensures id in DroppedIds(cfg, trs) <==> HasLeaving(cfg, trs, id)
  {
    hide MatchesRequirements, Stays;
    if trs != [] {
      var n := |trs| - 1;
      ReportsDropped(cfg, trs[..n], id);
      RequirementsMean(cfg, trs[n]);
      if HasLeaving(cfg, trs[..n], id) {
        var k :| 0 <= k < n && !Stays(cfg, trs[..n][k]) && trs[..n][k].id == id;
        assert trs[k].id == id;
      }
    }
  }

  /** How a track with its own identity is reported. */
  lemma ReportOf(cfg: Config, trs: seq<Trajectory>, counter: nat, k: nat)
    requires DistinctIds(trs, counter) && k < |trs|
    ensures var kept, tr := Kept(cfg, trs), trs[k];
            && (tr in kept <==> Stays(cfg, tr))
            && (tr.id in DroppedIds(cfg, trs) <==> !Stays(cfg, tr))
            && (tr.id in UpdatedIds(kept, true) <==> Stays(cfg, tr) && tr.updated && |tr.measurements| == 2)
            && (tr.id in UpdatedIds(kept, false) <==> Stays(cfg, tr) && tr.updated && |tr.measurements| != 2)
  {
    hide Kept, DroppedIds, UpdatedIds, Stays;
    var kept, tr := Kept(cfg, trs), trs[k];
    var at := KeptInOrder(cfg, trs);
    ReportsDropped(cfg, trs, tr.id);
    if Stays(cfg, tr) {
      var n :| 0 <= n < |at| && at[n] == k;
      assert kept[n] == tr;
    }
    forall n: nat | n < |kept| && kept[n].id == tr.id ensures at[n] == k && kept[n] == tr {
    }
    assert tr in kept <==> Stays(cfg, tr);
    ReportsUpdated(kept, true, tr.id);
    ReportsUpdated(kept, false, tr.id);
  }
}
