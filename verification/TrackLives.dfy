/** What a track is in terms of what has happened to it (datapro2/src/datapro2.cpp): in one frame, and over whole
    runs. */
module TrackLives {
  import opened Nearest
  import opened Options
  import opened TrackChoices
  import opened TrackFit
  import opened TrackPoints
  import opened TrackReports
  import opened TrackRuns
  import opened TrackSpec
  import opened TrackTheorems
  import opened TrackTypes
  import opened Tracker

  // ----- one frame

  /** What a frame can do to a track: a measurement extends it, a pending point and a measurement start it (anew), or
      nothing is found for it. */
  datatype Event = Took(m: Measurement) | Began(first: Measurement, second: Measurement) | Missed

  /** The pending point that started track `k` or was merged into it. */
  function JoinedBy(fates: seq<Fate>, k: nat): (r: Option<nat>)
    ensures match r
            case Some(j) => j < |fates| && (fates[j].Started? || fates[j].Joined?) && fates[j].at == k
            case None => k !in Joins(fates)
  {
    if fates == [] then None
    else
      var f := fates[0];
      if (f.Started? || f.Joined?) && f.at == k then Some(0)
      else
        var rest := JoinedBy(fates[1..], k);
        if rest.Some? then Some(rest.value + 1) else None
  }

  /** The event of track `k` in a frame, by the labels of its outcome. */
  function EventOf(o: Outcome, ptts: seq<PTPoint>, meas: seq<Measurement>, k: nat): Event {
    var choice := if k < |o.matching.choices| then o.matching.choices[k] else None;
    if choice.Some? && choice.value < |meas| then Took(meas[choice.value])
    else
      var fates := o.promotion.fates;
      match JoinedBy(fates, k)
      case Some(j) =>
        if j < |ptts| && fates[j].meas < |meas| then Began(ptts[j].measurement, meas[fates[j].meas]) else Missed
      case None => Missed
  }

  /** The track after the frame in terms of the track before it, which is missing for a new one. */
  ghost predicate Follows(cfg: Config, before: Option<Trajectory>, after: Trajectory, e: Event) {
    && (before.Some? ==> after.id == before.value.id && after.camIndex == before.value.camIndex)
    && match e
       case Took(m) =>
         && before.Some? && after.updated
         && var w, n := before.value.measurements, before.value.unconfirmedFramesCount;
            && w != []
            && (|w| == cfg.maxTrackingFrames ==> after.measurements == w[1..] + [m])
            && (|w| != cfg.maxTrackingFrames ==> after.measurements == w + [m])
            && after.unconfirmedFramesCount == (if n > 0 then n - 1 else n)
       case Began(first, second) =>
         after.updated && after.measurements == [first, second] && after.unconfirmedFramesCount == 0
       case Missed =>
         && before.Some? && !after.updated
         && after.measurements == before.value.measurements
         && after.unconfirmedFramesCount == before.value.unconfirmedFramesCount + 1
  }

  lemma MatchOneFollows(cfg: Config, frame: Frame, tr: Trajectory, meas: seq<Measurement>, taken: seq<bool>)
    requires FitsDefined(cfg) && |taken| == |meas| && Stamped(meas, frame.time)
    requires Live(cfg, tr) && LastTime(tr) < frame.time
    ensures var c := Choice(cfg, frame, tr, meas, taken);
            Follows(cfg, Some(tr), MatchOne(cfg, frame, tr, meas, taken), if c.Some? then Took(meas[c.value]) else Missed)
  {
    hide Choice, LinearFit, QuadraticFit, Prediction, Fitted;
  }

  lemma {:induction false} TakersAt(choices: seq<Option<nat>>, k: nat)
    ensures multiset(Takers(choices))[k] == if k < |choices| && choices[k].Some? then 1 else 0
  {
    if choices != [] {
      TakersAt(choices[..|choices| - 1], k);
    }
  }

  lemma {:induction false} JoinsAt(fates: seq<Fate>, j: nat)
    requires j < |fates| && (fates[j].Started? || fates[j].Joined?)
    ensures multiset(Joins(fates))[fates[j].at] >= 1
  {
    if j > 0 {
      JoinsAt(fates[1..], j - 1);
    }
  }

  function TrackAt(trs: seq<Trajectory>, k: nat): Option<Trajectory> {
    if k < |trs| then Some(trs[k]) else None
  }

  /** A track is updated by one label, and never by two. */
  ghost predicate OneLabel(choices: seq<Option<nat>>, fates: seq<Fate>, k: nat, updated: bool) {
    var took, began := k < |choices| && choices[k].Some?, JoinedBy(fates, k).Some?;
    (updated <==> took || began) && !(took && began)
  }

  lemma HasOneLabel(choices: seq<Option<nat>>, fates: seq<Fate>, k: nat, updated: bool)
    requires (multiset(Takers(choices)) + multiset(Joins(fates)))[k] == if updated then 1 else 0
    ensures OneLabel(choices, fates, k, updated)
  {
    TakersAt(choices, k);
    match JoinedBy(fates, k)
    case Some(j) => JoinsAt(fates, j);
    case None =>
      assert multiset(Joins(fates))[k] == 0;
  }

  ghost predicate FollowsChoice(cfg: Config, before: Trajectory, after: Trajectory, c: Option<nat>, meas: seq<Measurement>) {
    (c.Some? ==> c.value < |meas|) && Follows(cfg, Some(before), after, if c.Some? then Took(meas[c.value]) else Missed)
  }

  /** The tracks that the second stage leaves alone follow their choice. */
  lemma ChoiceFollows(cfg: Config, frame: Frame, trs: seq<Trajectory>, meas: seq<Measurement>, k: nat)
    requires FitsDefined(cfg) && Stamped(meas, frame.time) && LiveBefore(cfg, trs, frame.time) && k < |trs|
    ensures var a := MatchAll(cfg, frame, trs, meas, AllFree(|meas|));
            FollowsChoice(cfg, trs[k], a.trs[k], a.choices[k], meas)
  {
    hide MatchAll, Live, MatchOne, Choice, Flags, LiveBefore, Stamped, Follows;
    var now := MatchReplay(cfg, frame, trs, meas, AllFree(|meas|), k);
    MatchOneFollows(cfg, frame, trs[k], meas, now);
  }

  /** Tracks keep their camera, and new ones have that of the frame. */
  lemma {:induction false} PromoteAllCameras(cfg: Config, frame: Frame, ptts: seq<PTPoint>, meas: seq<Measurement>,
                                             taken: seq<bool>, trs: seq<Trajectory>, counter: nat, k: nat)
    requires |taken| == |meas| && Stamped(meas, frame.time) && PttsBefore(ptts, frame.time) && HasPoints(trs)
    ensures var after := PromoteAll(cfg, frame, ptts, meas, taken, trs, counter).trs;
            |trs| <= |after| && (k < |after| ==> after[k].camIndex == if k < |trs| then trs[k].camIndex else frame.camIndex)
    decreases |ptts|
  {
    hide PromoteAll, Placed, PttChoice, FateOf, HasPoints, LinearFit;
    if ptts == [] {
      PromoteNothing(cfg, frame, meas, taken, trs, counter);
    } else {
      match PttChoice(cfg, ptts[0].measurement, meas, taken)
      case Some(i) =>
        var from, rest := PromoteOne(cfg, frame, ptts, meas, taken, trs, counter, i);
        PlacedCamera(cfg, trs, from, k);
        PromoteAllCameras(cfg, frame, ptts[1..], meas, taken[i := true], Placed(cfg, trs, from), counter + 1, k);
      case None =>
        var f, rest := PromoteNone(cfg, frame, ptts, meas, taken, trs, counter);
        PromoteAllCameras(cfg, frame, ptts[1..], meas, taken, trs, counter, k);
    }
  }

  lemma PlacedCamera(cfg: Config, trs: seq<Trajectory>, from: Trajectory, k: nat)
    requires HasPoints(trs) && |from.measurements| >= 2 && TimesIncrease(from.measurements)
    ensures var r := Placed(cfg, trs, from);
            |trs| <= |r| && (k < |r| ==> r[k].camIndex == if k < |trs| then trs[k].camIndex else from.camIndex)
  {
    hide LinearFit, CanMerge;
  }

  ghost predicate StaysOrUpdated(trs: seq<Trajectory>, after: seq<Trajectory>, counter: nat, camIndex: int, k: nat) {
    && |trs| <= |after|
    && (k < |trs| ==> after[k].id == trs[k].id && after[k].camIndex == trs[k].camIndex)
    && (k < |trs| ==> after[k] == trs[k] || (!trs[k].updated && after[k].updated))
    && (|trs| <= k < |after| ==> after[k].id >= counter && after[k].camIndex == camIndex && after[k].updated)
  }

  /** What the second stage does to the tracks of the first. */
  lemma SecondStage(cfg: Config, frame: Frame, ptts: seq<PTPoint>, meas: seq<Measurement>, taken: seq<bool>,
                    trs: seq<Trajectory>, counter: nat, k: nat)
    requires |taken| == |meas| && Stamped(meas, frame.time) && PttsBefore(ptts, frame.time) && HasPoints(trs)
    requires DistinctIds(trs, counter)
    ensures var r := PromoteAll(cfg, frame, ptts, meas, taken, trs, counter);
            StaysOrUpdated(trs, r.trs, counter, frame.camIndex, k)
  {
    hide PromoteAll, DistinctIds, Stamped, PttsBefore, HasPoints;
    PromoteAllUpdates(cfg, frame, ptts, meas, taken, trs, counter);
    PromoteAllIds(cfg, frame, ptts, meas, taken, trs, counter);
    PromoteAllCameras(cfg, frame, ptts, meas, taken, trs, counter, k);
  }

  /** The identities are those of before. */
  lemma FirstStageIds(cfg: Config, frame: Frame, trs: seq<Trajectory>, meas: seq<Measurement>, counter: nat)
    requires FitsDefined(cfg) && Stamped(meas, frame.time) && LiveBefore(cfg, trs, frame.time) && DistinctIds(trs, counter)
    ensures DistinctIds(MatchAll(cfg, frame, trs, meas, AllFree(|meas|)).trs, counter)
  {
    hide MatchAll, LiveBefore, Stamped, AllLiveBy;
    MatchAllLive(cfg, frame, trs, meas, AllFree(|meas|));
  }

  lemma FollowsEvent(cfg: Config, trs: seq<Trajectory>, o: Outcome, ptts: seq<PTPoint>, meas: seq<Measurement>, counter: nat,
                     camIndex: int, k: nat)
    requires |o.matching.trs| == |o.matching.choices| == |trs| && |o.promotion.fates| == |ptts| && k < |o.promotion.trs|
    requires OneLabel(o.matching.choices, o.promotion.fates, k, o.promotion.trs[k].updated)
    requires k < |trs| ==> FollowsChoice(cfg, trs[k], o.matching.trs[k], o.matching.choices[k], meas)
    requires StaysOrUpdated(o.matching.trs, o.promotion.trs, counter, camIndex, k)
    requires var j := JoinedBy(o.promotion.fates, k);
             j.Some? ==> NamesPoints(cfg, ptts[j.value], o.promotion.fates[j.value], meas, o.promotion.trs)
    ensures Follows(cfg, TrackAt(trs, k), o.promotion.trs[k], EventOf(o, ptts, meas, k))
    ensures k >= |trs| ==> o.promotion.trs[k].id >= counter && o.promotion.trs[k].camIndex == camIndex
  {
  }

  /** In a frame, every track does what its event says. */
  lemma EveryTrackFollows(cfg: Config, frame: Frame, trs: seq<Trajectory>, ptts: seq<PTPoint>, meas: seq<Measurement>,
                          counter: nat, k: nat)
    requires Outcomes(cfg, frame, trs, ptts, meas) && DistinctIds(trs, counter)
    requires k < |FrameOutcome(cfg, frame, trs, ptts, meas, counter).promotion.trs|
    ensures var o := FrameOutcome(cfg, frame, trs, ptts, meas, counter);
            && Follows(cfg, TrackAt(trs, k), o.promotion.trs[k], EventOf(o, ptts, meas, k))
            && (k >= |trs| ==> o.promotion.trs[k].id >= counter && o.promotion.trs[k].camIndex == frame.camIndex)
  {
    OutcomeParts(cfg, frame, trs, ptts, meas, counter);
    hide *;
    var o := FrameOutcome(cfg, frame, trs, ptts, meas, counter);
    LabelsNamePoints(cfg, frame, trs, ptts, meas, counter);
    OneUpdatePerTrack(cfg, frame, trs, ptts, meas, counter);
    FirstStageIds(cfg, frame, trs, meas, counter);
    SecondStage(cfg, frame, ptts, meas, o.matching.taken, o.matching.trs, counter, k);
    HasOneLabel(o.matching.choices, o.promotion.fates, k, o.promotion.trs[k].updated);
    if k < |trs| {
      ChoiceFollows(cfg, frame, trs, meas, k);
    }
    FollowsEvent(cfg, trs, o, ptts, meas, counter, frame.camIndex, k);
  }

  // ----- what is reported of it

  /** The lists that a frame reports, and what it keeps, in terms of the event of a track: `two` says that windows are
      limited to two points, so that an extended one still has two. */
  ghost predicate ReportedAs(cfg: Config, o: Outcome, tr: Trajectory, e: Event) {
    var two := cfg.maxTrackingFrames == 2;
    && (tr in o.trajectories <==> Stays(cfg, tr))
    && (tr.id in o.droppedIds <==> !Stays(cfg, tr))
    && (tr.id in o.newIds <==> Stays(cfg, tr) && (e.Began? || (e.Took? && two)))
    && (tr.id in o.updatedIds <==> Stays(cfg, tr) && e.Took? && !two)
  }

  function Counted(cfg: Config, tr: Trajectory): Trajectory {
    tr.(stats := cfg.statistics(cfg.linearModel, tr))
  }

  lemma TwoPoints(cfg: Config, before: Option<Trajectory>, after: Trajectory, e: Event)
    requires Follows(cfg, before, after, e) && (before.Some? ==> Live(cfg, before.value))
    ensures after.updated <==> !e.Missed?
    ensures after.updated ==> (|after.measurements| == 2 <==> e.Began? || cfg.maxTrackingFrames == 2)
  {
    hide Fitted;
  }

  lemma ReportedByLists(cfg: Config, o: Outcome, all: seq<Trajectory>, counter: nat, before: Option<Trajectory>, e: Event, k: nat)
    requires DistinctIds(all, counter) && k < |all| && k < |o.promotion.trs| && all[k] == Counted(cfg, o.promotion.trs[k])
    requires o.trajectories == Kept(cfg, all) && o.droppedIds == DroppedIds(cfg, all)
    requires o.newIds == UpdatedIds(o.trajectories, true) && o.updatedIds == UpdatedIds(o.trajectories, false)
    requires Follows(cfg, before, o.promotion.trs[k], e) && (before.Some? ==> Live(cfg, before.value))
    ensures ReportedAs(cfg, o, Counted(cfg, o.promotion.trs[k]), e)
  {
    hide Follows, Live, Kept, DroppedIds, UpdatedIds, Stays, DistinctIds;
    ReportOf(cfg, all, counter, k);
    TwoPoints(cfg, before, o.promotion.trs[k], e);
  }

  lemma CountedIds(cfg: Config, trs: seq<Trajectory>, counter: nat)
    requires DistinctIds(trs, counter)
    ensures var all := WithStatistics(cfg, trs);
            DistinctIds(all, counter) && |all| == |trs| && forall k :: 0 <= k < |trs| ==> all[k] == Counted(cfg, trs[k])
  {
  }

  /** In a frame, tracks that began are reported as new, tracks that took a measurement as updated, and those outside the
      limits, with their new statistics, as dropped; the others are kept. */
  lemma ReportsTellEvents(cfg: Config, frame: Frame, trs: seq<Trajectory>, ptts: seq<PTPoint>, meas: seq<Measurement>,
                          counter: nat, k: nat)
    requires Outcomes(cfg, frame, trs, ptts, meas) && DistinctIds(trs, counter)
    requires k < |FrameOutcome(cfg, frame, trs, ptts, meas, counter).promotion.trs|
    ensures var o := FrameOutcome(cfg, frame, trs, ptts, meas, counter);
            ReportedAs(cfg, o, Counted(cfg, o.promotion.trs[k]), EventOf(o, ptts, meas, k))
  {
    OutcomeParts(cfg, frame, trs, ptts, meas, counter);
    var before := TrackAt(trs, k);
    assert before.Some? ==> k < |trs| && before.value == trs[k];
    hide *;
    var o := FrameOutcome(cfg, frame, trs, ptts, meas, counter);
    EveryTrackFollows(cfg, frame, trs, ptts, meas, counter, k);
    FirstStageIds(cfg, frame, trs, meas, counter);
    PromoteAllIds(cfg, frame, ptts, meas, o.matching.taken, o.matching.trs, counter);
    CountedIds(cfg, o.promotion.trs, o.promotion.counter);
    if before.Some? {
      LiveOne(cfg, trs, frame.time, k);
    }
    ReportedByLists(cfg, o, WithStatistics(cfg, o.promotion.trs), o.promotion.counter, before, EventOf(o, ptts, meas, k), k);
  }

  lemma LiveOne(cfg: Config, trs: seq<Trajectory>, time: int, k: nat)
    requires LiveBefore(cfg, trs, time) && k < |trs|
    ensures Live(cfg, trs[k])
  {
    hide Live;
  }

  // ----- whole runs

  /** The points that a track has gained since it began, or began anew by a merge, and its count of unconfirmed frames. */
  datatype Life = Life(points: seq<Measurement>, unseen: int)

  const UNBORN := Life([], 0)

  function Lived(life: Life, e: Event): Life {
    match e
    case Took(m) => Life(life.points + [m], if life.unseen > 0 then life.unseen - 1 else life.unseen)
    case Began(first, second) => Life([first, second], 0)
    case Missed => Life(life.points, life.unseen + 1)
  }

  /** The newest `limit` points; all of them when the limit is below 2, which no window ever meets. */
  function Latest(points: seq<Measurement>, limit: int): seq<Measurement> {
    if 2 <= limit < |points| then points[|points| - limit..] else points
  }

  predicate Tells(cfg: Config, tr: Trajectory, life: Life) {
    tr.measurements == Latest(life.points, cfg.maxTrackingFrames) && tr.unconfirmedFramesCount == life.unseen
  }

  lemma LivesOn(cfg: Config, before: Option<Trajectory>, after: Trajectory, e: Event, life: Life)
    requires Follows(cfg, before, after, e) && (before.Some? ==> Tells(cfg, before.value, life))
    requires before.Some? ==> |before.value.measurements| >= 2
    ensures Tells(cfg, after, Lived(life, e))
  {
    var points, limit := life.points, cfg.maxTrackingFrames;
    if e.Took? && 2 <= limit <= |points| {
      assert Latest(points, limit) == points[|points| - limit..];
      assert points[|points| - limit..][1..] + [e.m] == (points + [e.m])[|points| + 1 - limit..];
    }
  }

  function PositionOf(trs: seq<Trajectory>, id: nat): (r: Option<nat>)
    ensures match r
            case Some(k) => k < |trs| && trs[k].id == id
            case None => forall k :: 0 <= k < |trs| ==> trs[k].id != id
  {
    if trs == [] then None
    else
      var n := |trs| - 1;
      if trs[n].id == id then Some(n) else PositionOf(trs[..n], id)
  }

  /** The life of track `id` of camera `cam` after one more frame. */
  ghost function LifeAfter(cfg: Config, s: State, i: Input, cam: int, id: nat, life: Life): Life
    requires Sound(cfg, s) && Admits(s, i.frame, i.measurements)
  {
    if i.frame.camIndex != cam then life
    else
      var o := Processed(cfg, s, i.frame, i.measurements);
      match PositionOf(o.promotion.trs, id)
      case Some(k) => Lived(life, EventOf(o, Get(s.ptts, cam), Surviving(cfg, i.frame, i.measurements), k))
      case None => life
  }

  /** The life of track `id` of camera `cam` after these frames. */
  ghost function LifeOf(cfg: Config, s: State, inputs: seq<Input>, cam: int, id: nat, life: Life): Life
    requires Sound(cfg, s) && InOrder(s.lastTime, inputs)
    decreases |inputs|
  {
    if inputs == [] then life
    else
      var i := inputs[0];
      NextSound(cfg, s, i.frame, i.measurements);
      LifeOf(cfg, Next(cfg, s, i.frame, i.measurements), inputs[1..], cam, id, LifeAfter(cfg, s, i, cam, id, life))
  }

  /** The track with this identity, if the camera has one, is what its life tells. */
  ghost predicate Told(cfg: Config, trs: seq<Trajectory>, id: nat, life: Life) {
    forall k :: 0 <= k < |trs| && trs[k].id == id ==> Tells(cfg, trs[k], life)
  }

  /** A kept track is one of those of the second stage, with new statistics. */
  lemma KeptFrom(cfg: Config, trs: seq<Trajectory>, counter: nat, n: nat, id: nat)
    requires DistinctIds(trs, counter) && n < |Kept(cfg, WithStatistics(cfg, trs))|
    requires Kept(cfg, WithStatistics(cfg, trs))[n].id == id
    ensures var k := PositionOf(trs, id); k.Some? && Kept(cfg, WithStatistics(cfg, trs))[n] == Counted(cfg, trs[k.value])
  {
    hide Kept, Stays, PositionOf;
    var all := WithStatistics(cfg, trs);
    var at := KeptInOrder(cfg, all);
    assert trs[at[n]].id == id;
  }

  lemma OutcomeTells(cfg: Config, frame: Frame, trs: seq<Trajectory>, ptts: seq<PTPoint>, meas: seq<Measurement>, counter: nat,
                     id: nat, life: Life)
    requires Outcomes(cfg, frame, trs, ptts, meas) && DistinctIds(trs, counter) && Told(cfg, trs, id, life)
    ensures var o := FrameOutcome(cfg, frame, trs, ptts, meas, counter);
            match PositionOf(o.promotion.trs, id)
            case Some(k) => Told(cfg, o.trajectories, id, Lived(life, EventOf(o, ptts, meas, k)))
            case None => Told(cfg, o.trajectories, id, life)
  {
    OutcomeParts(cfg, frame, trs, ptts, meas, counter);
    FirstStageIds(cfg, frame, trs, meas, counter);
    hide FrameOutcome, Outcomes, MatchAll, PromoteAll, LiveBefore, Stamped, PttsBefore, HasPoints, Live, Follows, EventOf,
         Kept, DistinctIds, Lived, Tells, PositionOf, Counted, WithStatistics;
    var o := FrameOutcome(cfg, frame, trs, ptts, meas, counter);
    PromoteAllIds(cfg, frame, ptts, meas, o.matching.taken, o.matching.trs, counter);
    forall n | 0 <= n < |o.trajectories| && o.trajectories[n].id == id
      ensures var k := PositionOf(o.promotion.trs, id);
              k.Some? && Tells(cfg, o.trajectories[n], Lived(life, EventOf(o, ptts, meas, k.value)))
    {
      KeptFrom(cfg, o.promotion.trs, o.promotion.counter, n, id);
      TrackTells(cfg, frame, trs, ptts, meas, counter, PositionOf(o.promotion.trs, id).value, life);
    }
  }

  lemma TrackTells(cfg: Config, frame: Frame, trs: seq<Trajectory>, ptts: seq<PTPoint>, meas: seq<Measurement>, counter: nat,
                   k: nat, life: Life)
    requires Outcomes(cfg, frame, trs, ptts, meas) && DistinctIds(trs, counter)
    requires k < |FrameOutcome(cfg, frame, trs, ptts, meas, counter).promotion.trs|
    requires Told(cfg, trs, FrameOutcome(cfg, frame, trs, ptts, meas, counter).promotion.trs[k].id, life)
    ensures var o := FrameOutcome(cfg, frame, trs, ptts, meas, counter);
            Tells(cfg, Counted(cfg, o.promotion.trs[k]), Lived(life, EventOf(o, ptts, meas, k)))
  {
    EveryTrackFollows(cfg, frame, trs, ptts, meas, counter, k);
    var o := FrameOutcome(cfg, frame, trs, ptts, meas, counter);
    var e, after := EventOf(o, ptts, meas, k), o.promotion.trs[k];
    if k < |trs| {
      LiveOne(cfg, trs, frame.time, k);
      assert |trs[k].measurements| >= 2;
      SameId(cfg, trs[k], after, e);
    }
    hide FrameOutcome, Outcomes, LiveBefore, Live, Follows, EventOf, Lived, Latest;
    LivesOn(cfg, TrackAt(trs, k), after, e, life);
  }

  lemma SameId(cfg: Config, before: Trajectory, after: Trajectory, e: Event)
    requires Follows(cfg, Some(before), after, e)
    ensures after.id == before.id
  {
  }

  lemma FrameTells(cfg: Config, s: State, i: Input, cam: int, id: nat, life: Life)
    requires Sound(cfg, s) && Admits(s, i.frame, i.measurements) && Told(cfg, Get(s.trajectories, cam), id, life)
    ensures Told(cfg, Get(Next(cfg, s, i.frame, i.measurements).trajectories, cam), id, LifeAfter(cfg, s, i, cam, id, life))
  {
    if i.frame.camIndex != cam {
      OtherCameraKept(cfg, s, i, cam);
    } else {
      NextParts(cfg, s, i.frame, i.measurements);
      FrameReady(cfg, s, i.frame, i.measurements);
      var trs, meas := Get(s.trajectories, cam), Surviving(cfg, i.frame, i.measurements);
      var o := FrameOutcome(cfg, i.frame, trs, Get(s.ptts, cam), meas, s.counter);
      assert Get(Next(cfg, s, i.frame, i.measurements).trajectories, cam) == o.trajectories;
      hide FrameOutcome, Outcomes, Surviving, Next, Processed, Sound, Admits, DistinctIds, Told, Get, PositionOf, EventOf, Lived;
      OutcomeTells(cfg, i.frame, trs, Get(s.ptts, cam), meas, s.counter, id, life);
    }
  }

  lemma {:induction false} RunTells(cfg: Config, s: State, inputs: seq<Input>, cam: int, id: nat, life: Life)
    requires Sound(cfg, s) && InOrder(s.lastTime, inputs) && Told(cfg, Get(s.trajectories, cam), id, life)
    ensures Told(cfg, Get(Run(cfg, s, inputs).trajectories, cam), id, LifeOf(cfg, s, inputs, cam, id, life))
    decreases |inputs|
  {
    if inputs != [] {
      var i := inputs[0];
      NextSound(cfg, s, i.frame, i.measurements);
      FrameTells(cfg, s, i, cam, id, life);
      hide Sound, Next, Get, Told, LifeAfter, IdsFrom;
      RunTells(cfg, Next(cfg, s, i.frame, i.measurements), inputs[1..], cam, id, LifeAfter(cfg, s, i, cam, id, life));
    }
  }

  /** In every run, the window of every track is the newest points of those that it has gained since it began or was last
      merged, as many as the limit allows, in their order; and its count of unconfirmed frames is one up for every frame
      of its camera in which nothing was found for it, and one down, but not below zero, for every measurement since. */
  lemma EveryTrackTellsItsLife(cfg: Config, inputs: seq<Input>, cam: int, k: nat)
    requires FitsDefined(cfg) && cfg.filterSize > 0 && InOrder(map[], inputs)
    requires cam in History(cfg, inputs).trajectories && k < |History(cfg, inputs).trajectories[cam]|
    ensures Sound(cfg, START)
    ensures var tr := History(cfg, inputs).trajectories[cam][k];
            Tells(cfg, tr, LifeOf(cfg, START, inputs, cam, tr.id, UNBORN))
  {
    StartSound(cfg);
    RunTells(cfg, START, inputs, cam, History(cfg, inputs).trajectories[cam][k].id, UNBORN);
    hide Run, LifeOf, Tells;
  }
}
