/** How a frame assigns its measurements (datapro2/src/datapro2.cpp, process_frame): every track in turn, and then every
    pending point in turn, takes the nearest measurement that those before it have left. */
module TrackChoices {
  import opened Nearest
  import opened Options
  import opened TrackFit
  import opened TrackSpec
  import opened TrackTheorems
  import opened TrackTypes

  // ----- one choice

  /** A measurement that track `tr` may take: it is free, and inside the strobe around the prediction. */
  predicate Reachable(cfg: Config, frame: Frame, tr: Trajectory, m: Measurement, taken: bool) {
    var reset := tr.(updated := false);
    var strobe := cfg.strobe(cfg.linearModel || |tr.measurements| == 2, reset, Prediction(cfg, frame, tr), frame);
    && !taken
    && strobe.min.x <= m.p.x <= strobe.max.x && strobe.min.y <= m.p.y <= strobe.max.y && strobe.min.z <= m.p.z <= strobe.max.z
  }

  function DistanceTo(cfg: Config, frame: Frame, tr: Trajectory, m: Measurement): real {
    cfg.distance(Prediction(cfg, frame, tr).p, m.p)
  }

  lemma CostMeans(cfg: Config, frame: Frame, tr: Trajectory, m: Measurement, taken: bool)
    ensures TrackCost(cfg, frame, Prepared(cfg, frame, tr), m, taken)
            == if Reachable(cfg, frame, tr, m, taken) then Some(DistanceTo(cfg, frame, tr, m)) else None
  {
    PreparedPrediction(cfg, frame, tr);
    SamePrediction(cfg, frame, tr, tr.(updated := false));
    hide Prediction;
  }

  /** A track takes the earliest of the free measurements in its strobe that are nearest to its prediction, and goes
      without only when none is there. */
  lemma ChoiceMeans(cfg: Config, frame: Frame, tr: Trajectory, meas: seq<Measurement>, taken: seq<bool>)
    requires |taken| == |meas|
    ensures match Choice(cfg, frame, tr, meas, taken)
            case Some(i) =>
              && i < |meas| && Reachable(cfg, frame, tr, meas[i], taken[i])
              && forall j :: 0 <= j < |meas| && Reachable(cfg, frame, tr, meas[j], taken[j]) ==>
                   var d, e := DistanceTo(cfg, frame, tr, meas[i]), DistanceTo(cfg, frame, tr, meas[j]);
                   d <= e && (j < i ==> d < e)
            case None =>
              forall j :: 0 <= j < |meas| && Reachable(cfg, frame, tr, meas[j], taken[j]) ==>
                DistanceTo(cfg, frame, tr, meas[j]) >= cfg.maxDistance
  {
    var costs := TrackCosts(cfg, frame, Prepared(cfg, frame, tr), meas, taken);
    assert IsNearest(costs, cfg.maxDistance, Choice(cfg, frame, tr, meas, taken));
    hide Prepared, Prediction, NearestOf, Choice, TrackCost, Reachable, DistanceTo;
    forall j | 0 <= j < |meas|
      ensures costs[j] == if Reachable(cfg, frame, tr, meas[j], taken[j]) then Some(DistanceTo(cfg, frame, tr, meas[j])) else None
    {
      CostMeans(cfg, frame, tr, meas[j], taken[j]);
    }
  }

  /** A pending point and a measurement that an object at a permitted speed can have made. */
  predicate Plausible(cfg: Config, ptt: Measurement, m: Measurement, taken: bool) {
    var d, dt := cfg.distance(ptt.p, m.p), Seconds(ptt.time, m.time);
    !taken && cfg.minSpeed * dt <= d <= cfg.maxSpeed * dt
  }

  lemma PttChoiceMeans(cfg: Config, ptt: Measurement, meas: seq<Measurement>, taken: seq<bool>)
    requires |taken| == |meas|
    ensures match PttChoice(cfg, ptt, meas, taken)
            case Some(i) =>
              && i < |meas| && Plausible(cfg, ptt, meas[i], taken[i])
              && forall j :: 0 <= j < |meas| && Plausible(cfg, ptt, meas[j], taken[j]) ==>
                   var d, e := cfg.distance(ptt.p, meas[i].p), cfg.distance(ptt.p, meas[j].p);
                   d <= e && (j < i ==> d < e)
            case None =>
              forall j :: 0 <= j < |meas| && Plausible(cfg, ptt, meas[j], taken[j]) ==>
                cfg.distance(ptt.p, meas[j].p) >= cfg.maxDistance
  {
    var costs := PttCosts(cfg, ptt, meas, taken);
    assert IsNearest(costs, cfg.maxDistance, PttChoice(cfg, ptt, meas, taken));
    hide NearestOf, PttChoice, Seconds;
    forall j | 0 <= j < |meas|
      ensures costs[j] == if Plausible(cfg, ptt, meas[j], taken[j]) then Some(cfg.distance(ptt.p, meas[j].p)) else None
    {
    }
  }

  // ----- the first stage

  /** The flags that track `k` sees: those from the start, and what the tracks before it took. */
  ghost predicate Flags(now: seq<bool>, taken: seq<bool>, earlier: seq<Option<nat>>) {
    |now| == |taken| && forall i: nat :: i < |taken| ==> (now[i] <==> taken[i] || Some(i) in earlier)
  }

  lemma FlagsAfter(taken: seq<bool>, c: Option<nat>, now: seq<bool>, earlier: seq<Option<nat>>)
    requires c.Some? ==> c.value < |taken|
    requires Flags(now, Mark(taken, c), earlier)
    ensures Flags(now, taken, [c] + earlier)
  {
  }

  /** Track `k` is matched with these flags. */
  lemma {:induction false} MatchReplay(cfg: Config, frame: Frame, trs: seq<Trajectory>, meas: seq<Measurement>,
                                       taken: seq<bool>, k: nat) returns (now: seq<bool>)
    requires FitsDefined(cfg) && |taken| == |meas| && Stamped(meas, frame.time) && LiveBefore(cfg, trs, frame.time)
    requires k < |trs|
    ensures Live(cfg, trs[k]) && LastTime(trs[k]) < frame.time && |now| == |meas|
    ensures var r := MatchAll(cfg, frame, trs, meas, taken);
            && Flags(now, taken, r.choices[..k])
            && r.choices[k] == Choice(cfg, frame, trs[k], meas, now) && r.trs[k] == MatchOne(cfg, frame, trs[k], meas, now)
    decreases |trs|
  {
    hide *;
    MatchAllOne(cfg, frame, trs, meas, taken);
    var c := Choice(cfg, frame, trs[0], meas, taken);
    if k == 0 {
      now := taken;
      FlagsAtFirst(taken);
      assert MatchAll(cfg, frame, trs, meas, taken).choices[..0] == [];
    } else {
      var rest := MatchAll(cfg, frame, trs[1..], meas, Mark(taken, c));
      now := MatchReplay(cfg, frame, trs[1..], meas, Mark(taken, c), k - 1);
      FlagsAfter(taken, c, now, rest.choices[..k - 1]);
      TakeCons(c, rest.choices, k);
      MatchedNext(cfg, frame, trs, meas, taken, k);
    }
  }

  lemma TakeCons<T>(x: T, s: seq<T>, k: nat)
    requires 0 < k <= |s| + 1
    ensures ([x] + s)[..k] == [x] + s[..k - 1]
  {
  }

  lemma FlagsAtFirst(taken: seq<bool>)
    ensures Flags(taken, taken, [])
  {
  }

  /** After the tracks, the flags say what they took. */
  lemma {:induction false} MatchTakes(cfg: Config, frame: Frame, trs: seq<Trajectory>, meas: seq<Measurement>, taken: seq<bool>)
    requires FitsDefined(cfg) && |taken| == |meas| && Stamped(meas, frame.time) && LiveBefore(cfg, trs, frame.time)
    ensures var r := MatchAll(cfg, frame, trs, meas, taken); Flags(r.taken, taken, r.choices)
    decreases |trs|
  {
    hide MatchAll, Live, MatchOne, Choice, Mark, Flags, Stamped, LiveBefore;
    if trs == [] {
      MatchNothing(cfg, frame, meas, taken);
      FlagsAtFirst(taken);
    } else {
      MatchAllOne(cfg, frame, trs, meas, taken);
      var c := Choice(cfg, frame, trs[0], meas, taken);
      MatchTakes(cfg, frame, trs[1..], meas, Mark(taken, c));
      var rest := MatchAll(cfg, frame, trs[1..], meas, Mark(taken, c));
      FlagsAfter(taken, c, rest.taken, rest.choices);
    }
  }

  /** In a frame, the tracks choose in their order: each takes the earliest of the nearest measurements in its strobe that
      no track before it took, and goes without only when none of these is there. */
  lemma TracksChooseInTurn(cfg: Config, frame: Frame, trs: seq<Trajectory>, ptts: seq<PTPoint>, meas: seq<Measurement>,
                           counter: nat, k: nat)
    requires Outcomes(cfg, frame, trs, ptts, meas) && k < |trs|
    ensures var choices := FrameOutcome(cfg, frame, trs, ptts, meas, counter).matching.choices;
            && |choices| == |trs|
            && match choices[k]
               case Some(i) =>
                 && i < |meas| && Reachable(cfg, frame, trs[k], meas[i], Some(i) in choices[..k])
                 && forall j: nat :: j < |meas| && Reachable(cfg, frame, trs[k], meas[j], Some(j) in choices[..k]) ==>
                      var d, e := DistanceTo(cfg, frame, trs[k], meas[i]), DistanceTo(cfg, frame, trs[k], meas[j]);
                      d <= e && (j < i ==> d < e)
               case None =>
                 forall j: nat :: j < |meas| && Reachable(cfg, frame, trs[k], meas[j], Some(j) in choices[..k]) ==>
                   DistanceTo(cfg, frame, trs[k], meas[j]) >= cfg.maxDistance
  {
    OutcomeParts(cfg, frame, trs, ptts, meas, counter);
    var free := AllFree(|meas|);
    var choices := MatchAll(cfg, frame, trs, meas, free).choices;
    var now := MatchReplay(cfg, frame, trs, meas, free, k);
    ChoiceMeans(cfg, frame, trs[k], meas, now);
    forall j: nat | j < |meas| ensures now[j] == (Some(j) in choices[..k]) {
    }
    hide FrameOutcome, MatchAll, MatchOne, Choice, Reachable, DistanceTo, Flags;
  }

  // ----- the second stage

  /** The measurement that a pending point took. */
  function TakenBy(f: Fate): Option<nat> {
    if f.Started? || f.Joined? then Some(f.meas) else None
  }

  /** The flags that a pending point sees: those after the tracks, and what the pending points before it took. */
  ghost predicate PttFlags(now: seq<bool>, taken: seq<bool>, earlier: seq<nat>) {
    |now| == |taken| && forall i: nat :: i < |taken| ==> (now[i] <==> taken[i] || i in earlier)
  }

  lemma PttFlagsAtFirst(taken: seq<bool>)
    ensures PttFlags(taken, taken, [])
  {
  }

  lemma PttFlagsAfter(taken: seq<bool>, f: Fate, now: seq<bool>, earlier: seq<Fate>)
    requires TakenBy(f).Some? ==> f.meas < |taken|
    requires PttFlags(now, Mark(taken, TakenBy(f)), Used(earlier))
    ensures PttFlags(now, taken, Used([f] + earlier))
  {
    UsedCons(f, earlier);
    hide Used;
  }

  /** Pending point `j` chooses with these flags. */
  lemma {:induction false} PromoteReplay(cfg: Config, frame: Frame, ptts: seq<PTPoint>, meas: seq<Measurement>, taken: seq<bool>,
                                         trs: seq<Trajectory>, counter: nat, j: nat) returns (now: seq<bool>)
    requires |taken| == |meas| && Stamped(meas, frame.time) && PttsBefore(ptts, frame.time) && HasPoints(trs)
    requires j < |ptts|
    ensures |now| == |meas|
    ensures var r := PromoteAll(cfg, frame, ptts, meas, taken, trs, counter);
            && PttFlags(now, taken, Used(r.fates[..j]))
            && PttChoice(cfg, ptts[j].measurement, meas, now) == TakenBy(r.fates[j])
    decreases |ptts|
  {
    hide PromoteAll, Placed, PttChoice, FateOf, HasPoints, LinearFit, TimesIncrease, Used, PttFlags;
    var c := PttChoice(cfg, ptts[0].measurement, meas, taken);
    var f, rest;
    match c {
      case Some(i) =>
        var from;
        from, rest := PromoteOne(cfg, frame, ptts, meas, taken, trs, counter, i);
        f := FateOf(cfg, trs, from, i);
        if j > 0 {
          now := PromoteReplay(cfg, frame, ptts[1..], meas, taken[i := true], Placed(cfg, trs, from), counter + 1, j - 1);
        }
      case None =>
        f, rest := PromoteNone(cfg, frame, ptts, meas, taken, trs, counter);
        if j > 0 {
          now := PromoteReplay(cfg, frame, ptts[1..], meas, taken, trs, counter, j - 1);
        }
    }
    if j == 0 {
      now := taken;
      PttFlagsAtFirst(taken);
      assert ([f] + rest.fates)[..0] == [];
      NoneUsed();
    } else {
      PttFlagsAfter(taken, f, now, rest.fates[..j - 1]);
      assert ([f] + rest.fates)[..j] == [f] + rest.fates[..j - 1];
      assert ptts[1..][j - 1] == ptts[j];
    }
  }

  lemma NoneUsed()
    ensures Used([]) == []
  {
  }

  /** No track took the measurement, and none of these pending points did. */
  ghost predicate Left(choices: seq<Option<nat>>, fates: seq<Fate>, i: nat) {
    Some(i) !in choices && i !in Used(fates)
  }

  /** In a frame, the pending points choose after the tracks and in their order: each takes the earliest of the nearest
      measurements at a permitted speed that nothing before it took, and goes without only when none is there. */
  lemma PendingPointsChooseInTurn(cfg: Config, frame: Frame, trs: seq<Trajectory>, ptts: seq<PTPoint>, meas: seq<Measurement>,
                                  counter: nat, j: nat)
    requires Outcomes(cfg, frame, trs, ptts, meas) && j < |ptts|
    ensures var o := FrameOutcome(cfg, frame, trs, ptts, meas, counter);
            var choices, fates, p := o.matching.choices, o.promotion.fates, ptts[j].measurement;
            && |fates| == |ptts|
            && match TakenBy(fates[j])
               case Some(i) =>
                 && i < |meas| && Plausible(cfg, p, meas[i], !Left(choices, fates[..j], i))
                 && forall n: nat :: n < |meas| && Plausible(cfg, p, meas[n], !Left(choices, fates[..j], n)) ==>
                      var d, e := cfg.distance(p.p, meas[i].p), cfg.distance(p.p, meas[n].p);
                      d <= e && (n < i ==> d < e)
               case None =>
                 forall n: nat :: n < |meas| && Plausible(cfg, p, meas[n], !Left(choices, fates[..j], n)) ==>
                   cfg.distance(p.p, meas[n].p) >= cfg.maxDistance
  {
    OutcomeParts(cfg, frame, trs, ptts, meas, counter);
    var a := MatchAll(cfg, frame, trs, meas, AllFree(|meas|));
    var fates := PromoteAll(cfg, frame, ptts, meas, a.taken, a.trs, counter).fates;
    MatchTakes(cfg, frame, trs, meas, AllFree(|meas|));
    var now := PromoteReplay(cfg, frame, ptts, meas, a.taken, a.trs, counter, j);
    PttChoiceMeans(cfg, ptts[j].measurement, meas, now);
    forall i: nat | i < |meas| ensures now[i] == !Left(a.choices, fates[..j], i) {
    }
    hide FrameOutcome, MatchAll, PromoteAll, PttChoice, Plausible, Flags, PttFlags, Used, Left;
  }
}
