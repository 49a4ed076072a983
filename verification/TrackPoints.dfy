/** Where the measurements of a frame go (datapro2/src/datapro2.cpp, process_frame): said of the points of the tracks
    themselves. */
module TrackPoints {
  import opened Nearest
  import opened NoiseFilter
  import opened Options
  import opened TrackFit
  import opened TrackReports
  import opened TrackSpec
  import opened TrackTheorems
  import opened TrackTypes
  import opened Tracker

  // ----- conservation

  /** The newest point of a track that was updated in the frame. */
  function Newest(tr: Trajectory): multiset<Measurement> {
    if tr.updated && tr.measurements != [] then multiset{tr.measurements[|tr.measurements| - 1]} else multiset{}
  }

  function Gained(trs: seq<Trajectory>): multiset<Measurement> {
    if trs == [] then multiset{} else Newest(trs[0]) + Gained(trs[1..])
  }

  function FreePoints(meas: seq<Measurement>, taken: seq<bool>): multiset<Measurement>
    requires |taken| == |meas|
  {
    if meas == [] then multiset{}
    else
      var n := |meas| - 1;
      FreePoints(meas[..n], taken[..n]) + (if taken[n] then multiset{} else multiset{meas[n]})
  }

  function PointsOf(ptts: seq<PTPoint>): multiset<Measurement> {
    if ptts == [] then multiset{}
    else
      var n := |ptts| - 1;
      PointsOf(ptts[..n]) + multiset{ptts[n].measurement}
  }

  lemma GainedCons(tr: Trajectory, rest: seq<Trajectory>)
    ensures Gained([tr] + rest) == Newest(tr) + Gained(rest)
  {
    assert ([tr] + rest)[1..] == rest;
  }

  lemma {:induction false} GainedSnoc(trs: seq<Trajectory>, tr: Trajectory)
    ensures Gained(trs + [tr]) == Gained(trs) + Newest(tr)
  {
    hide Newest;
    if trs == [] {
      assert trs + [tr] == [tr] && [tr][1..] == [];
    } else {
      GainedSnoc(trs[1..], tr);
      assert (trs + [tr])[1..] == trs[1..] + [tr];
    }
  }

  lemma {:induction false} GainedUpdate(trs: seq<Trajectory>, k: nat, tr: Trajectory)
    requires k < |trs| && !trs[k].updated
    ensures Gained(trs[k := tr]) == Gained(trs) + Newest(tr)
  {
    var after := trs[k := tr];
    if k == 0 {
      assert after[1..] == trs[1..];
    } else {
      GainedUpdate(trs[1..], k - 1, tr);
      assert after[1..] == trs[1..][k - 1 := tr];
    }
  }

  lemma {:induction false} TakePoint(meas: seq<Measurement>, taken: seq<bool>, i: nat)
    requires |taken| == |meas| && i < |meas| && !taken[i]
    ensures FreePoints(meas, taken) == FreePoints(meas, taken[i := true]) + multiset{meas[i]}
  {
    var n, after := |meas| - 1, taken[i := true];
    if i == n {
      assert after[..n] == taken[..n];
    } else {
      TakePoint(meas[..n], taken[..n], i);
      assert after[..n] == taken[..n][i := true];
    }
  }

  lemma {:induction false} AllPointsFree(meas: seq<Measurement>)
    ensures FreePoints(meas, AllFree(|meas|)) == multiset(meas)
  {
    if meas != [] {
      var n := |meas| - 1;
      AllPointsFree(meas[..n]);
      assert AllFree(|meas|)[..n] == AllFree(n);
      assert meas == meas[..n] + [meas[n]];
    }
  }

  lemma PointsOfSnoc(ptts: seq<PTPoint>, p: PTPoint)
    ensures PointsOf(ptts + [p]) == PointsOf(ptts) + multiset{p.measurement} && PointsOf([]) == multiset{}
  {
    assert (ptts + [p])[..|ptts|] == ptts;
  }

  /** The new pending points are the free measurements. */
  lemma {:induction false} NewPttsPoints(meas: seq<Measurement>, taken: seq<bool>)
    requires |taken| == |meas|
    ensures PointsOf(NewPtts(meas, taken)) == FreePoints(meas, taken)
  {
    if meas == [] {
      assert NewPtts(meas, taken) == [];
    } else {
      var n := |meas| - 1;
      var before := NewPtts(meas[..n], taken[..n]);
      NewPttsPoints(meas[..n], taken[..n]);
      NewPttsSnoc(meas, taken);
      PointsOfSnoc(before, PTPoint(meas[n], 1));
      hide NewPtts, PointsOf;
      assert before + [] == before;
    }
  }

  /** What a track makes of its choice: the chosen measurement is its newest point, and it has none without a choice. */
  ghost predicate TookPoint(after: Trajectory, choice: Option<nat>, meas: seq<Measurement>) {
    && after.updated == choice.Some?
    && (choice.Some? ==> choice.value < |meas| && after.measurements != []
                         && after.measurements[|after.measurements| - 1] == meas[choice.value])
  }

  lemma MatchOneTakes(cfg: Config, frame: Frame, tr: Trajectory, meas: seq<Measurement>, taken: seq<bool>)
    requires FitsDefined(cfg) && |taken| == |meas| && Stamped(meas, frame.time)
    requires Live(cfg, tr) && LastTime(tr) < frame.time
    ensures TookPoint(MatchOne(cfg, frame, tr, meas, taken), Choice(cfg, frame, tr, meas, taken), meas)
  {
    hide Live, Choice, LinearFit, QuadraticFit, Prediction;
  }

  lemma MarkTakesPoint(meas: seq<Measurement>, taken: seq<bool>, c: Option<nat>, after: Trajectory)
    requires |taken| == |meas| && TookPoint(after, c, meas) && (c.Some? ==> !taken[c.value])
    ensures FreePoints(meas, taken) == FreePoints(meas, Mark(taken, c)) + Newest(after)
  {
    hide FreePoints;
    if c.Some? {
      TakePoint(meas, taken, c.value);
    }
  }

  lemma {:induction false} MatchAllGains(cfg: Config, frame: Frame, trs: seq<Trajectory>, meas: seq<Measurement>, taken: seq<bool>)
    requires FitsDefined(cfg) && |taken| == |meas| && Stamped(meas, frame.time) && LiveBefore(cfg, trs, frame.time)
    ensures var r := MatchAll(cfg, frame, trs, meas, taken);
            FreePoints(meas, taken) == FreePoints(meas, r.taken) + Gained(r.trs)
    decreases |trs|
  {
    hide Live, MatchOne, Choice, MatchAll, Mark, FreePoints, TookPoint, Newest, Gained;
    if trs == [] {
      MatchNothing(cfg, frame, meas, taken);
      NothingGained();
    } else {
      var c, first := Choice(cfg, frame, trs[0], meas, taken), MatchOne(cfg, frame, trs[0], meas, taken);
      MatchAllOne(cfg, frame, trs, meas, taken);
      MatchAllGains(cfg, frame, trs[1..], meas, Mark(taken, c));
      MatchOneTakes(cfg, frame, trs[0], meas, taken);
      MarkTakesPoint(meas, taken, c, first);
      GainedCons(first, MatchAll(cfg, frame, trs[1..], meas, Mark(taken, c)).trs);
    }
  }

  lemma NothingGained()
    ensures Gained([]) == multiset{}
  {
  }

  lemma PlacedGains(cfg: Config, trs: seq<Trajectory>, from: Trajectory)
    requires HasPoints(trs) && |from.measurements| >= 2 && TimesIncrease(from.measurements)
    ensures Gained(Placed(cfg, trs, from)) == Gained(trs) + multiset{from.measurements[|from.measurements| - 1]}
  {
    hide LinearFit, Gained;
    match MergeTarget(cfg, trs, from)
    case Some(k) => GainedUpdate(trs, k, Merged(trs[k], from));
    case None => GainedSnoc(trs, from.(updated := true));
  }

  lemma {:induction false} PromoteAllGains(cfg: Config, frame: Frame, ptts: seq<PTPoint>, meas: seq<Measurement>,
                                           taken: seq<bool>, trs: seq<Trajectory>, counter: nat)
    requires |taken| == |meas| && Stamped(meas, frame.time) && PttsBefore(ptts, frame.time) && HasPoints(trs)
    ensures var r := PromoteAll(cfg, frame, ptts, meas, taken, trs, counter);
            FreePoints(meas, taken) + Gained(trs) == FreePoints(meas, r.taken) + Gained(r.trs)
    decreases |ptts|
  {
    hide PromoteAll, Placed, PttChoice, FateOf, FreePoints, Gained, HasPoints, LinearFit;
    if ptts == [] {
      PromoteNothing(cfg, frame, meas, taken, trs, counter);
    } else {
      match PttChoice(cfg, ptts[0].measurement, meas, taken)
      case Some(i) =>
        var from, rest := PromoteOne(cfg, frame, ptts, meas, taken, trs, counter, i);
        PlacedGains(cfg, trs, from);
        TakePoint(meas, taken, i);
        PromoteAllGains(cfg, frame, ptts[1..], meas, taken[i := true], Placed(cfg, trs, from), counter + 1);
      case None =>
        var f, rest := PromoteNone(cfg, frame, ptts, meas, taken, trs, counter);
        PromoteAllGains(cfg, frame, ptts[1..], meas, taken, trs, counter);
    }
  }

  /** What a frame is given is what it leaves: with multiplicity, the newest points of the updated tracks and the pending
      points behind those that only aged are together exactly the measurements. */
  lemma PointsConserved(cfg: Config, frame: Frame, trs: seq<Trajectory>, ptts: seq<PTPoint>, meas: seq<Measurement>, counter: nat)
    requires Outcomes(cfg, frame, trs, ptts, meas)
    ensures var o := FrameOutcome(cfg, frame, trs, ptts, meas, counter);
            && |o.promotion.fates| == |ptts|
            && Keeps(o.ptts, AgedPtts(ptts, o.promotion.fates))
            && Gained(o.promotion.trs) + PointsOf(o.ptts[|AgedPtts(ptts, o.promotion.fates)|..]) == multiset(meas)
  {
    OutcomeParts(cfg, frame, trs, ptts, meas, counter);
    hide *;
    var a := MatchAll(cfg, frame, trs, meas, AllFree(|meas|));
    var b := PromoteAll(cfg, frame, ptts, meas, a.taken, a.trs, counter);
    MatchAllGains(cfg, frame, trs, meas, AllFree(|meas|));
    PromoteAllGains(cfg, frame, ptts, meas, a.taken, a.trs, counter);
    PromoteAllFates(cfg, frame, ptts, meas, a.taken, a.trs, counter);
    AllPointsFree(meas);
    NewPttsPoints(meas, b.taken);
    KeepsFirst(b.ptts, meas, b.taken);
  }

  /** The list starts with the pending points `stay`, and what follows is new. */
  ghost predicate Keeps(ptts: seq<PTPoint>, stay: seq<PTPoint>) {
    && stay <= ptts
    && forall k :: |stay| <= k < |ptts| ==> ptts[k].passedFrames == 1
  }

  lemma KeepsFirst(stay: seq<PTPoint>, meas: seq<Measurement>, taken: seq<bool>)
    requires |taken| == |meas|
    ensures Keeps(stay + NewPtts(meas, taken), stay) && (stay + NewPtts(meas, taken))[|stay|..] == NewPtts(meas, taken)
  {
  }

  /** For a frame of the tracker: its newest track points and new pending points are together, with multiplicity, exactly
      the measurements that lie inside the grid of the frame in a cell that is not too full. */
  lemma FrameConserves(cfg: Config, s: State, frame: Frame, measurements: seq<Measurement>)
    requires Sound(cfg, s) && Admits(s, frame, measurements)
    ensures var o, before := Processed(cfg, s, frame, measurements), Get(s.ptts, frame.camIndex);
            && |o.promotion.fates| == |before|
            && var stay := AgedPtts(before, o.promotion.fates);
               && Keeps(o.ptts, stay)
               && Gained(o.promotion.trs) + PointsOf(o.ptts[|stay|..])
                  == multiset(Pick(measurements, m =>
                       Survives(measurements, m, frame.width, frame.height, cfg.filterSize, cfg.filterLimit)))
  {
    NextParts(cfg, s, frame, measurements);
    var meas := Surviving(cfg, frame, measurements);
    assert meas == Filtered(measurements, frame.width, frame.height, cfg.filterSize, cfg.filterLimit);
    hide *;
    FilterMeaning(measurements, frame.width, frame.height, cfg.filterSize, cfg.filterLimit);
    PointsConserved(cfg, frame, Get(s.trajectories, frame.camIndex), Get(s.ptts, frame.camIndex), meas, s.counter);
  }

  // ----- what the labels name

  lemma {:induction false} ChoicesNamePoints(cfg: Config, frame: Frame, trs: seq<Trajectory>, meas: seq<Measurement>,
                                             taken: seq<bool>, k: nat)
    requires FitsDefined(cfg) && |taken| == |meas| && Stamped(meas, frame.time) && LiveBefore(cfg, trs, frame.time)
    requires k < |trs|
    ensures var r := MatchAll(cfg, frame, trs, meas, taken); TookPoint(r.trs[k], r.choices[k], meas)
    decreases |trs|
  {
    MatchAllOne(cfg, frame, trs, meas, taken);
    var c := Choice(cfg, frame, trs[0], meas, taken);
    hide MatchAll, Live, MatchOne, Choice, Mark, TookPoint;
    if k > 0 {
      ChoicesNamePoints(cfg, frame, trs[1..], meas, Mark(taken, c), k - 1);
      var r, rest := MatchAll(cfg, frame, trs, meas, taken), MatchAll(cfg, frame, trs[1..], meas, Mark(taken, c));
      assert r.trs[k] == rest.trs[k - 1] && r.choices[k] == rest.choices[k - 1];
    } else {
      MatchOneTakes(cfg, frame, trs[0], meas, taken);
    }
  }

  /** The track has exactly these two points, and no frame without one. */
  ghost predicate JustBegan(tr: Trajectory, first: Measurement, second: Measurement) {
    tr.updated && tr.measurements == [first, second] && tr.unconfirmedFramesCount == 0
  }

  /** What a fate says of pending point `p`: the track that it names has `p` and the named measurement as its points, or
      the point stays or expires as its age says. */
  ghost predicate NamesPoints(cfg: Config, p: PTPoint, f: Fate, meas: seq<Measurement>, trs: seq<Trajectory>) {
    match f
    case Started(i, at) => i < |meas| && at < |trs| && JustBegan(trs[at], p.measurement, meas[i])
    case Joined(i, at) => i < |meas| && at < |trs| && JustBegan(trs[at], p.measurement, meas[i])
    case Aged => p.passedFrames + 1 < cfg.maxPttFrames
    case Expired => p.passedFrames + 1 >= cfg.maxPttFrames
  }

  lemma PlacedNames(cfg: Config, trs: seq<Trajectory>, p: PTPoint, meas: seq<Measurement>, i: nat, from: Trajectory)
    requires HasPoints(trs) && i < |meas| && |from.measurements| >= 2 && TimesIncrease(from.measurements)
    requires from.measurements == [p.measurement, meas[i]] && from.unconfirmedFramesCount == 0
    ensures NamesPoints(cfg, p, FateOf(cfg, trs, from, i), meas, Placed(cfg, trs, from))
  {
    hide LinearFit, CanMerge, TimesIncrease;
  }

  lemma StillNamed(cfg: Config, p: PTPoint, f: Fate, meas: seq<Measurement>, trs: seq<Trajectory>, later: seq<Trajectory>)
    requires NamesPoints(cfg, p, f, meas, trs) && |later| >= |trs|
    requires forall k :: 0 <= k < |trs| && trs[k].updated ==> later[k] == trs[k]
    ensures NamesPoints(cfg, p, f, meas, later)
  {
  }

  lemma {:induction false} FatesNamePoints(cfg: Config, frame: Frame, ptts: seq<PTPoint>, meas: seq<Measurement>,
                                           taken: seq<bool>, trs: seq<Trajectory>, counter: nat, j: nat)
    requires |taken| == |meas| && Stamped(meas, frame.time) && PttsBefore(ptts, frame.time) && HasPoints(trs)
    requires j < |ptts|
    ensures var r := PromoteAll(cfg, frame, ptts, meas, taken, trs, counter);
            NamesPoints(cfg, ptts[j], r.fates[j], meas, r.trs)
    decreases |ptts|
  {
    hide PromoteAll, Placed, PttChoice, FateOf, HasPoints, LinearFit, TimesIncrease;
    match PttChoice(cfg, ptts[0].measurement, meas, taken)
    case Some(i) =>
      var from, rest := PromoteOne(cfg, frame, ptts, meas, taken, trs, counter, i);
      hide NamesPoints;
      if j > 0 {
        FatesNamePoints(cfg, frame, ptts[1..], meas, taken[i := true], Placed(cfg, trs, from), counter + 1, j - 1);
        assert ptts[1..][j - 1] == ptts[j];
      } else {
        PlacedNames(cfg, trs, ptts[0], meas, i, from);
        PromoteAllUpdates(cfg, frame, ptts[1..], meas, taken[i := true], Placed(cfg, trs, from), counter + 1);
        StillNamed(cfg, ptts[0], FateOf(cfg, trs, from, i), meas, Placed(cfg, trs, from), rest.trs);
      }
    case None =>
      var f, rest := PromoteNone(cfg, frame, ptts, meas, taken, trs, counter);
      if j > 0 {
        hide NamesPoints;
        FatesNamePoints(cfg, frame, ptts[1..], meas, taken, trs, counter, j - 1);
        assert ptts[1..][j - 1] == ptts[j];
      }
  }

  /** The labels that OneFatePerMeasurement counts are true of the tracks: a choice names the newest point of its track, a
      promotion names the two points of the track that it started or was merged into, and both stay to the end. */
  lemma LabelsNamePoints(cfg: Config, frame: Frame, trs: seq<Trajectory>, ptts: seq<PTPoint>, meas: seq<Measurement>, counter: nat)
    requires Outcomes(cfg, frame, trs, ptts, meas)
    ensures var o := FrameOutcome(cfg, frame, trs, ptts, meas, counter);
            var choices, after, fates := o.matching.choices, o.promotion.trs, o.promotion.fates;
            && |after| >= |trs| == |choices| && |fates| == |ptts|
            && (forall k :: 0 <= k < |trs| && choices[k].Some? ==> TookPoint(after[k], choices[k], meas))
            && (forall j :: 0 <= j < |ptts| ==> NamesPoints(cfg, ptts[j], fates[j], meas, after))
  {
    OutcomeParts(cfg, frame, trs, ptts, meas, counter);
    hide FrameOutcome, MatchAll, PromoteAll, Live, LiveBefore, Stamped, PttsBefore, HasPoints, NamesPoints;
    var a := MatchAll(cfg, frame, trs, meas, AllFree(|meas|));
    var b := PromoteAll(cfg, frame, ptts, meas, a.taken, a.trs, counter);
    PromoteAllUpdates(cfg, frame, ptts, meas, a.taken, a.trs, counter);
    forall k | 0 <= k < |trs| && a.choices[k].Some? ensures TookPoint(b.trs[k], a.choices[k], meas) {
      ChoicesNamePoints(cfg, frame, trs, meas, AllFree(|meas|), k);
    }
    forall j | 0 <= j < |ptts| ensures NamesPoints(cfg, ptts[j], b.fates[j], meas, b.trs) {
      FatesNamePoints(cfg, frame, ptts, meas, a.taken, a.trs, counter, j);
    }
  }
}
