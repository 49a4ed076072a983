/** What holds for every frame: each measurement has one fate, each track absorbs at most once, identities are
    never reused, and no fit divides by zero. */
module TrackTheorems {
  import opened LeastSquares
  import opened Nearest
  import opened Options
  import opened TrackFit
  import opened TrackSpec
  import opened TrackTypes

  // ----- measurements

  /** The measurements that existing tracks took. */
  function Chosen(choices: seq<Option<nat>>): seq<nat> {
    if choices == [] then [] else (if choices[0].Some? then [choices[0].value] else []) + Chosen(choices[1..])
  }

  /** The measurements that pending points took. */
  function Used(fates: seq<Fate>): seq<nat> {
    if fates == [] then []
    else (if fates[0].Started? || fates[0].Joined? then [fates[0].meas] else []) + Used(fates[1..])
  }

  lemma ChosenCons(c: Option<nat>, rest: seq<Option<nat>>)
    ensures Chosen([c] + rest) == (if c.Some? then [c.value] else []) + Chosen(rest)
  {
    assert ([c] + rest)[1..] == rest;
  }

  lemma UsedCons(f: Fate, rest: seq<Fate>)
    ensures Used([f] + rest) == (if f.Started? || f.Joined? then [f.meas] else []) + Used(rest)
  {
    assert ([f] + rest)[1..] == rest;
  }

  function Upto(n: nat): seq<nat> {
    if n == 0 then [] else Upto(n - 1) + [n - 1]
  }

  lemma {:induction false} FreeAtFirst(taken: seq<bool>)
    requires forall i :: 0 <= i < |taken| ==> !taken[i]
    ensures Unassigned(taken) == Upto(|taken|)
  {
    if taken != [] {
      FreeAtFirst(taken[..|taken| - 1]);
    }
  }

  function FreeIndices(taken: seq<bool>): multiset<nat> {
    if taken == [] then multiset{}
    else
      var n := |taken| - 1;
      FreeIndices(taken[..n]) + (if taken[n] then multiset{} else multiset{n})
  }

  lemma {:induction false} UnassignedAre(taken: seq<bool>)
    ensures multiset(Unassigned(taken)) == FreeIndices(taken)
  {
    if taken != [] {
      UnassignedAre(taken[..|taken| - 1]);
    }
  }

  lemma {:induction false} TakeIndex(taken: seq<bool>, i: nat)
    requires i < |taken| && !taken[i]
    ensures FreeIndices(taken) == FreeIndices(taken[i := true]) + multiset{i}
  {
    var n, after := |taken| - 1, taken[i := true];
    if i == n {
      assert after[..n] == taken[..n];
    } else {
      TakeIndex(taken[..n], i);
      assert after[..n] == taken[..n][i := true];
    }
  }

  lemma MarkTakesOne(taken: seq<bool>, i: nat)
    requires i < |taken| && !taken[i]
    ensures multiset(Unassigned(taken)) == multiset([i]) + multiset(Unassigned(taken[i := true]))
  {
    hide *;
    UnassignedAre(taken);
    UnassignedAre(taken[i := true]);
    TakeIndex(taken, i);
  }

  lemma {:induction false} MatchAllFates(cfg: Config, frame: Frame, trs: seq<Trajectory>, meas: seq<Measurement>, taken: seq<bool>)
    requires FitsDefined(cfg) && |taken| == |meas| && Stamped(meas, frame.time) && LiveBefore(cfg, trs, frame.time)
    ensures var r := MatchAll(cfg, frame, trs, meas, taken);
            multiset(Unassigned(taken)) == multiset(Chosen(r.choices)) + multiset(Unassigned(r.taken))
    decreases |trs|
  {
    hide Live, MatchOne, Choice, Unassigned, Chosen, MatchAll, Mark;
    if trs == [] {
      MatchNothing(cfg, frame, meas, taken);
    } else {
      var c := Choice(cfg, frame, trs[0], meas, taken);
      MatchAllOne(cfg, frame, trs, meas, taken);
      MatchAllFates(cfg, frame, trs[1..], meas, Mark(taken, c));
      MarkTakesChoice(taken, c);
      ChosenCons(c, MatchAll(cfg, frame, trs[1..], meas, Mark(taken, c)).choices);
    }
  }

  lemma MatchNothing(cfg: Config, frame: Frame, meas: seq<Measurement>, taken: seq<bool>)
    requires FitsDefined(cfg) && |taken| == |meas| && Stamped(meas, frame.time)
    ensures MatchAll(cfg, frame, [], meas, taken) == Matching([], taken, []) && Chosen([]) == []
  {
  }

  lemma MarkTakesChoice(taken: seq<bool>, c: Option<nat>)
    requires c.Some? ==> c.value < |taken| && !taken[c.value]
    ensures multiset(Unassigned(taken)) == multiset(if c.Some? then [c.value] else []) + multiset(Unassigned(Mark(taken, c)))
  {
    hide Unassigned;
    if c.Some? {
      MarkTakesOne(taken, c.value);
    }
  }

  lemma FateTakes(cfg: Config, trs: seq<Trajectory>, from: Trajectory, i: nat)
    requires HasPoints(trs) && |from.measurements| >= 2 && TimesIncrease(from.measurements)
    ensures HasPoints(Placed(cfg, trs, from))
    ensures var f := FateOf(cfg, trs, from, i); (f.Started? || f.Joined?) && f.meas == i
  {
    hide LinearFit, CanMerge;
  }

  /** The first step of the second stage: a pending point takes measurement `i` ... */
  lemma PromoteOne(cfg: Config, frame: Frame, ptts: seq<PTPoint>, meas: seq<Measurement>, taken: seq<bool>,
                   trs: seq<Trajectory>, counter: nat, i: nat) returns (from: Trajectory, rest: Promotion)
    requires |taken| == |meas| && Stamped(meas, frame.time) && PttsBefore(ptts, frame.time) && HasPoints(trs)
    requires ptts != [] && PttChoice(cfg, ptts[0].measurement, meas, taken) == Some(i)
    ensures i < |meas| && ptts[0].measurement.time < meas[i].time
    ensures from == NewTrajectory(counter, frame.camIndex, ptts[0].measurement, meas[i])
    ensures |from.measurements| == 2 && TimesIncrease(from.measurements) && from.id == counter
    ensures HasPoints(Placed(cfg, trs, from))
    ensures rest == PromoteAll(cfg, frame, ptts[1..], meas, taken[i := true], Placed(cfg, trs, from), counter + 1)
    ensures PromoteAll(cfg, frame, ptts, meas, taken, trs, counter)
            == rest.(fates := [FateOf(cfg, trs, from, i)] + rest.fates)
    ensures var f := FateOf(cfg, trs, from, i); (f.Started? || f.Joined?) && f.meas == i
  {
    hide LinearFit, MergeTarget, Placed, FateOf, PttChoice;
    var p := ptts[0].measurement;
    PairIncreases(p, meas[i]);
    from := NewTrajectory(counter, frame.camIndex, p, meas[i]);
    FateTakes(cfg, trs, from, i);
    rest := PromoteAll(cfg, frame, ptts[1..], meas, taken[i := true], Placed(cfg, trs, from), counter + 1);
  }

  /** ... or none, and then ages or expires. */
  lemma PromoteNone(cfg: Config, frame: Frame, ptts: seq<PTPoint>, meas: seq<Measurement>, taken: seq<bool>,
                    trs: seq<Trajectory>, counter: nat) returns (f: Fate, rest: Promotion)
    requires |taken| == |meas| && Stamped(meas, frame.time) && PttsBefore(ptts, frame.time) && HasPoints(trs)
    requires ptts != [] && PttChoice(cfg, ptts[0].measurement, meas, taken) == None
    ensures f == if ptts[0].passedFrames + 1 < cfg.maxPttFrames then Aged else Expired
    ensures rest == PromoteAll(cfg, frame, ptts[1..], meas, taken, trs, counter)
    ensures PromoteAll(cfg, frame, ptts, meas, taken, trs, counter)
            == rest.(fates := [f] + rest.fates,
                     ptts := (if f.Aged? then [ptts[0].(passedFrames := ptts[0].passedFrames + 1)] else []) + rest.ptts)
  {
    f := if ptts[0].passedFrames + 1 < cfg.maxPttFrames then Aged else Expired;
    rest := PromoteAll(cfg, frame, ptts[1..], meas, taken, trs, counter);
    assert [] + rest.ptts == rest.ptts;
  }

  lemma PromoteNothing(cfg: Config, frame: Frame, meas: seq<Measurement>, taken: seq<bool>, trs: seq<Trajectory>, counter: nat)
    requires |taken| == |meas| && Stamped(meas, frame.time) && HasPoints(trs)
    ensures PromoteAll(cfg, frame, [], meas, taken, trs, counter) == Promotion([], trs, taken, counter, [])
    ensures Used([]) == [] && Joins([]) == [] && AgedPtts([], []) == []
  {
  }

  lemma {:induction false} PromoteAllFates(cfg: Config, frame: Frame, ptts: seq<PTPoint>, meas: seq<Measurement>,
                                           taken: seq<bool>, trs: seq<Trajectory>, counter: nat)
    requires |taken| == |meas| && Stamped(meas, frame.time) && PttsBefore(ptts, frame.time) && HasPoints(trs)
    ensures var r := PromoteAll(cfg, frame, ptts, meas, taken, trs, counter);
            && multiset(Unassigned(taken)) == multiset(Used(r.fates)) + multiset(Unassigned(r.taken))
            && r.counter == counter + |Used(r.fates)|
            && r.ptts == AgedPtts(ptts, r.fates)
    decreases |ptts|
  {
    hide PromoteAll, Placed, PttChoice, FateOf, Unassigned, Used, AgedPtts, HasPoints;
    if ptts == [] {
      PromoteNothing(cfg, frame, meas, taken, trs, counter);
    } else {
      assert ptts == [ptts[0]] + ptts[1..];
      match PttChoice(cfg, ptts[0].measurement, meas, taken)
      case Some(i) =>
        var from, rest := PromoteOne(cfg, frame, ptts, meas, taken, trs, counter, i);
        PromoteAllFates(cfg, frame, ptts[1..], meas, taken[i := true], Placed(cfg, trs, from), counter + 1);
        MarkTakesOne(taken, i);
        UsedCons(FateOf(cfg, trs, from, i), rest.fates);
        AgedCons(ptts[0], ptts[1..], FateOf(cfg, trs, from, i), rest.fates);
      case None =>
        var f, rest := PromoteNone(cfg, frame, ptts, meas, taken, trs, counter);
        PromoteAllFates(cfg, frame, ptts[1..], meas, taken, trs, counter);
        UsedCons(f, rest.fates);
        AgedCons(ptts[0], ptts[1..], f, rest.fates);
    }
  }

  lemma AgedCons(p: PTPoint, ptts: seq<PTPoint>, f: Fate, fates: seq<Fate>)
    requires |fates| == |ptts|
    ensures AgedPtts([p] + ptts, [f] + fates)
            == (if f.Aged? then [p.(passedFrames := p.passedFrames + 1)] else []) + AgedPtts(ptts, fates)
  {
    assert ([p] + ptts)[1..] == ptts && ([f] + fates)[1..] == fates;
  }

  /** The pending points that stay: those that only aged, one frame older, in order. */
  function AgedPtts(ptts: seq<PTPoint>, fates: seq<Fate>): seq<PTPoint>
    requires |fates| == |ptts|
  {
    if ptts == [] then []
    else (if fates[0].Aged? then [ptts[0].(passedFrames := ptts[0].passedFrames + 1)] else [])
         + AgedPtts(ptts[1..], fates[1..])
  }

  /** The measurements whose positions are not used, in order, as pending points of one frame. */
  function LeftOver(meas: seq<Measurement>, used: seq<nat>): seq<PTPoint> {
    if meas == [] then []
    else var n := |meas| - 1; LeftOver(meas[..n], used) + (if n in used then [] else [PTPoint(meas[n], 1)])
  }

  lemma NewPttsSnoc(meas: seq<Measurement>, taken: seq<bool>)
    requires |taken| == |meas| > 0
    ensures var n := |meas| - 1;
            NewPtts(meas, taken) == NewPtts(meas[..n], taken[..n]) + (if taken[n] then [] else [PTPoint(meas[n], 1)])
  {
    var n := |meas| - 1;
    assert Unassigned(taken) == Unassigned(taken[..n]) + (if taken[n] then [] else [n]);
    hide Unassigned;
  }

  lemma {:induction false} NewAreLeftOver(meas: seq<Measurement>, taken: seq<bool>, used: seq<nat>)
    requires |taken| == |meas| && forall i: nat :: i < |meas| ==> (taken[i] <==> i in used)
    ensures NewPtts(meas, taken) == LeftOver(meas, used)
  {
    if meas == [] {
      assert Unassigned(taken) == [];
    } else {
      var n := |meas| - 1;
      NewAreLeftOver(meas[..n], taken[..n], used);
      NewPttsSnoc(meas, taken);
    }
  }

  lemma {:induction false} CountUpto(n: nat, i: nat)
    ensures multiset(Upto(n))[i] == if i < n then 1 else 0
  {
    if n > 0 {
      CountUpto(n - 1, i);
    }
  }

  lemma {:induction false} CountFree(taken: seq<bool>, i: nat)
    ensures multiset(Unassigned(taken))[i] == if i < |taken| && !taken[i] then 1 else 0
  {
    if taken != [] {
      CountFree(taken[..|taken| - 1], i);
    }
  }

  lemma EachOnce(chosen: seq<nat>, used: seq<nat>, taken: seq<bool>)
    requires multiset(chosen) + multiset(used) + multiset(Unassigned(taken)) == multiset(Upto(|taken|))
    ensures forall i: nat :: (multiset(chosen) + multiset(used))[i] <= if i < |taken| then 1 else 0
    ensures forall i: nat :: i < |taken| ==> (taken[i] <==> i in chosen + used)
  {
    hide Unassigned, Upto;
    forall i: nat
      ensures (multiset(chosen) + multiset(used))[i] <= if i < |taken| then 1 else 0
      ensures i < |taken| ==> (taken[i] <==> i in chosen + used)
    {
      CountUpto(|taken|, i);
      CountFree(taken, i);
      assert multiset(Upto(|taken|))[i] == multiset(chosen)[i] + multiset(used)[i] + multiset(Unassigned(taken))[i];
      assert i in chosen + used <==> multiset(chosen)[i] + multiset(used)[i] > 0;
    }
  }

  /** The parts of an outcome, with what they need. */
  lemma OutcomeParts(cfg: Config, frame: Frame, trs: seq<Trajectory>, ptts: seq<PTPoint>, meas: seq<Measurement>, counter: nat)
    requires Outcomes(cfg, frame, trs, ptts, meas)
    ensures FitsDefined(cfg) && Stamped(meas, frame.time) && LiveBefore(cfg, trs, frame.time) && PttsBefore(ptts, frame.time)
    ensures |AllFree(|meas|)| == |meas| && forall i :: 0 <= i < |meas| ==> !AllFree(|meas|)[i]
    ensures var o, a := FrameOutcome(cfg, frame, trs, ptts, meas, counter), MatchAll(cfg, frame, trs, meas, AllFree(|meas|));
            && HasPoints(a.trs) && |a.taken| == |meas| && |a.trs| == |a.choices| == |trs|
            && var b := PromoteAll(cfg, frame, ptts, meas, a.taken, a.trs, counter);
               && o.matching == a && o.promotion == b && |b.taken| == |meas| && |b.fates| == |ptts|
               && o.ptts == b.ptts + NewPtts(meas, b.taken) && o.trajectories == Kept(cfg, WithStatistics(cfg, b.trs))
               && o.newIds == UpdatedIds(o.trajectories, true) && o.updatedIds == UpdatedIds(o.trajectories, false)
               && o.droppedIds == DroppedIds(cfg, WithStatistics(cfg, b.trs))
  {
    hide MatchAll, PromoteAll, NewPtts, Kept, WithStatistics, UpdatedIds, DroppedIds, LiveBefore, Stamped, PttsBefore, HasPoints;
  }

  /** Every measurement of a frame has exactly one fate: one track took it, or one pending point did, or it
      becomes one new pending point. The pending points that stay are those that only aged. */
  lemma OneFatePerMeasurement(cfg: Config, frame: Frame, trs: seq<Trajectory>, ptts: seq<PTPoint>, meas: seq<Measurement>, counter: nat)
    requires Outcomes(cfg, frame, trs, ptts, meas)
    ensures var o := FrameOutcome(cfg, frame, trs, ptts, meas, counter);
            var chosen, used := Chosen(o.matching.choices), Used(o.promotion.fates);
            && (forall i: nat :: (multiset(chosen) + multiset(used))[i] <= if i < |meas| then 1 else 0)
            && |o.promotion.fates| == |ptts| && o.ptts == AgedPtts(ptts, o.promotion.fates) + LeftOver(meas, chosen + used)
            && o.promotion.counter == counter + |used|
  {
    OutcomeParts(cfg, frame, trs, ptts, meas, counter);
    hide *;
    var a := MatchAll(cfg, frame, trs, meas, AllFree(|meas|));
    var b := PromoteAll(cfg, frame, ptts, meas, a.taken, a.trs, counter);
    FreeAtFirst(AllFree(|meas|));
    MatchAllFates(cfg, frame, trs, meas, AllFree(|meas|));
    PromoteAllFates(cfg, frame, ptts, meas, a.taken, a.trs, counter);
    FatesLeave(meas, Chosen(a.choices), Used(b.fates), a.taken, b.taken);
  }

  lemma FatesLeave(meas: seq<Measurement>, chosen: seq<nat>, used: seq<nat>, between: seq<bool>, taken: seq<bool>)
    requires |taken| == |meas|
    requires multiset(Upto(|meas|)) == multiset(chosen) + multiset(Unassigned(between))
    requires multiset(Unassigned(between)) == multiset(used) + multiset(Unassigned(taken))
    ensures forall i: nat :: (multiset(chosen) + multiset(used))[i] <= if i < |meas| then 1 else 0
    ensures NewPtts(meas, taken) == LeftOver(meas, chosen + used)
  {
    hide *;
    EachOnce(chosen, used, taken);
    NewAreLeftOver(meas, taken, chosen + used);
  }

  // ----- tracks

  /** The positions of the updated tracks. */
  function UpdatedAt(trs: seq<Trajectory>): (s: seq<nat>)
    ensures forall k :: k in s ==> k < |trs|
  {
    if trs == [] then []
    else var n := |trs| - 1; UpdatedAt(trs[..n]) + (if trs[n].updated then [n] else [])
  }

  lemma {:induction false} UpdatedOnce(trs: seq<Trajectory>, k: nat)
    ensures multiset(UpdatedAt(trs))[k] == if k < |trs| && trs[k].updated then 1 else 0
  {
    if trs != [] {
      var n := |trs| - 1;
      hide UpdatedAt;
      UpdatedOnce(trs[..n], k);
      UpdatedSnoc(trs[..n], trs[n]);
      assert trs[..n] + [trs[n]] == trs;
      CountSnoc(UpdatedAt(trs[..n]), n, k);
    }
  }

  lemma CountSnoc(s: seq<nat>, x: nat, k: nat)
    ensures multiset(s + [x])[k] == multiset(s)[k] + (if x == k then 1 else 0) && s + [] == s
  {
  }

  /** The positions of the tracks that took a measurement. */
  function Takers(choices: seq<Option<nat>>): seq<nat> {
    if choices == [] then []
    else var n := |choices| - 1; Takers(choices[..n]) + (if choices[n].Some? then [n] else [])
  }

  lemma {:induction false} TakersAreUpdated(trs: seq<Trajectory>, choices: seq<Option<nat>>)
    requires |trs| == |choices| && forall k :: 0 <= k < |trs| ==> trs[k].updated == choices[k].Some?
    ensures UpdatedAt(trs) == Takers(choices)
  {
    if trs != [] {
      var n := |trs| - 1;
      TakersAreUpdated(trs[..n], choices[..n]);
    }
  }

  /** The positions of the tracks that pending points started or were merged into. */
  function Joins(fates: seq<Fate>): seq<nat> {
    if fates == [] then []
    else (if fates[0].Started? || fates[0].Joined? then [fates[0].at] else []) + Joins(fates[1..])
  }

  lemma UpdatedSnoc(trs: seq<Trajectory>, tr: Trajectory)
    ensures UpdatedAt(trs + [tr]) == UpdatedAt(trs) + (if tr.updated then [|trs|] else [])
  {
    assert (trs + [tr])[..|trs|] == trs;
  }

  lemma {:induction false} UpdateOne(trs: seq<Trajectory>, k: nat, tr: Trajectory)
    requires k < |trs| && !trs[k].updated && tr.updated
    ensures multiset(UpdatedAt(trs[k := tr])) == multiset(UpdatedAt(trs)) + multiset([k])
  {
    hide UpdatedAt;
    var n := |trs| - 1;
    UpdatedSnoc(trs[..n], trs[n]);
    assert trs == trs[..n] + [trs[n]];
    if k == n {
      UpdatedSnoc(trs[..n], tr);
      assert trs[k := tr] == trs[..n] + [tr];
    } else {
      UpdateOne(trs[..n], k, tr);
      UpdatedSnoc(trs[..n][k := tr], trs[n]);
      assert trs[k := tr] == trs[..n][k := tr] + [trs[n]];
    }
  }

  lemma PlacedUpdates(cfg: Config, trs: seq<Trajectory>, from: Trajectory, i: nat)
    requires HasPoints(trs) && |from.measurements| >= 2 && TimesIncrease(from.measurements)
    ensures var at := FateOf(cfg, trs, from, i).at;
            multiset(UpdatedAt(Placed(cfg, trs, from))) == multiset(UpdatedAt(trs)) + multiset([at])
    ensures var f := FateOf(cfg, trs, from, i); (f.Started? || f.Joined?) && f.meas == i
    ensures HasPoints(Placed(cfg, trs, from))
  {
    hide LinearFit;
    match MergeTarget(cfg, trs, from)
    case Some(k) =>
      UpdateOne(trs, k, Merged(trs[k], from));
    case None =>
      var more := trs + [from.(updated := true)];
      assert more[..|trs|] == trs;
  }

  lemma {:induction false} PromoteAllJoins(cfg: Config, frame: Frame, ptts: seq<PTPoint>, meas: seq<Measurement>,
                                           taken: seq<bool>, trs: seq<Trajectory>, counter: nat)
    requires |taken| == |meas| && Stamped(meas, frame.time) && PttsBefore(ptts, frame.time) && HasPoints(trs)
    ensures var r := PromoteAll(cfg, frame, ptts, meas, taken, trs, counter);
            multiset(UpdatedAt(r.trs)) == multiset(UpdatedAt(trs)) + multiset(Joins(r.fates))
    decreases |ptts|
  {
    hide PromoteAll, Placed, PttChoice, FateOf, UpdatedAt, Joins, HasPoints;
    if ptts == [] {
      PromoteNothing(cfg, frame, meas, taken, trs, counter);
    } else {
      match PttChoice(cfg, ptts[0].measurement, meas, taken)
      case Some(i) =>
        var from, rest := PromoteOne(cfg, frame, ptts, meas, taken, trs, counter, i);
        PlacedUpdates(cfg, trs, from, i);
        PromoteAllJoins(cfg, frame, ptts[1..], meas, taken[i := true], Placed(cfg, trs, from), counter + 1);
        JoinsCons(FateOf(cfg, trs, from, i), rest.fates);
      case None =>
        var f, rest := PromoteNone(cfg, frame, ptts, meas, taken, trs, counter);
        PromoteAllJoins(cfg, frame, ptts[1..], meas, taken, trs, counter);
        JoinsCons(f, rest.fates);
    }
  }

  lemma JoinsCons(f: Fate, rest: seq<Fate>)
    ensures Joins([f] + rest) == (if f.Started? || f.Joined? then [f.at] else []) + Joins(rest)
  {
    assert ([f] + rest)[1..] == rest;
  }

  /** A track absorbs at most one measurement or one merge in a frame, and is marked updated exactly then. */
  lemma OneUpdatePerTrack(cfg: Config, frame: Frame, trs: seq<Trajectory>, ptts: seq<PTPoint>, meas: seq<Measurement>, counter: nat)
    requires Outcomes(cfg, frame, trs, ptts, meas)
    ensures var o := FrameOutcome(cfg, frame, trs, ptts, meas, counter);
            forall k :: 0 <= k < |o.promotion.trs| ==>
              (multiset(Takers(o.matching.choices)) + multiset(Joins(o.promotion.fates)))[k]
              == if o.promotion.trs[k].updated then 1 else 0
  {
    OutcomeParts(cfg, frame, trs, ptts, meas, counter);
    hide *;
    var a := MatchAll(cfg, frame, trs, meas, AllFree(|meas|));
    var b := PromoteAll(cfg, frame, ptts, meas, a.taken, a.trs, counter);
    MatchAllLive(cfg, frame, trs, meas, AllFree(|meas|));
    TakersAreUpdated(a.trs, a.choices);
    PromoteAllJoins(cfg, frame, ptts, meas, a.taken, a.trs, counter);
    forall k | 0 <= k < |b.trs|
      ensures (multiset(Takers(a.choices)) + multiset(Joins(b.fates)))[k] == if b.trs[k].updated then 1 else 0
    {
      UpdatedOnce(b.trs, k);
    }
  }

  // ----- identities

  ghost predicate DistinctIds(trs: seq<Trajectory>, counter: nat) {
    && (forall k :: 0 <= k < |trs| ==> trs[k].id < counter)
    && (forall j, k :: 0 <= j < k < |trs| ==> trs[j].id != trs[k].id)
  }

  /** The old tracks keep their identities, and the new ones have some that were handed out in between. */
  ghost predicate IdsKept(trs: seq<Trajectory>, counter: nat, after: seq<Trajectory>, counter': nat) {
    && counter' >= counter && DistinctIds(after, counter')
    && |after| >= |trs| && (forall k :: 0 <= k < |trs| ==> after[k].id == trs[k].id)
    && (forall k :: |trs| <= k < |after| ==> after[k].id >= counter)
  }

  lemma IdsKeptTwice(trs: seq<Trajectory>, counter: nat, mid: seq<Trajectory>, counter': nat, after: seq<Trajectory>, counter'': nat)
    requires IdsKept(trs, counter, mid, counter') && IdsKept(mid, counter', after, counter'')
    ensures IdsKept(trs, counter, after, counter'')
  {
    hide DistinctIds;
  }

  /** The tracks of a frame keep their identity; the new ones get identities that were never used. */
  lemma {:induction false} PromoteAllIds(cfg: Config, frame: Frame, ptts: seq<PTPoint>, meas: seq<Measurement>,
                                         taken: seq<bool>, trs: seq<Trajectory>, counter: nat)
    requires |taken| == |meas| && Stamped(meas, frame.time) && PttsBefore(ptts, frame.time) && HasPoints(trs)
    requires DistinctIds(trs, counter)
    ensures var r := PromoteAll(cfg, frame, ptts, meas, taken, trs, counter);
            IdsKept(trs, counter, r.trs, r.counter) && r.counter >= counter && DistinctIds(r.trs, r.counter)
    decreases |ptts|
  {
    if ptts == [] {
      PromoteNothing(cfg, frame, meas, taken, trs, counter);
    } else {
      hide PromoteAll, Placed, PttChoice, FateOf, HasPoints, IdsKept, DistinctIds;
      match PttChoice(cfg, ptts[0].measurement, meas, taken)
      case Some(i) =>
        var from, rest := PromoteOne(cfg, frame, ptts, meas, taken, trs, counter, i);
        PlacedIds(cfg, trs, from, counter);
        PromoteAllIds(cfg, frame, ptts[1..], meas, taken[i := true], Placed(cfg, trs, from), counter + 1);
        IdsKeptTwice(trs, counter, Placed(cfg, trs, from), counter + 1, rest.trs, rest.counter);
      case None =>
        var f, rest := PromoteNone(cfg, frame, ptts, meas, taken, trs, counter);
        PromoteAllIds(cfg, frame, ptts[1..], meas, taken, trs, counter);
    }
  }

  lemma PlacedIds(cfg: Config, trs: seq<Trajectory>, from: Trajectory, counter: nat)
    requires HasPoints(trs) && |from.measurements| >= 2 && TimesIncrease(from.measurements)
    requires DistinctIds(trs, counter) && from.id == counter
    ensures var r := Placed(cfg, trs, from);
            HasPoints(r) && DistinctIds(r, counter + 1) && IdsKept(trs, counter, r, counter + 1)
  {
    match MergeTarget(cfg, trs, from)
    case Some(k) =>
      MergedId(trs[k], from);
      hide LinearFit, Merged, CanMerge, MergeTarget;
    case None =>
      hide LinearFit, CanMerge, MergeTarget;
  }

  lemma MergedId(to: Trajectory, from: Trajectory)
    requires |from.measurements| >= 2 && TimesIncrease(from.measurements)
    ensures Merged(to, from).id == to.id && Merged(to, from).measurements != []
  {
    hide LinearFit;
  }

  // ----- the end of the frame

  function IdsOf(trs: seq<Trajectory>): seq<nat> {
    if trs == [] then [] else var n := |trs| - 1; IdsOf(trs[..n]) + [trs[n].id]
  }

  /** Every track is kept or reported as dropped, not both. */
  lemma {:induction false} KeptOrDropped(cfg: Config, trs: seq<Trajectory>)
    ensures multiset(IdsOf(Kept(cfg, trs))) + multiset(DroppedIds(cfg, trs)) == multiset(IdsOf(trs))
  {
    hide MatchesRequirements, Kept, DroppedIds, IdsOf;
    if trs == [] {
      NoneKept(cfg);
    } else {
      var n := |trs| - 1;
      KeptOrDropped(cfg, trs[..n]);
      KeptSnoc(cfg, trs);
      IdsSnoc(Kept(cfg, trs[..n]), trs[n]);
      IdsSnoc(trs[..n], trs[n]);
      assert trs == trs[..n] + [trs[n]];
    }
  }

  lemma NoneKept(cfg: Config)
    ensures Kept(cfg, []) == [] && DroppedIds(cfg, []) == [] && IdsOf([]) == []
  {
  }

  lemma KeptSnoc(cfg: Config, trs: seq<Trajectory>)
    requires trs != []
    ensures var n := |trs| - 1; var keep := MatchesRequirements(cfg, trs[n], true);
            && Kept(cfg, trs) == (if keep then Kept(cfg, trs[..n]) + [trs[n]] else Kept(cfg, trs[..n]))
            && DroppedIds(cfg, trs) == (if keep then DroppedIds(cfg, trs[..n]) else DroppedIds(cfg, trs[..n]) + [trs[n].id])
  {
    hide MatchesRequirements;
  }

  lemma IdsSnoc(trs: seq<Trajectory>, tr: Trajectory)
    ensures IdsOf(trs + [tr]) == IdsOf(trs) + [tr.id] && IdsOf([]) == []
  {
    assert (trs + [tr])[..|trs|] == trs;
  }

  /** Dropping keeps the order and never changes a track. */
  lemma {:induction false} KeptMembers(cfg: Config, trs: seq<Trajectory>, counter: nat)
    requires DistinctIds(trs, counter)
    ensures var r := Kept(cfg, trs);
            && DistinctIds(r, counter)
            && (forall k :: 0 <= k < |r| ==> r[k] in trs && MatchesRequirements(cfg, r[k], true))
  {
    if trs != [] {
      hide MatchesRequirements;
      KeptMembers(cfg, trs[..|trs| - 1], counter);
    }
  }

  // ----- when a fit divides by zero

  /** The denominator that a track divides by when it is refitted on the window `w`. */
  function RefitDenominator(cfg: Config, w: Window): real
    requires w != []
  {
    var m := MomentsOf(TimesOf(w, w[0].time));
    if cfg.linearModel then LinearDenominator(m) else QuadraticDenominator(m)
  }

  /** A track that absorbs a measurement divides by zero if and only if the model is quadratic and windows
      are limited to two points. */
  lemma RefitDividesByZeroIff(cfg: Config, w: Window, m: Measurement)
    requires |w| >= 2 && TimesIncrease(w) && w[|w| - 1].time < m.time
    requires cfg.maxTrackingFrames >= 2 ==> |w| <= cfg.maxTrackingFrames
    ensures RefitDenominator(cfg, Extended(cfg, w, m)) == 0.0 <==> !FitsDefined(cfg)
  {
    hide LinearDenominator, QuadraticDenominator, MomentsOf;
    var v := Extended(cfg, w, m);
    assert TimesIncrease(v) && |v| >= 2;
    assert |v| == 2 <==> cfg.maxTrackingFrames == 2;
    Solvable(v);
  }

  // ----- what a track predicts

  lemma BestIsOnCurve(ts: seq<real>, xs: seq<real>, p: Parabola, q: Parabola)
    requires |ts| == |xs| && LiesOn(ts, xs, q)
    requires (BestLine(ts, xs, p) && q.a == 0.0) || BestParabola(ts, xs, p)
    ensures p == q
  {
    hide Error, Value;
    ErrorNonNegative(ts, xs, p);
    ErrorNonNegative(ts, xs, q);
  }

  /** Where a track looks for its object: if the points of its window are those of an object that moves uniformly or, when
      the model is quadratic and there are three points or more, accelerates uniformly, exactly where the object is. */
  lemma PredictionIsExact(cfg: Config, frame: Frame, tr: Trajectory, f: Fit)
    requires Live(cfg, tr) && MovesAlong(tr.measurements, tr.time0, f)
    requires cfg.linearModel || |tr.measurements| == 2 ==> f.x.a == 0.0 && f.y.a == 0.0 && f.z.a == 0.0
    ensures Prediction(cfg, frame, tr).p == PositionAt(f, Seconds(tr.time0, frame.time))
  {
    hide LiesOn, BestLine, BestParabola, Seconds, TimesOf, XsOf, YsOf, ZsOf, TimesIncrease;
    var w := tr.measurements;
    var ts := TimesOf(w, tr.time0);
    BestIsOnCurve(ts, XsOf(w), tr.fit.x, f.x);
    BestIsOnCurve(ts, YsOf(w), tr.fit.y, f.y);
    BestIsOnCurve(ts, ZsOf(w), tr.fit.z, f.z);
    assert tr.fit == f;
  }
}
