/** Pairs the detections of two cameras (datapro2/src/datapro2MultiVision.cpp): camera by camera-1 index, each
    detection takes the nearest one of camera 2 that is still free and within the threshold. */
module CameraMatch {
  import opened Nearest
  import opened Options

  /** One detection: its centre, and whatever else is recorded of it. */
  datatype Detection = Detection(x: real, y: real, other: int)

  datatype DataRes = DataRes(header: int, meas: seq<Detection>)

  /** The two lists, and the formulas that are kept abstract: the homography and the Euclidean distance. A
      distance that is not below `maxDistance`, the largest number, is never the best one. */
  datatype Scene = Scene(
    meas1: seq<Detection>, meas2: seq<Detection>,
    project: (real, real) -> (real, real),
    distance: ((real, real), (real, real)) -> real,
    threshold: real, maxDistance: real)
  {
    function Cost(i1: nat, i2: nat): real
      requires i1 < |meas1| && i2 < |meas2|
    {
      distance(project(meas1[i1].x, meas1[i1].y), (meas2[i2].x, meas2[i2].y))
    }

    /** The two detections may be the same object. */
    predicate Close(i1: nat, i2: nat)
      requires i1 < |meas1| && i2 < |meas2|
    {
      Cost(i1, i2) <= threshold && Cost(i1, i2) < maxDistance
    }

    function Candidate(i1: nat, i2: nat, taken: seq<bool>): Option<real>
      requires i1 < |meas1| && i2 < |meas2| == |taken|
    {
      if !taken[i2] && Cost(i1, i2) <= threshold then Some(Cost(i1, i2)) else None
    }

    function Candidates(i1: nat, taken: seq<bool>): (costs: seq<Option<real>>)
      requires i1 < |meas1| && |taken| == |meas2|
      ensures |costs| == |taken|
    {
      seq(|taken|, i2 requires 0 <= i2 < |taken| => Candidate(i1, i2, taken))
    }

    function BestFor(i1: nat, taken: seq<bool>): (best: Option<nat>)
      requires i1 < |meas1| && |taken| == |meas2|
      ensures best.Some? ==> best.value < |taken|
    {
      NearestOf(Candidates(i1, taken), maxDistance)
    }
  }

  type Pair = (nat, nat)

  /** The pairs for the camera-1 detections from `i1` on. */
  function PairsFrom(s: Scene, i1: nat, taken: seq<bool>): (ps: seq<Pair>)
    requires i1 <= |s.meas1| && |taken| == |s.meas2|
    ensures forall a :: 0 <= a < |ps| ==> i1 <= ps[a].0 < |s.meas1| && ps[a].1 < |s.meas2|
    decreases |s.meas1| - i1
  {
    if i1 == |s.meas1| then []
    else
      match s.BestFor(i1, taken)
      case Some(k) => [(i1, k)] + PairsFrom(s, i1 + 1, taken[k := true])
      case None => PairsFrom(s, i1 + 1, taken)
  }

  function Pairs(s: Scene): (ps: seq<Pair>)
    ensures forall a :: 0 <= a < |ps| ==> ps[a].0 < |s.meas1| && ps[a].1 < |s.meas2|
  {
    PairsFrom(s, 0, AllFree(|s.meas2|))
  }

  // ----- what a greedy matching is

  predicate InRange(s: Scene, ps: seq<Pair>) {
    forall a :: 0 <= a < |ps| ==> ps[a].0 < |s.meas1| && ps[a].1 < |s.meas2|
  }

  /** No pair of an earlier camera-1 detection has taken `i2`. */
  predicate Free(ps: seq<Pair>, taken: seq<bool>, i1: nat, i2: nat)
    requires i2 < |taken|
  {
    !taken[i2] && forall a :: 0 <= a < |ps| && ps[a].0 < i1 ==> ps[a].1 != i2
  }

  /** `k` is free, close, nearest of the free and close ones, and the first of the nearest. */
  ghost predicate TakesNearest(s: Scene, ps: seq<Pair>, taken: seq<bool>, i1: nat, k: nat)
    requires |taken| == |s.meas2| && i1 < |s.meas1| && k < |s.meas2|
  {
    && Free(ps, taken, i1, k) && s.Close(i1, k)
    && forall j: nat :: j < |s.meas2| && Free(ps, taken, i1, j) && s.Close(i1, j) ==>
         s.Cost(i1, k) <= s.Cost(i1, j) && (j < k ==> s.Cost(i1, k) < s.Cost(i1, j))
  }

  ghost predicate NothingLeft(s: Scene, ps: seq<Pair>, taken: seq<bool>, i1: nat)
    requires |taken| == |s.meas2| && i1 < |s.meas1|
  {
    forall j: nat :: j < |s.meas2| && Free(ps, taken, i1, j) ==> !s.Close(i1, j)
  }

  predicate Increasing(ps: seq<Pair>) {
    forall a, b :: 0 <= a < b < |ps| ==> ps[a].0 < ps[b].0
  }

  predicate Unpaired(ps: seq<Pair>, i1: nat) {
    forall a :: 0 <= a < |ps| ==> ps[a].0 != i1
  }

  ghost predicate Greedy(s: Scene, ps: seq<Pair>, from: nat, taken: seq<bool>)
    requires |taken| == |s.meas2|
  {
    && InRange(s, ps) && Increasing(ps)
    && (forall a :: 0 <= a < |ps| ==> from <= ps[a].0 && TakesNearest(s, ps, taken, ps[a].0, ps[a].1))
    && (forall i1: nat :: from <= i1 < |s.meas1| && Unpaired(ps, i1) ==> NothingLeft(s, ps, taken, i1))
  }

  lemma NearestIsUnique(costs: seq<Option<real>>, limit: real, a: Option<nat>, b: Option<nat>)
    requires IsNearest(costs, limit, a) && IsNearest(costs, limit, b)
    ensures a == b
  {
  }

  /** The loop's choice is the nearest free and close detection. */
  lemma BestForMeans(s: Scene, ps: seq<Pair>, i1: nat, taken: seq<bool>)
    requires i1 < |s.meas1| && |taken| == |s.meas2|
    requires forall a :: 0 <= a < |ps| ==> i1 <= ps[a].0
    ensures var c := s.BestFor(i1, taken);
            && (c.Some? ==> TakesNearest(s, ps, taken, i1, c.value))
            && (c == None <==> NothingLeft(s, ps, taken, i1))
            && forall k: nat :: k < |s.meas2| && TakesNearest(s, ps, taken, i1, k) ==> c == Some(k)
  {
    var costs, c := s.Candidates(i1, taken), s.BestFor(i1, taken);
    assert forall j :: 0 <= j < |costs| ==> costs[j] == s.Candidate(i1, j, taken);
    assert forall j: nat :: j < |taken| ==> Free(ps, taken, i1, j) == !taken[j];
    assert IsNearest(costs, s.maxDistance, c);
    forall j: nat | j < |s.meas2| && Free(ps, taken, i1, j) && s.Close(i1, j)
      ensures c.Some? && s.Cost(i1, c.value) <= s.Cost(i1, j) && (c.value > j ==> s.Cost(i1, c.value) < s.Cost(i1, j))
    {
      assert costs[j] == Some(s.Cost(i1, j));
    }
    forall k: nat | k < |s.meas2| && TakesNearest(s, ps, taken, i1, k) ensures c == Some(k) {
      assert IsNearest(costs, s.maxDistance, Some(k));
      NearestIsUnique(costs, s.maxDistance, c, Some(k));
    }
  }

  /** After the first pair, what is free for the others stays the same. */
  lemma FreeAfter(ps: seq<Pair>, i: nat, k: nat, taken: seq<bool>, i1: nat, i2: nat)
    requires i < i1 && i2 < |taken| && k < |taken|
    ensures Free([(i, k)] + ps, taken, i1, i2) == Free(ps, taken[k := true], i1, i2)
  {
    var qs := [(i, k)] + ps;
    assert qs[0] == (i, k) && forall a :: 0 <= a < |ps| ==> qs[a + 1] == ps[a];
  }

  lemma LaterSame(s: Scene, ps: seq<Pair>, i: nat, k: nat, taken: seq<bool>, i1: nat)
    requires |taken| == |s.meas2| && k < |taken| && i < i1 < |s.meas1|
    ensures var qs, after := [(i, k)] + ps, taken[k := true];
            && NothingLeft(s, qs, taken, i1) == NothingLeft(s, ps, after, i1)
            && (forall j: nat :: j < |taken| ==> TakesNearest(s, qs, taken, i1, j) == TakesNearest(s, ps, after, i1, j))
  {
    hide Free;
    forall j: nat | j < |taken| ensures Free([(i, k)] + ps, taken, i1, j) == Free(ps, taken[k := true], i1, j) {
      FreeAfter(ps, i, k, taken, i1, j);
    }
  }

  lemma FirstPair(ps: seq<Pair>, i: nat, k: nat)
    ensures var qs := [(i, k)] + ps;
            && |qs| == |ps| + 1 && qs[0] == (i, k) && (forall a :: 0 <= a < |ps| ==> qs[a + 1] == ps[a])
            && !Unpaired(qs, i) && (forall i1: nat :: i < i1 ==> Unpaired(qs, i1) == Unpaired(ps, i1))
            && (Increasing(qs) <==> Increasing(ps) && forall a :: 0 <= a < |ps| ==> i < ps[a].0)
  {
    var qs := [(i, k)] + ps;
    assert qs[0] == (i, k);
    FirstIncreasing(ps, i, k);
    assert !Unpaired(qs, i);
    hide Increasing, Unpaired;
    forall i1: nat | i < i1 ensures Unpaired(qs, i1) == Unpaired(ps, i1) {
      UnpairedLater(ps, i, k, i1);
    }
  }

  lemma UnpairedLater(ps: seq<Pair>, i: nat, k: nat, i1: nat)
    requires i < i1
    ensures Unpaired([(i, k)] + ps, i1) == Unpaired(ps, i1)
  {
    var qs := [(i, k)] + ps;
    if !Unpaired(ps, i1) {
      var a :| 0 <= a < |ps| && ps[a].0 == i1;
      assert qs[a + 1].0 == i1;
    }
  }

  lemma FirstIncreasing(ps: seq<Pair>, i: nat, k: nat)
    ensures Increasing([(i, k)] + ps) <==> Increasing(ps) && forall a :: 0 <= a < |ps| ==> i < ps[a].0
  {
    var qs := [(i, k)] + ps;
    assert qs[0] == (i, k);
    if Increasing(qs) {
      forall a, b | 0 <= a < b < |ps| ensures ps[a].0 < ps[b].0 {
        assert qs[a + 1].0 < qs[b + 1].0;
      }
      forall a | 0 <= a < |ps| ensures i < ps[a].0 {
        assert qs[0].0 < qs[a + 1].0;
      }
    }
  }

  lemma GreedyTail(s: Scene, ps: seq<Pair>, i: nat, k: nat, taken: seq<bool>)
    requires |taken| == |s.meas2| && i < |s.meas1| && k < |taken|
    requires Greedy(s, [(i, k)] + ps, i, taken)
    ensures s.BestFor(i, taken) == Some(k) && Greedy(s, ps, i + 1, taken[k := true])
  {
    var qs := [(i, k)] + ps;
    FirstPair(ps, i, k);
    BestForMeans(s, qs, i, taken);
    hide TakesNearest, NothingLeft, Unpaired, Increasing;
    forall i1: nat | i < i1 < |s.meas1| && Unpaired(ps, i1) ensures NothingLeft(s, ps, taken[k := true], i1) {
      LaterSame(s, ps, i, k, taken, i1);
    }
    forall a | 0 <= a < |ps|
      ensures ps[a].0 < |s.meas1| && ps[a].1 < |s.meas2| && TakesNearest(s, ps, taken[k := true], ps[a].0, ps[a].1)
    {
      assert qs[a + 1] == ps[a];
      LaterSame(s, ps, i, k, taken, ps[a].0);
    }
  }

  lemma GreedyHead(s: Scene, ps: seq<Pair>, i: nat, k: nat, taken: seq<bool>)
    requires |taken| == |s.meas2| && i < |s.meas1| && k < |taken|
    requires s.BestFor(i, taken) == Some(k) && Greedy(s, ps, i + 1, taken[k := true])
    ensures Greedy(s, [(i, k)] + ps, i, taken)
  {
    var qs := [(i, k)] + ps;
    FirstPair(ps, i, k);
    BestForMeans(s, qs, i, taken);
    hide TakesNearest, NothingLeft, Unpaired, Increasing;
    forall i1: nat | i < i1 < |s.meas1| && Unpaired(qs, i1) ensures NothingLeft(s, qs, taken, i1) {
      LaterSame(s, ps, i, k, taken, i1);
    }
    forall a | 0 <= a < |qs|
      ensures qs[a].0 < |s.meas1| && qs[a].1 < |s.meas2| && TakesNearest(s, qs, taken, qs[a].0, qs[a].1)
    {
      if a > 0 {
        assert qs[a] == ps[a - 1];
        LaterSame(s, ps, i, k, taken, ps[a - 1].0);
      }
    }
  }

  lemma GreedySkip(s: Scene, ps: seq<Pair>, i: nat, taken: seq<bool>)
    requires |taken| == |s.meas2| && i < |s.meas1|
    requires forall a :: 0 <= a < |ps| ==> i < ps[a].0
    ensures Greedy(s, ps, i, taken) <==> s.BestFor(i, taken) == None && Greedy(s, ps, i + 1, taken)
  {
    BestForMeans(s, ps, i, taken);
    assert Unpaired(ps, i);
  }

  /** The loop computes the only greedy matching. */
  lemma {:induction false} PairsFromIsGreedy(s: Scene, ps: seq<Pair>, i: nat, taken: seq<bool>)
    requires |taken| == |s.meas2| && i <= |s.meas1|
    ensures Greedy(s, ps, i, taken) <==> ps == PairsFrom(s, i, taken)
    decreases |s.meas1| - i
  {
    hide *;
    if i == |s.meas1| {
      NoneLeft(s, ps, taken);
    } else {
      if ps != [] && ps[0].0 == i && ps[0].1 < |taken| {
        var k := ps[0].1;
        FirstChosen(s, ps, i, taken);
        PairsFromIsGreedy(s, ps[1..], i + 1, taken[k := true]);
      } else {
        PairsFromLater(s, ps, i, taken);
        if forall a :: 0 <= a < |ps| ==> i < ps[a].0 {
          NoneChosen(s, ps, i, taken);
          PairsFromIsGreedy(s, ps, i + 1, taken);
        }
      }
    }
  }

  lemma NoneLeft(s: Scene, ps: seq<Pair>, taken: seq<bool>)
    requires |taken| == |s.meas2|
    ensures Greedy(s, ps, |s.meas1|, taken) <==> ps == PairsFrom(s, |s.meas1|, taken)
  {
    if ps != [] {
      assert |s.meas1| > ps[0].0 || ps[0].0 >= |s.meas1|;
    }
  }

  /** A first pair for detection `i` is right exactly when it is the loop's choice and the others are right. */
  lemma FirstChosen(s: Scene, ps: seq<Pair>, i: nat, taken: seq<bool>)
    requires |taken| == |s.meas2| && i < |s.meas1| && ps != [] && ps[0].0 == i && ps[0].1 < |taken|
    ensures var k := ps[0].1; var rest, chosen := taken[k := true], s.BestFor(i, taken) == Some(k);
            && (Greedy(s, ps, i, taken) <==> chosen && Greedy(s, ps[1..], i + 1, rest))
            && (ps == PairsFrom(s, i, taken) <==> chosen && ps[1..] == PairsFrom(s, i + 1, rest))
  {
    var k := ps[0].1;
    assert ps == [(i, k)] + ps[1..];
    hide Greedy, Scene.BestFor;
    if Greedy(s, ps, i, taken) {
      GreedyTail(s, ps[1..], i, k, taken);
    }
    if s.BestFor(i, taken) == Some(k) && Greedy(s, ps[1..], i + 1, taken[k := true]) {
      GreedyHead(s, ps[1..], i, k, taken);
    }
  }

  lemma NoneChosen(s: Scene, ps: seq<Pair>, i: nat, taken: seq<bool>)
    requires |taken| == |s.meas2| && i < |s.meas1|
    requires forall a :: 0 <= a < |ps| ==> i < ps[a].0
    ensures var none := s.BestFor(i, taken) == None;
            && (Greedy(s, ps, i, taken) <==> none && Greedy(s, ps, i + 1, taken))
            && (ps == PairsFrom(s, i, taken) <==> none && ps == PairsFrom(s, i + 1, taken))
  {
    hide Greedy, Scene.BestFor;
    GreedySkip(s, ps, i, taken);
    if s.BestFor(i, taken).Some? {
      var whole := PairsFrom(s, i, taken);
      assert whole != [] && whole[0].0 == i;
    }
  }

  /** A matching whose first pair is not one of detection `i` has all its pairs later, or is not greedy from `i`. */
  lemma PairsFromLater(s: Scene, ps: seq<Pair>, i: nat, taken: seq<bool>)
    requires |taken| == |s.meas2| && i < |s.meas1|
    requires !(ps != [] && ps[0].0 == i && ps[0].1 < |taken|)
    ensures Greedy(s, ps, i, taken) || ps == PairsFrom(s, i, taken) ==> forall a :: 0 <= a < |ps| ==> i < ps[a].0
  {
    if Greedy(s, ps, i, taken) {
      forall a | 0 <= a < |ps| ensures i < ps[a].0 {
        assert i <= ps[0].0 && ps[0].1 < |s.meas2|;
      }
    }
  }

  ghost predicate GreedyMatching(s: Scene, ps: seq<Pair>) {
    Greedy(s, ps, 0, AllFree(|s.meas2|))
  }

  lemma PairsAreGreedy(s: Scene, ps: seq<Pair>)
    ensures GreedyMatching(s, ps) <==> ps == Pairs(s)
  {
    PairsFromIsGreedy(s, ps, 0, AllFree(|s.meas2|));
  }

  // ----- what follows for every input

  /** Pairs of close detections, where no detection is used twice. */
  predicate Matching(s: Scene, ps: seq<Pair>) {
    && InRange(s, ps)
    && (forall a :: 0 <= a < |ps| ==> s.Close(ps[a].0, ps[a].1))
    && (forall a, b :: 0 <= a < b < |ps| ==> ps[a].0 != ps[b].0 && ps[a].1 != ps[b].1)
  }

  predicate Unpaired2(ps: seq<Pair>, i2: nat) {
    forall a :: 0 <= a < |ps| ==> ps[a].1 != i2
  }

  /** The pairs are a matching in camera-1 order, and no two detections that are left over are close. */
  lemma PairsAreMaximal(s: Scene)
    ensures Matching(s, Pairs(s)) && Increasing(Pairs(s))
    ensures forall i1: nat, i2: nat :: i1 < |s.meas1| && i2 < |s.meas2| && Unpaired(Pairs(s), i1) && Unpaired2(Pairs(s), i2)
              ==> !s.Close(i1, i2)
  {
    var ps, taken := Pairs(s), AllFree(|s.meas2|);
    PairsAreGreedy(s, ps);
    hide Pairs;
    forall a, b | 0 <= a < b < |ps| ensures ps[a].1 != ps[b].1 {
      assert TakesNearest(s, ps, taken, ps[b].0, ps[b].1);
      assert Free(ps, taken, ps[b].0, ps[b].1);
    }
    forall a | 0 <= a < |ps| ensures s.Close(ps[a].0, ps[a].1) {
      assert TakesNearest(s, ps, taken, ps[a].0, ps[a].1);
    }
    forall i1: nat, i2: nat | i1 < |s.meas1| && i2 < |s.meas2| && Unpaired(ps, i1) && Unpaired2(ps, i2)
      ensures !s.Close(i1, i2)
    {
      assert NothingLeft(s, ps, taken, i1);
      assert Free(ps, taken, i1, i2);
    }
  }

  function Firsts(ps: seq<Pair>): set<nat> {
    set a | 0 <= a < |ps| :: ps[a].0
  }

  function Seconds(ps: seq<Pair>): set<nat> {
    set a | 0 <= a < |ps| :: ps[a].1
  }

  lemma LastPair(ps: seq<Pair>)
    requires ps != []
    ensures var n := |ps| - 1;
            Firsts(ps) == Firsts(ps[..n]) + {ps[n].0} && Seconds(ps) == Seconds(ps[..n]) + {ps[n].1}
  {
    var n := |ps| - 1;
    assert forall a :: 0 <= a < n ==> ps[..n][a] == ps[a];
  }

  lemma OneMember(s: set<nat>, x: nat)
    ensures |s + {x}| <= |s| + 1
  {
    if x in s {
      assert s + {x} == s;
    }
  }

  lemma {:induction false} AtMostAsMany(ps: seq<Pair>)
    ensures |Firsts(ps)| <= |ps| && |Seconds(ps)| <= |ps|
  {
    if ps != [] {
      LastPair(ps);
      var n := |ps| - 1;
      AtMostAsMany(ps[..n]);
      hide Firsts, Seconds;
      OneMember(Firsts(ps[..n]), ps[n].0);
      OneMember(Seconds(ps[..n]), ps[n].1);
    }
  }

  /** Pairs that each touch one of two sets, without using anything twice, are no more than the sets' members. */
  lemma {:induction false} TouchingBound(qs: seq<Pair>, A: set<nat>, B: set<nat>)
    requires forall a, b :: 0 <= a < b < |qs| ==> qs[a].0 != qs[b].0 && qs[a].1 != qs[b].1
    requires forall a :: 0 <= a < |qs| ==> qs[a].0 in A || qs[a].1 in B
    ensures |qs| <= |A| + |B|
    decreases |qs|
  {
    if qs != [] {
      var q, rest := qs[0], qs[1..];
      if q.0 in A {
        assert |A - {q.0}| == |A| - 1;
        TouchingBound(rest, A - {q.0}, B);
      } else {
        assert |B - {q.1}| == |B| - 1;
        TouchingBound(rest, A, B - {q.1});
      }
    }
  }

  /** Taking the nearest free detection each time finds at least half as many pairs as any matching has. */
  lemma AtLeastHalfOfAnyMatching(s: Scene, qs: seq<Pair>)
    requires Matching(s, qs)
    ensures |qs| <= 2 * |Pairs(s)|
  {
    var ps := Pairs(s);
    PairsAreMaximal(s);
    hide Pairs;
    forall a | 0 <= a < |qs| ensures qs[a].0 in Firsts(ps) || qs[a].1 in Seconds(ps) {
      assert s.Close(qs[a].0, qs[a].1);
      if Unpaired(ps, qs[a].0) && Unpaired2(ps, qs[a].1) {
        assert false;
      }
    }
    TouchingBound(qs, Firsts(ps), Seconds(ps));
    AtMostAsMany(ps);
  }

  // ----- the loops

  function Side1(s: Scene, ps: seq<Pair>): (r: seq<Detection>)
    requires InRange(s, ps)
    ensures |r| == |ps|
  {
    seq(|ps|, a requires 0 <= a < |ps| => s.meas1[ps[a].0])
  }

  function Side2(s: Scene, ps: seq<Pair>): (r: seq<Detection>)
    requires InRange(s, ps)
    ensures |r| == |ps|
  {
    seq(|ps|, a requires 0 <= a < |ps| => s.meas2[ps[a].1])
  }

  /** The detections of camera 1 where camera 2 would see them. */
  method ConvertMeasCam1ToCam2(s: Scene) returns (converted: seq<Detection>)
    ensures |converted| == |s.meas1|
    ensures forall i :: 0 <= i < |s.meas1| ==>
              (converted[i].x, converted[i].y) == s.project(s.meas1[i].x, s.meas1[i].y)
              && converted[i].other == s.meas1[i].other
  {
    converted := [];
    for i := 0 to |s.meas1|
      invariant |converted| == i
      invariant forall j :: 0 <= j < i ==>
                  (converted[j].x, converted[j].y) == s.project(s.meas1[j].x, s.meas1[j].y)
                  && converted[j].other == s.meas1[j].other
    {
      var p := s.project(s.meas1[i].x, s.meas1[i].y);
      converted := converted + [s.meas1[i].(x := p.0, y := p.1)];
    }
  }

  method FindMatch(s: Scene, i1: nat, at: (real, real), taken: seq<bool>) returns (best: Option<nat>)
    requires i1 < |s.meas1| && |taken| == |s.meas2| && at == s.project(s.meas1[i1].x, s.meas1[i1].y)
    ensures best == s.BestFor(i1, taken)
  {
    ghost var costs := s.Candidates(i1, taken);
    best := None;
    var bestDistance := s.maxDistance;
    for i2 := 0 to |s.meas2|
      invariant best == NearestOf(costs[..i2], s.maxDistance)
      invariant bestDistance == if best.Some? then costs[best.value].value else s.maxDistance
    {
      NearestOfPrefix(costs, i2, s.maxDistance);
      if !taken[i2] {
        var dist := s.distance(at, (s.meas2[i2].x, s.meas2[i2].y));
        if dist < bestDistance && dist <= s.threshold {
          bestDistance := dist;
          best := Some(i2);
        }
      }
    }
    assert costs[..|s.meas2|] == costs;
  }

  lemma PairsFromSplit(s: Scene, i1: nat, taken: seq<bool>, ps: seq<Pair>)
    requires i1 < |s.meas1| && |taken| == |s.meas2|
    ensures var c := s.BestFor(i1, taken);
            ps + PairsFrom(s, i1, taken)
            == if c.Some? then ps + [(i1, c.value)] + PairsFrom(s, i1 + 1, taken[c.value := true])
               else ps + PairsFrom(s, i1 + 1, taken)
  {
    var c := s.BestFor(i1, taken);
    if c.Some? {
      var rest := PairsFrom(s, i1 + 1, taken[c.value := true]);
      assert ps + ([(i1, c.value)] + rest) == ps + [(i1, c.value)] + rest;
    }
  }

  /** The pairs so far, followed by what the other detections bring, are the whole; the lists hold the pairs so far. */
  ghost predicate Midway(s: Scene, i1: nat, taken: seq<bool>, ps: seq<Pair>, match1: seq<Detection>, match2: seq<Detection>) {
    && i1 <= |s.meas1| && |taken| == |s.meas2| && InRange(s, ps)
    && Pairs(s) == ps + PairsFrom(s, i1, taken)
    && match1 == Side1(s, ps) && match2 == Side2(s, ps)
  }

  lemma MidwayStart(s: Scene)
    ensures Midway(s, 0, AllFree(|s.meas2|), [], [], [])
  {
    NoSides(s);
    assert [] + Pairs(s) == Pairs(s);
  }

  lemma MidwayStep(s: Scene, i1: nat, taken: seq<bool>, ps: seq<Pair>, match1: seq<Detection>, match2: seq<Detection>)
    returns (qs: seq<Pair>)
    requires Midway(s, i1, taken, ps, match1, match2) && i1 < |s.meas1| && |taken| == |s.meas2|
    ensures match s.BestFor(i1, taken)
            case Some(k) => Midway(s, i1 + 1, taken[k := true], qs, match1 + [s.meas1[i1]], match2 + [s.meas2[k]])
            case None => Midway(s, i1 + 1, taken, qs, match1, match2)
  {
    PairsFromSplit(s, i1, taken, ps);
    hide PairsFrom, Side1, Side2, Scene.BestFor;
    qs := ps;
    if s.BestFor(i1, taken).Some? {
      var p := (i1, s.BestFor(i1, taken).value);
      MoreSides(s, ps, p);
      qs := ps + [p];
    }
  }

  lemma MidwayEnd(s: Scene, taken: seq<bool>, ps: seq<Pair>, match1: seq<Detection>, match2: seq<Detection>)
    requires Midway(s, |s.meas1|, taken, ps, match1, match2)
    ensures match1 == Side1(s, Pairs(s)) && match2 == Side2(s, Pairs(s))
  {
    assert PairsFrom(s, |s.meas1|, taken) == [] && ps + [] == ps;
  }

  /** selection_meas_to_object_two_cameras, for a given homography. */
  method SelectionMeasToObjectTwoCameras(s: Scene, res1: DataRes, res2: DataRes) returns (matches: seq<DataRes>)
    requires res1.meas == s.meas1 && res2.meas == s.meas2
    ensures matches == [res1.(meas := Side1(s, Pairs(s))), res2.(meas := Side2(s, Pairs(s)))]
    ensures forall a :: 0 <= a < |Pairs(s)| ==>
              matches[0].meas[a] == res1.meas[Pairs(s)[a].0] && matches[1].meas[a] == res2.meas[Pairs(s)[a].1]
  {
    hide Midway, Pairs, Side1, Side2, Scene.BestFor;
    var converted := ConvertMeasCam1ToCam2(s);
    var taken := AllFree(|s.meas2|);
    var match1: seq<Detection>, match2: seq<Detection> := [], [];
    ghost var ps: seq<Pair> := [];
    MidwayStart(s);
    for i1 := 0 to |converted|
      invariant |taken| == |s.meas2| && Midway(s, i1, taken, ps, match1, match2)
    {
      ps := MidwayStep(s, i1, taken, ps, match1, match2);
      var best := FindMatch(s, i1, (converted[i1].x, converted[i1].y), taken);
      if best.Some? {
        match1 := match1 + [res1.meas[i1]];
        match2 := match2 + [res2.meas[best.value]];
        taken := taken[best.value := true];
      }
    }
    MidwayEnd(s, taken, ps, match1, match2);
    SidesOfPairs(s);
    matches := [res1.(meas := match1), res2.(meas := match2)];
  }

  lemma SidesOfPairs(s: Scene)
    ensures forall a :: 0 <= a < |Pairs(s)| ==>
              Side1(s, Pairs(s))[a] == s.meas1[Pairs(s)[a].0] && Side2(s, Pairs(s))[a] == s.meas2[Pairs(s)[a].1]
  {
    hide Pairs;
  }

  lemma NoSides(s: Scene)
    ensures Side1(s, []) == [] && Side2(s, []) == []
  {
  }

  lemma MoreSides(s: Scene, ps: seq<Pair>, p: Pair)
    requires InRange(s, ps) && p.0 < |s.meas1| && p.1 < |s.meas2|
    ensures InRange(s, ps + [p])
    ensures Side1(s, ps + [p]) == Side1(s, ps) + [s.meas1[p.0]] && Side2(s, ps + [p]) == Side2(s, ps) + [s.meas2[p.1]]
  {
  }
}
