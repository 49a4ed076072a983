/** Which tiles are processed under load (datapro1/src/dp1_calc_limit.cpp), over the reals. */
module TileLimit {
  import opened Naturals
  import opened SnailPath

  /** A std::map from load to limit: the pairs in the order of their keys. */
  type Rates = r: seq<(real, real)> | Sorted(r) witness []

  predicate Sorted(r: seq<(real, real)>) {
    forall i, j :: 0 <= i < j < |r| ==> r[i].0 < r[j].0
  }

  const FULL_LIMIT := 1.01

  /** std::map::lower_bound: the position of the first key that is not less than `x`. */
  function LowerBound(rates: Rates, x: real): (p: nat)
    ensures p <= |rates|
    ensures forall i :: 0 <= i < p ==> rates[i].0 < x
    ensures forall i :: p <= i < |rates| ==> rates[i].0 >= x
  {
    if rates == [] || rates[0].0 >= x then 0
    else
      assert forall i, j :: 0 <= i < j < |rates[1..]| ==> rates[1..][i].0 < rates[1..][j].0;
      1 + LowerBound(rates[1..], x)
  }

  /** The limit that belongs to the greatest load below `x`; more than all tiles when there is none. */
  function LimitFor(rates: Rates, x: real): (limit: real)
    ensures (forall i :: 0 <= i < |rates| ==> rates[i].0 >= x) ==> limit == 1.01
    ensures forall i :: 0 <= i < |rates| && rates[i].0 < x && (i + 1 < |rates| ==> rates[i + 1].0 >= x) ==> limit == rates[i].1
  {
    var p := LowerBound(rates, x);
    if p == 0 then FULL_LIMIT else rates[p - 1].1
  }

  function Ceil(x: real): int {
    -((-x).Floor)
  }

  function Clamp(x: int, lo: int, hi: int): int {
    if x > hi then (if hi < lo then lo else hi) else if x < lo then lo else x
  }

  /** The largest number of tiles whose share of `n` tiles is below the limit. */
  function LastBelow(limit: real, n: nat): int {
    Ceil(limit * n as real) - 1
  }

  /** How many of `n` tiles a limit leaves enabled. */
  function NumEnabled(limit: real, n: nat): (k: nat)
    requires n > 0
    ensures 1 <= k <= n
  {
    Clamp(LastBelow(limit, n), 1, n)
  }

  ghost predicate InRange(priorities: seq<nat>) {
    forall i :: 0 <= i < |priorities| ==> priorities[i] < |priorities|
  }

  /** The statuses enable exactly the first `k` tiles of the priority list. */
  ghost predicate EnablesPrefix(statuses: seq<bool>, priorities: seq<nat>, k: nat)
    requires k <= |priorities|
  {
    |statuses| == |priorities| && forall t :: 0 <= t < |statuses| ==> (statuses[t] <==> t in priorities[..k])
  }

  /** The accumulated share of `k` of `n` tiles. */
  function Share(k: nat, n: nat): real
    requires n > 0
  {
    k as real * (1.0 / n as real)
  }

  lemma ShareBelowLimit(k: nat, n: nat, limit: real)
    requires n > 0
    ensures Share(k, n) < limit <==> k <= LastBelow(limit, n)
  {
    var r := n as real;
    var delta := 1.0 / r;
    assert delta * r == 1.0 && delta > 0.0;
    assert (k as real * delta) * r == k as real;
    ScaleOrder(k as real * delta, limit, r);
    CeilOrder(k, limit * r);
  }

  lemma ScaleOrder(a: real, b: real, r: real)
    requires r > 0.0
    ensures a < b <==> a * r < b * r
  {
    if a < b {
      assert (b - a) * r > 0.0;
    } else {
      assert (a - b) * r >= 0.0;
    }
  }

  lemma CeilOrder(k: int, x: real)
    ensures k as real < x <==> k <= Ceil(x) - 1
  {
  }

  method CalcNeedFrProcStatuses(realProcTimeRate: real, rates: Rates, framePriorities: seq<nat>)
    returns (res: seq<bool>)
    requires |framePriorities| > 0 && InRange(framePriorities)
    ensures EnablesPrefix(res, framePriorities, NumEnabled(LimitFor(rates, realProcTimeRate), |framePriorities|))
  {
    hide EnablesPrefix, LastBelow, NumEnabled, LimitFor, LowerBound, Share;
    var n := |framePriorities|;
    res := seq(n, _ => false);
    var cumulateSumLimit := FULL_LIMIT;
    var bound := LowerBound(rates, realProcTimeRate);
    if bound != 0 {
      cumulateSumLimit := rates[bound - 1].1;
    }
    var deltaSum := 1.0 / n as real;
    res := res[framePriorities[0] := true];
    var cumulateSum := deltaSum;
    var it := 1;
    ghost var last := LastBelow(cumulateSumLimit, n);
    ShareOne(n);
    ShareCount(realProcTimeRate, rates, n);
    EnableNone(seq(n, _ => false), framePriorities);
    EnableOne(seq(n, _ => false), framePriorities, 0);
    while it < n
      invariant 1 <= it <= n && cumulateSum == Share(it, n)
      invariant it == 1 || it <= last
      invariant EnablesPrefix(res, framePriorities, it)
    {
      cumulateSum := cumulateSum + deltaSum;
      ShareBelowLimit(it + 1, n, cumulateSumLimit);
      AddShare(it, n);
      if cumulateSum < cumulateSumLimit {
        EnableOne(res, framePriorities, it);
        res := res[framePriorities[it] := true];
      } else {
        break;
      }
      it := it + 1;
    }
    assert it == Clamp(last, 1, n);
  }

  lemma ShareCount(rate: real, rates: Rates, n: nat)
    requires n > 0
    ensures var p := LowerBound(rates, rate);
            LimitFor(rates, rate) == (if p == 0 then FULL_LIMIT else rates[p - 1].1)
    ensures NumEnabled(LimitFor(rates, rate), n) == Clamp(LastBelow(LimitFor(rates, rate), n), 1, n)
  {
  }

  /** Between one and all tiles are enabled: as many as keep the accumulated share, but for the first tile, below the
      limit of the load. */
  lemma EnabledShare(rates: Rates, x: real, n: nat)
    requires n > 0
    ensures var k, limit := NumEnabled(LimitFor(rates, x), n), LimitFor(rates, x);
            && (forall j: nat :: 2 <= j <= k ==> Share(j, n) < limit)
            && (forall j: nat :: k < j <= n ==> Share(j, n) >= limit)
  {
    var limit := LimitFor(rates, x);
    var k := NumEnabled(limit, n);
    hide LimitFor, Share;
    forall j: nat | 2 <= j <= n ensures Share(j, n) < limit <==> j <= k {
      ShareBelowLimit(j, n, limit);
    }
  }

  lemma ShareOne(n: nat)
    requires n > 0
    ensures Share(1, n) == 1.0 / n as real
  {
  }

  lemma AddShare(k: nat, n: nat)
    requires n > 0
    ensures Share(k, n) + Share(1, n) == Share(k + 1, n)
  {
  }

  lemma EnableNone(res: seq<bool>, priorities: seq<nat>)
    requires |res| == |priorities| && forall t :: 0 <= t < |res| ==> !res[t]
    ensures EnablesPrefix(res, priorities, 0)
  {
  }

  lemma EnableOne(res: seq<bool>, priorities: seq<nat>, k: nat)
    requires k < |priorities| && EnablesPrefix(res, priorities, k) && InRange(priorities)
    ensures |res| == |priorities| && priorities[k] < |priorities|
    ensures EnablesPrefix(res[priorities[k] := true], priorities, k + 1)
  {
    assert priorities[..k + 1] == priorities[..k] + [priorities[k]];
  }

  // ----- the limiter

  datatype Config = Config(enable: bool, refFrameProcTimeMs: real, rates: Rates)

  const TIME_UPD_K := 0.4

  function Smoothed(accum: real, frameTime: real): real {
    TIME_UPD_K * frameTime + (1.0 - TIME_UPD_K) * accum
  }

  function TileIndices(path: seq<Cell>, numTileX: nat): (s: seq<nat>)
    ensures |s| == |path|
    ensures forall i :: 0 <= i < |s| ==> s[i] == path[i].row * numTileX + path[i].col
  {
    seq(|path|, i requires 0 <= i < |path| => path[i].row * numTileX + path[i].col)
  }

  /** The tiles in the order of their priority. */
  function Priorities(numTileX: nat, numTileY: nat): seq<nat> {
    TileIndices(Path(numTileY, numTileX), numTileX)
  }

  class CalcTileLimit {
    const config: Config
    const numTileX: nat
    const numTileY: nat
    var framePriorities: seq<nat>
    var frProcStatuses: seq<bool>
    var frameProcAccumTime: real

    ghost predicate HasPriorities()
      reads this
    {
      && numTileX > 0 && numTileY > 0 && config.refFrameProcTimeMs > 0.0
      && framePriorities == Priorities(numTileX, numTileY) && |framePriorities| > 0 && InRange(framePriorities)
    }

    ghost predicate Valid()
      reads this
    {
      HasPriorities() && EnablesPrefix(frProcStatuses, framePriorities, Enabled(frameProcAccumTime))
    }

    /** The number of tiles enabled at a smoothed frame time. */
    ghost function Enabled(accum: real): (k: nat)
      requires HasPriorities()
      reads this
      ensures k <= |framePriorities|
    {
      NumEnabled(LimitFor(config.rates, accum / config.refFrameProcTimeMs), |framePriorities|)
    }

    method UpdateTileStatuses()
      requires HasPriorities()
      modifies this`frProcStatuses
      ensures Valid()
    {
      var timeRate := frameProcAccumTime / config.refFrameProcTimeMs;
      frProcStatuses := CalcNeedFrProcStatuses(timeRate, config.rates, framePriorities);
    }

    constructor (config: Config, numTileX: nat, numTileY: nat)
      requires numTileX > 0 && numTileY > 0 && config.refFrameProcTimeMs > 0.0
      ensures Valid() && this.config == config && this.numTileX == numTileX && this.numTileY == numTileY
      ensures frameProcAccumTime == 0.0
    {
      this.config, this.numTileX, this.numTileY := config, numTileX, numTileY;
      frProcStatuses, frameProcAccumTime, framePriorities := [], 0.0, [];
      new;
      var snail := new Snail(numTileY, numTileX);
      var path := snail.GetPath();
      for i := 0 to |path|
        invariant framePriorities == TileIndices(path, numTileX)[..i]
        invariant frameProcAccumTime == 0.0
      {
        framePriorities := framePriorities + [path[i].row * numTileX + path[i].col];
      }
      PrioritiesPermute(numTileX, numTileY);
      UpdateTileStatuses();
    }

    predicate NeedProcTile(tileIndex: nat)
      reads this
    {
      config.enable && tileIndex < |frProcStatuses| ==> frProcStatuses[tileIndex]
    }

    method SetLastFrameProcTime(frameProcTime: nat)
      requires Valid()
      modifies this
      ensures Valid()
      ensures frameProcAccumTime == 0.4 * frameProcTime as real + 0.6 * old(frameProcAccumTime)
      ensures frameProcAccumTime == Smoothed(old(frameProcAccumTime), frameProcTime as real)
      ensures framePriorities == old(framePriorities)
    {
      hide LimitFor, LowerBound, NumEnabled;
      frameProcAccumTime := TIME_UPD_K * frameProcTime as real + (1.0 - TIME_UPD_K) * frameProcAccumTime;
      UpdateTileStatuses();
    }
  }

  // ----- the priority list

  function CellOf(tile: nat, numTileX: nat): Cell
    requires numTileX > 0
  {
    Cell(tile / numTileX, tile % numTileX)
  }

  lemma IndexOfCell(c: Cell, numTileX: nat, numTileY: nat)
    requires c.row < numTileY && c.col < numTileX
    ensures c.row * numTileX + c.col < numTileX * numTileY
    ensures CellOf(c.row * numTileX + c.col, numTileX) == c
  {
    assert Mul(numTileX, c.row) == c.row * numTileX && Mul(numTileX, numTileY) == numTileX * numTileY;
    MulSteps(numTileX, c.row, numTileY);
    ModUnique(c.row * numTileX + c.col, numTileX, c.row, c.col);
  }

  lemma TileOfIndex(tile: nat, numTileX: nat, numTileY: nat)
    requires numTileX > 0 && tile < numTileX * numTileY
    ensures var c := CellOf(tile, numTileX);
            c.row < numTileY && c.col < numTileX && c.row * numTileX + c.col == tile
  {
    var c := CellOf(tile, numTileX);
    DivMod(tile, numTileX);
    assert Mul(numTileX, c.row) == c.row * numTileX && Mul(numTileX, numTileY) == numTileX * numTileY;
    if numTileY < c.row {
      MulSteps(numTileX, numTileY, c.row);
    }
  }

  /** The priority list names every tile of the frame exactly once. */
  lemma PrioritiesPermute(numTileX: nat, numTileY: nat)
    requires numTileX > 0 && numTileY > 0
    ensures var p := Priorities(numTileX, numTileY);
            && |p| == numTileX * numTileY > 0 && InRange(p) && Distinct(p)
            && forall t :: 0 <= t < numTileX * numTileY ==> t in p
  {
    hide Path;
    var path, p := Path(numTileY, numTileX), Priorities(numTileX, numTileY);
    PathVisitsAll(numTileY, numTileX);
    assert numTileX * numTileY > 0;
    forall i | 0 <= i < |p| ensures p[i] < |p| && CellOf(p[i], numTileX) == path[i] {
      assert path[i] in path;
      IndexOfCell(path[i], numTileX, numTileY);
    }
    forall t | 0 <= t < numTileX * numTileY ensures t in p {
      TileOfIndex(t, numTileX, numTileY);
      var i :| 0 <= i < |path| && path[i] == CellOf(t, numTileX);
      assert p[i] == t;
    }
  }

  function RingOf(tile: nat, numTileX: nat, numTileY: nat): int
    requires numTileX > 0
  {
    Depth(CellOf(tile, numTileX), numTileY, numTileX)
  }

  lemma PrioritiesByRing(numTileX: nat, numTileY: nat)
    requires numTileX > 0 && numTileY > 0
    ensures var p := Priorities(numTileX, numTileY);
            forall i, j :: 0 <= i < j < |p| ==> RingOf(p[i], numTileX, numTileY) >= RingOf(p[j], numTileX, numTileY)
  {
    hide Path, Depth;
    var path, p := Path(numTileY, numTileX), Priorities(numTileX, numTileY);
    PathVisitsAll(numTileY, numTileX);
    PathByRings(numTileY, numTileX);
    forall i | 0 <= i < |p| ensures CellOf(p[i], numTileX) == path[i] {
      assert path[i] in path;
      IndexOfCell(path[i], numTileX, numTileY);
    }
  }

  /** Whatever the load, a tile that lies deeper than an enabled tile is enabled: the rings are shed
      from the outside in. */
  lemma OuterRingsShedFirst(numTileX: nat, numTileY: nat, statuses: seq<bool>, k: nat, a: nat, b: nat)
    requires numTileX > 0 && numTileY > 0
    requires k <= |Priorities(numTileX, numTileY)| == |statuses| && EnablesPrefix(statuses, Priorities(numTileX, numTileY), k)
    requires a < |statuses| && b < |statuses| && statuses[a]
    requires RingOf(b, numTileX, numTileY) > RingOf(a, numTileX, numTileY)
    ensures statuses[b]
  {
    hide Priorities, RingOf;
    var p := Priorities(numTileX, numTileY);
    PrioritiesPermute(numTileX, numTileY);
    PrioritiesByRing(numTileX, numTileY);
    assert 0 <= b < numTileX * numTileY && b in p;
    var i :| 0 <= i < k && p[..k][i] == a;
    var j :| 0 <= j < |p| && p[j] == b;
    assert p[i] == a;
    assert j < i;
    assert p[..k][j] == b;
  }

  // ----- load and limit

  ghost predicate LimitsFall(rates: Rates) {
    forall i, j :: 0 <= i < j < |rates| ==> rates[i].1 >= rates[j].1
  }

  /** With falling limits, more load never enables more tiles. */
  lemma MoreLoadFewerTiles(rates: Rates, x: real, y: real, n: nat)
    requires n > 0 && LimitsFall(rates) && x <= y
    ensures NumEnabled(LimitFor(rates, y), n) <= NumEnabled(LimitFor(rates, x), n)
  {
    LoadSelects(rates, x, y);
    hide LimitFor, LowerBound, NumEnabled, LimitsFall;
    if LowerBound(rates, x) == 0 {
      FullLimitEnablesAll(n);
    } else {
      HigherLimit(LimitFor(rates, y), LimitFor(rates, x), n);
    }
  }

  /** More load selects a limit that is not higher. */
  lemma LoadSelects(rates: Rates, x: real, y: real)
    requires LimitsFall(rates) && x <= y
    ensures if LowerBound(rates, x) == 0 then LimitFor(rates, x) == FULL_LIMIT else LimitFor(rates, y) <= LimitFor(rates, x)
  {
    var p, q := LowerBound(rates, x), LowerBound(rates, y);
    assert p <= q;
    hide LowerBound;
  }

  lemma HigherLimit(a: real, b: real, n: nat)
    requires n > 0 && a <= b
    ensures NumEnabled(a, n) <= NumEnabled(b, n)
  {
    var k := LastBelow(a, n);
    hide LastBelow, Share;
    if k > 0 {
      ShareBelowLimit(k, n, a);
      ShareBelowLimit(k, n, b);
    }
  }

  lemma FullLimitEnablesAll(n: nat)
    requires n > 0
    ensures NumEnabled(FULL_LIMIT, n) == n
  {
    AllShares(n);
    ShareBelowLimit(n, n, FULL_LIMIT);
    hide LastBelow, Share;
  }

  lemma AllShares(n: nat)
    requires n > 0
    ensures Share(n, n) == 1.0
  {
  }

  /** Below the first configured load, and at it, every tile is enabled. */
  lemma LowLoadEnablesAll(rates: Rates, x: real, n: nat)
    requires n > 0 && (rates == [] || x <= rates[0].0)
    ensures NumEnabled(LimitFor(rates, x), n) == n
  {
    FullLimitEnablesAll(n);
  }

  // ----- recovery

  /** The smoothed time after `frames` frames that take `t` each. */
  function After(accum: real, t: real, frames: nat): real {
    if frames == 0 then accum else Smoothed(After(accum, t, frames - 1), t)
  }

  function Power(base: real, n: nat): real {
    if n == 0 then 1.0 else base * Power(base, n - 1)
  }

  /** Every frame that takes `t` leaves exactly 0.6 of the distance to `t`, from above and from below. */
  lemma {:induction false} DecaysExactly(accum: real, t: real, frames: nat)
    ensures After(accum, t, frames) - t == Power(0.6, frames) * (accum - t)
  {
    if frames > 0 {
      DecaysExactly(accum, t, frames - 1);
      var p := Power(0.6, frames - 1);
      assert Power(0.6, frames) * (accum - t) == 0.6 * (p * (accum - t));
    }
  }

  /** The distance to `t` decays at least as fast as 1 / (1 + 2n/3). */
  lemma {:induction false} Decay(accum: real, t: real, frames: nat)
    requires accum >= t
    ensures After(accum, t, frames) >= t
    ensures (After(accum, t, frames) - t) * (1.0 + 2.0 * frames as real / 3.0) <= accum - t
  {
    if frames > 0 {
      Decay(accum, t, frames - 1);
      var d := After(accum, t, frames - 1) - t;
      var f := (frames - 1) as real;
      assert After(accum, t, frames) - t == 0.6 * d;
      assert frames as real == f + 1.0;
      DecayStep(d, f);
    }
  }

  lemma DecayStep(d: real, f: real)
    requires d >= 0.0 && f >= 0.0
    ensures 0.6 * d * (1.0 + 2.0 * (f + 1.0) / 3.0) <= d * (1.0 + 2.0 * f / 3.0)
  {
    assert d * f >= 0.0;
    assert 0.6 * d * (1.0 + 2.0 * (f + 1.0) / 3.0) == d + 0.4 * (d * f);
    assert d * (1.0 + 2.0 * f / 3.0) == d + 2.0 / 3.0 * (d * f);
  }

  lemma {:induction false} StaysBelow(accum: real, t: real, frames: nat)
    requires accum <= t
    ensures After(accum, t, frames) <= t
  {
    if frames > 0 {
      StaysBelow(accum, t, frames - 1);
    }
  }

  /** The number of frames of time `t` after which the smoothed time stays at most `goal`. */
  function FramesToRecover(accum: real, t: real, goal: real): nat
    requires t < goal
  {
    if accum <= t then 0 else var n := Ceil(1.5 * (accum - t) / (goal - t)); if n < 0 then 0 else n
  }

  lemma Recovers(accum: real, t: real, goal: real, frames: nat)
    requires t < goal && frames >= FramesToRecover(accum, t, goal)
    ensures After(accum, t, frames) <= goal
  {
    if accum <= t {
      StaysBelow(accum, t, frames);
    } else {
      Decay(accum, t, frames);
      var gap, f := goal - t, frames as real;
      assert f >= 1.5 * (accum - t) / gap;
      ProductBound(f, 1.5 * (accum - t), gap);
      DecayedBelow(After(accum, t, frames) - t, gap, f, accum - t);
    }
  }

  lemma ProductBound(f: real, x: real, gap: real)
    requires gap > 0.0 && f >= x / gap
    ensures f * gap >= x
  {
    var q := x / gap;
    assert q * gap == x;
    assert (f - q) * gap >= 0.0;
  }

  lemma DecayedBelow(d: real, gap: real, f: real, start: real)
    requires gap > 0.0 && f >= 0.0 && f * gap >= 1.5 * start
    requires d * (1.0 + 2.0 * f / 3.0) <= start
    ensures d <= gap
  {
    var w := 1.0 + 2.0 * f / 3.0;
    assert gap * w == gap + 2.0 / 3.0 * (f * gap);
    ScaleOrder(gap, d, w);
  }

  /** Once every frame takes the constant time `t` below the first configured load, all tiles are enabled
      from a known frame on, whatever the load was before. */
  lemma AllTilesComeBack(config: Config, accum: real, t: real, n: nat, frames: nat)
    requires n > 0 && config.refFrameProcTimeMs > 0.0
    requires config.rates != [] ==>
               var goal := config.rates[0].0 * config.refFrameProcTimeMs;
               t < goal && frames >= FramesToRecover(accum, t, goal)
    ensures NumEnabled(LimitFor(config.rates, After(accum, t, frames) / config.refFrameProcTimeMs), n) == n
  {
    hide FramesToRecover, After, LimitFor, NumEnabled;
    var reference, a := config.refFrameProcTimeMs, After(accum, t, frames);
    if config.rates != [] {
      Recovers(accum, t, config.rates[0].0 * reference, frames);
      assert a / reference * reference == a;
      ScaleOrder(config.rates[0].0, a / reference, reference);
    }
    LowLoadEnablesAll(config.rates, a / reference, n);
  }
}
