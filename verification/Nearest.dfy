/** The inner loop that the tracker and the two-camera matcher share: the nearest candidate that is still free. */
module Nearest {
  import opened Options

  /** The flags before anything is assigned. */
  function AllFree(n: nat): (r: seq<bool>)
    ensures |r| == n && forall i :: 0 <= i < n ==> !r[i]
  {
    seq(n, _ => false)
  }

  /** `costs[i]` is the distance of candidate `i`, or `None` when the candidate does not qualify. Only distances
      below `limit` count; the earliest of the nearest candidates is taken. */
  ghost predicate IsNearest(costs: seq<Option<real>>, limit: real, best: Option<nat>) {
    match best
    case None => forall i :: 0 <= i < |costs| && costs[i].Some? ==> costs[i].value >= limit
    case Some(k) =>
      && k < |costs| && costs[k].Some? && costs[k].value < limit
      && (forall i :: 0 <= i < |costs| && costs[i].Some? ==> costs[k].value <= costs[i].value)
      && (forall i :: 0 <= i < k && costs[i].Some? ==> costs[k].value < costs[i].value)
  }

  function NearestOf(costs: seq<Option<real>>, limit: real): (best: Option<nat>)
    ensures IsNearest(costs, limit, best)
  {
    if costs == [] then None
    else
      var k := |costs| - 1;
      var before := NearestOf(costs[..k], limit);
      var bound := if before.Some? then costs[before.value].value else limit;
      if costs[k].Some? && costs[k].value < bound then Some(k) else before
  }

  lemma NearestOfPrefix(costs: seq<Option<real>>, k: nat, limit: real)
    requires k < |costs|
    ensures NearestOf(costs[..k + 1], limit)
            == var before := NearestOf(costs[..k], limit);
               var bound := if before.Some? then costs[before.value].value else limit;
               if costs[k].Some? && costs[k].value < bound then Some(k) else before
  {
    assert costs[..k + 1][..k] == costs[..k];
  }
}
