/** The pool of tile workers (datapro1/src/datapro1.cpp): thread 0 is the caller of datapro1(), the others
    run dp1_proc_thread(). Every step below is one access to shared memory; a schedule names the thread that
    takes each step, so a statement about all schedules is one about all interleavings. */
module WorkerPool {
  import opened Sequences

  /** Where a thread stands. */
  datatype Pc<S, M> =
    | Waiting                                              // in start_proc_cv.wait_for
    | Woken                                                // saw its flag, has not cleared it
    | Taking                                               // in dispatch_calc, at the queue lock
    | Working(tile: nat)                                   // took a tile, has not read its state
    | Storing(tile: nat, meas: seq<M>, next: S)            // computed, has not stored the result
    | Counting                                             // found the queue empty, at ++num_thread_ready
    | Scheduling(at: nat) | Resetting | Raising(at: nat)   // the main thread before dispatch_calc
    | Barrier | Merging                                    // the main thread after dispatch_calc

  /** History: what has happened to a tile in this round. */
  datatype Status = Idle | Queued | Held(thread: nat) | Done

  datatype State<S, M> = State(
    queue: seq<nat>,          // tiles_to_proc
    flags: seq<bool>,         // start_proc_flag
    ready: nat,               // num_thread_ready
    pcs: seq<Pc<S, M>>,
    tiles: seq<S>,            // the per-tile state that outlives a frame, such as the background model
    vecMeas: seq<seq<M>>,     // the per-tile results of this frame
    round: nat,
    outputs: seq<seq<M>>,     // what the completed calls returned
    status: seq<Status>,      // history
    runs: seq<nat>)           // history: how often each tile was processed in this round

  /** What a run depends on: the frames, the tiles wanted in each round, and the processing of one tile. */
  datatype Env<!F, !S, !M> = Env(
    numThreads: nat,
    numTiles: nat,
    frame: nat -> F,
    need: (nat, nat) -> bool,
    process: (F, nat, S) -> (seq<M>, S),
    renumber: (M, nat) -> M,
    initial: seq<S>)

  ghost predicate ValidEnv<F, S, M>(env: Env<F, S, M>) {
    env.numThreads >= 1 && |env.initial| == env.numTiles
  }

  // ----- what the pool is for: one tile after the other

  function TileStep<F, S, M>(env: Env<F, S, M>, round: nat, t: nat, state: S): (seq<M>, S) {
    if env.need(round, t) then env.process(env.frame(round), t, state) else ([], state)
  }

  ghost function TilesAt<F, S, M>(env: Env<F, S, M>, round: nat): (r: seq<S>)
    requires ValidEnv(env)
    ensures |r| == env.numTiles
  {
    if round == 0 then env.initial
    else seq(env.numTiles, t requires 0 <= t < env.numTiles => TileStep(env, round - 1, t, TilesAt(env, round - 1)[t]).1)
  }

  ghost function MeasAt<F, S, M>(env: Env<F, S, M>, round: nat): (r: seq<seq<M>>)
    requires ValidEnv(env)
    ensures |r| == env.numTiles
  {
    seq(env.numTiles, t requires 0 <= t < env.numTiles => TileStep(env, round, t, TilesAt(env, round)[t]).0)
  }

  function Renumber<M>(renumber: (M, nat) -> M, meas: seq<M>): (r: seq<M>)
    ensures |r| == |meas|
    ensures forall i :: 0 <= i < |r| ==> r[i] == renumber(meas[i], i)
  {
    seq(|meas|, i requires 0 <= i < |meas| => renumber(meas[i], i))
  }

  function Merged<M>(renumber: (M, nat) -> M, lists: seq<seq<M>>): seq<M> {
    Renumber(renumber, Flatten(lists))
  }

  /** How many elements the lists have together. */
  function Total<T>(lists: seq<seq<T>>): nat {
    if lists == [] then 0 else Total(lists[..|lists| - 1]) + |lists[|lists| - 1]|
  }

  /** Element `i` of list `k` stands behind all lists before its own, and has the number of its place. */
  ghost predicate InPlace<M>(renumber: (M, nat) -> M, lists: seq<seq<M>>, merged: seq<M>, k: nat, i: nat)
    requires k < |lists| && i < |lists[k]|
  {
    var at := Total(lists[..k]) + i;
    at < |merged| && merged[at] == renumber(lists[k][i], at)
  }

  /** All elements of the lists are in place, and there is nothing else. */
  ghost predicate InTileOrder<M>(renumber: (M, nat) -> M, lists: seq<seq<M>>, merged: seq<M>) {
    && |merged| == Total(lists)
    && forall k: nat, i: nat :: k < |lists| && i < |lists[k]| ==> InPlace(renumber, lists, merged, k, i)
  }

  lemma {:induction false} FlattenTotal<T>(lists: seq<seq<T>>)
    ensures |Flatten(lists)| == Total(lists)
  {
    if lists != [] {
      var n := |lists| - 1;
      FlattenTotal(lists[..n]);
      FlattenSnoc(lists[..n], lists[n]);
      assert lists == lists[..n] + [lists[n]];
    }
  }

  lemma {:induction false} FlattenAt<T>(lists: seq<seq<T>>, k: nat, i: nat)
    requires k < |lists| && i < |lists[k]|
    ensures var at := Total(lists[..k]) + i;
            at < |Flatten(lists)| && Flatten(lists)[at] == lists[k][i]
  {
    var n := |lists| - 1;
    FlattenSnoc(lists[..n], lists[n]);
    FlattenTotal(lists[..n]);
    assert lists == lists[..n] + [lists[n]];
    if k < n {
      FlattenAt(lists[..n], k, i);
      assert lists[..n][..k] == lists[..k];
    }
  }

  lemma MergedInTileOrder<M>(renumber: (M, nat) -> M, lists: seq<seq<M>>)
    ensures InTileOrder(renumber, lists, Merged(renumber, lists))
  {
    hide Flatten, Total;
    var merged := Merged(renumber, lists);
    FlattenTotal(lists);
    forall k: nat, i: nat | k < |lists| && i < |lists[k]| ensures InPlace(renumber, lists, merged, k, i) {
      FlattenAt(lists, k, i);
    }
  }

  /** Puts the per-tile results together and numbers them. */
  method MergeResults<M>(renumber: (M, nat) -> M, vecMeas: seq<seq<M>>) returns (outMeas: seq<M>)
    ensures outMeas == Merged(renumber, vecMeas)
    ensures InTileOrder(renumber, vecMeas, outMeas)
  {
    MergedInTileOrder(renumber, vecMeas);
    outMeas := [];
    for k := 0 to |vecMeas|
      invariant outMeas == Flatten(vecMeas[..k])
    {
      FlattenSnoc(vecMeas[..k], vecMeas[k]);
      assert vecMeas[..k + 1] == vecMeas[..k] + [vecMeas[k]];
      outMeas := outMeas + vecMeas[k];
    }
    assert vecMeas[..|vecMeas|] == vecMeas;
    ghost var all := outMeas;
    for i := 0 to |outMeas|
      invariant |outMeas| == |all|
      invariant forall j :: 0 <= j < |all| ==> outMeas[j] == if j < i then renumber(all[j], j) else all[j]
    {
      outMeas := outMeas[i := renumber(outMeas[i], i)];
    }
  }

  // ----- the steps

  ghost function Init<F, S, M>(env: Env<F, S, M>): State<S, M>
    requires ValidEnv(env)
  {
    var n := env.numTiles;
    State([], seq(env.numThreads, _ => false), 0,
          seq(env.numThreads, th requires 0 <= th < env.numThreads => if th == 0 then Scheduling(0) else Waiting),
          env.initial, seq(n, _ => []), 0, [], seq(n, _ => Idle), seq(n, _ => 0))
  }

  ghost predicate Shape<F, S, M>(env: Env<F, S, M>, s: State<S, M>) {
    && |s.flags| == |s.pcs| == env.numThreads >= 1
    && |s.tiles| == |s.vecMeas| == |s.status| == |s.runs| == env.numTiles
    && (forall th :: 0 <= th < |s.pcs| && (s.pcs[th].Working? || s.pcs[th].Storing?) ==> s.pcs[th].tile < env.numTiles)
    && (forall i :: 0 <= i < |s.queue| ==> s.queue[i] < env.numTiles)
  }

  function At<S, M>(s: State<S, M>, th: nat, pc: Pc<S, M>): State<S, M>
    requires th < |s.pcs|
  {
    s.(pcs := s.pcs[th := pc])
  }

  /** One step of thread `th`. A thread that waits for something that has not happened stays where it is. */
  ghost function Step<F, S, M>(env: Env<F, S, M>, s: State<S, M>, th: nat): State<S, M>
    requires Shape(env, s) && th < env.numThreads
  {
    match s.pcs[th]
    case Waiting => if s.flags[th] then At(s, th, Woken) else s
    case Woken => At(s, th, Taking).(flags := s.flags[th := false])
    case Taking =>
      if s.queue == [] then At(s, th, Counting)
      else At(s, th, Working(s.queue[0])).(queue := s.queue[1..], status := s.status[s.queue[0] := Held(th)])
    case Working(t) =>
      var (meas, next) := env.process(env.frame(s.round), t, s.tiles[t]);
      At(s, th, Storing(t, meas, next))
    case Storing(t, meas, next) =>
      At(s, th, Taking).(tiles := s.tiles[t := next], vecMeas := s.vecMeas[t := meas],
                         status := s.status[t := Done], runs := s.runs[t := s.runs[t] + 1])
    case Counting => At(s, th, if th == 0 then Barrier else Waiting).(ready := s.ready + 1)
    case Scheduling(t) =>
      if t >= env.numTiles then At(s, th, Resetting)
      else if env.need(s.round, t) then
        At(s, th, Scheduling(t + 1)).(queue := s.queue + [t], status := s.status[t := Queued])
      else At(s, th, Scheduling(t + 1))
    case Resetting => At(s, th, Raising(0)).(ready := 0)
    case Raising(i) =>
      if i >= env.numThreads then At(s, th, Taking)
      else At(s, th, Raising(i + 1)).(flags := s.flags[i := true])
    case Barrier => if s.ready == env.numThreads then At(s, th, Merging) else s
    case Merging =>
      At(s, th, Scheduling(0)).(
        outputs := s.outputs + [Merged(env.renumber, s.vecMeas)], round := s.round + 1,
        vecMeas := seq(env.numTiles, _ => []), status := seq(env.numTiles, _ => Idle), runs := seq(env.numTiles, _ => 0))
  }

  // ----- the invariant

  predicate Dispatching<S, M>(pc: Pc<S, M>) {
    pc.Taking? || pc.Working? || pc.Storing? || pc.Counting?
  }

  /** The threads whose flag was raised in this round are those below `Raised`. */
  ghost function Raised<S, M>(s: State<S, M>): nat
    requires |s.pcs| > 0
  {
    match s.pcs[0]
    case Scheduling(_) => 0
    case Resetting => 0
    case Raising(i) => i
    case _ => |s.pcs|
  }

  /** A worker that is through with this round, or was not started yet. */
  predicate AtRest<S, M>(s: State<S, M>, th: nat)
    requires th < |s.pcs| == |s.flags|
  {
    s.pcs[th].Waiting? && !s.flags[th]
  }

  ghost predicate Workers<S, M>(s: State<S, M>)
    requires 0 < |s.pcs| == |s.flags|
  {
    && !s.pcs[0].Waiting? && !s.pcs[0].Woken?
    && Raised(s) <= |s.pcs|
    && (forall w :: 1 <= w < |s.pcs| ==>
          if w >= Raised(s) then AtRest(s, w)
          else s.pcs[w].Waiting? || (s.pcs[w].Woken? && s.flags[w]) || (Dispatching(s.pcs[w]) && !s.flags[w]))
  }

  /** The number of workers below `n` at rest. */
  ghost function Resting<S, M>(s: State<S, M>, n: nat): nat
    requires n <= |s.pcs| == |s.flags|
  {
    if n <= 1 then 0 else Resting(s, n - 1) + (if AtRest(s, n - 1) then 1 else 0)
  }

  ghost predicate Ready<S, M>(s: State<S, M>)
    requires 0 < |s.pcs| == |s.flags| && Raised(s) <= |s.pcs|
  {
    match s.pcs[0]
    case Scheduling(_) => true
    case Resetting => true
    case Merging => forall w :: 1 <= w < |s.pcs| ==> AtRest(s, w)
    case Barrier => s.ready == Resting(s, Raised(s)) + 1
    case _ => s.ready == Resting(s, Raised(s))
  }

  ghost predicate Scheduled<F, S, M>(env: Env<F, S, M>, s: State<S, M>, t: nat)
    requires |s.pcs| > 0
  {
    env.need(s.round, t) && (s.pcs[0].Scheduling? ==> t < s.pcs[0].at)
  }

  predicate Holds<S, M>(pc: Pc<S, M>, t: nat) {
    (pc.Working? || pc.Storing?) && pc.tile == t
  }

  /** The results of tile `t`, and its state, before and after it is processed in this round. */
  ghost predicate TileOk<F, S, M>(env: Env<F, S, M>, s: State<S, M>, t: nat)
    requires ValidEnv(env) && Shape(env, s) && t < env.numTiles
  {
    var before := TilesAt(env, s.round)[t];
    && (s.status[t] == Idle <==> !Scheduled(env, s, t))
    && if s.status[t] == Done
       then s.runs[t] == 1 && (s.vecMeas[t], s.tiles[t]) == TileStep(env, s.round, t, before)
       else s.runs[t] == 0 && s.vecMeas[t] == [] && s.tiles[t] == before
  }

  /** Each scheduled tile is in the queue, or with the one thread that took it, or done. */
  ghost predicate Custody<F, S, M>(env: Env<F, S, M>, s: State<S, M>)
    requires ValidEnv(env) && Shape(env, s)
  {
    && (forall i :: 0 <= i < |s.queue| ==> s.status[s.queue[i]] == Queued)
    && (forall i, j :: 0 <= i < j < |s.queue| ==> s.queue[i] != s.queue[j])
    && (forall t :: 0 <= t < env.numTiles && s.status[t] == Queued ==> t in s.queue)
    && (forall t :: 0 <= t < env.numTiles && s.status[t].Held? ==>
          s.status[t].thread < |s.pcs| && Holds(s.pcs[s.status[t].thread], t))
    && (forall th :: 0 <= th < |s.pcs| && (s.pcs[th].Working? || s.pcs[th].Storing?) ==> s.status[s.pcs[th].tile] == Held(th))
    && (forall th :: 0 <= th < |s.pcs| && s.pcs[th].Storing? ==>
          (s.pcs[th].meas, s.pcs[th].next) == env.process(env.frame(s.round), s.pcs[th].tile, TilesAt(env, s.round)[s.pcs[th].tile]))
  }

  ghost predicate Inv<F, S, M>(env: Env<F, S, M>, s: State<S, M>) {
    && ValidEnv(env) && Shape(env, s)
    && Workers(s) && Ready(s) && Custody(env, s)
    && (forall t :: 0 <= t < env.numTiles ==> TileOk(env, s, t))
    && (s.pcs[0].Counting? || s.pcs[0].Barrier? || s.pcs[0].Merging? ==> s.queue == [])
    && |s.outputs| == s.round
    && (forall r :: 0 <= r < s.round ==> s.outputs[r] == Merged(env.renumber, MeasAt(env, r)))
  }

  // ----- every step keeps the invariant: threads

  lemma {:induction false} RestingChange<S, M>(s: State<S, M>, s': State<S, M>, th: nat, n: nat)
    requires n <= |s.pcs| == |s.flags| == |s'.pcs| == |s'.flags|
    requires forall w :: 1 <= w < n && w != th ==> AtRest(s', w) == AtRest(s, w)
    ensures Resting(s', n) == Resting(s, n)
                              + (if 1 <= th < n && AtRest(s', th) then 1 else 0) - (if 1 <= th < n && AtRest(s, th) then 1 else 0)
  {
    if n > 1 {
      RestingChange(s, s', th, n - 1);
    }
  }

  lemma {:induction false} RestingFull<S, M>(s: State<S, M>, n: nat)
    requires 1 <= n <= |s.pcs| == |s.flags|
    ensures Resting(s, n) <= n - 1
    ensures Resting(s, n) == n - 1 ==> forall w :: 1 <= w < n ==> AtRest(s, w)
  {
    if n > 1 {
      RestingFull(s, n - 1);
    }
  }

  ghost predicate ThreadsInv<F, S, M>(env: Env<F, S, M>, s: State<S, M>) {
    Shape(env, s) && Workers(s) && Ready(s)
  }

  /** A started worker moves on; it counts itself exactly when it comes to rest. */
  lemma WorkerMoves<S, M>(s: State<S, M>, s': State<S, M>, th: nat)
    requires 0 < |s.pcs| == |s.flags| == |s'.pcs| == |s'.flags| && Workers(s) && Ready(s)
    requires 1 <= th < Raised(s) && s'.pcs == s.pcs[th := s'.pcs[th]] && s'.flags == s.flags[th := s'.flags[th]]
    requires s'.pcs[th].Waiting? || (s'.pcs[th].Woken? && s'.flags[th]) || (Dispatching(s'.pcs[th]) && !s'.flags[th])
    requires !AtRest(s, th) && s'.ready == s.ready + (if AtRest(s', th) then 1 else 0)
    ensures Workers(s') && Ready(s')
  {
    hide Dispatching;
    assert Raised(s') == Raised(s);
    RestingChange(s, s', th, Raised(s));
  }

  lemma WorkerStep<F, S, M>(env: Env<F, S, M>, s: State<S, M>, th: nat)
    requires ThreadsInv(env, s) && 1 <= th < env.numThreads
    requires Shape(env, Step(env, s, th))
    ensures ThreadsInv(env, Step(env, s, th))
  {
    hide Ready, Resting;
    var s' := Step(env, s, th);
    if AtRest(s, th) {
      assert s' == s;
    } else {
      WorkerMoves(s, s', th);
    }
  }

  lemma RaisedOne<S, M>(s: State<S, M>, s': State<S, M>, i: nat)
    requires i <= |s'.pcs| == |s'.flags|
    ensures i < |s'.pcs| && s'.flags[i] ==> Resting(s', i + 1) == Resting(s', i)
    ensures Resting(s', 0) == 0
  {
  }

  lemma MainStep<F, S, M>(env: Env<F, S, M>, s: State<S, M>)
    requires ThreadsInv(env, s)
    requires Shape(env, Step(env, s, 0))
    ensures ThreadsInv(env, Step(env, s, 0))
  {
    hide Resting;
    var s' := Step(env, s, 0);
    if s.pcs[0].Raising? {
      RestingChange(s, s', s.pcs[0].at, s.pcs[0].at);
      RaisedOne(s, s', s.pcs[0].at);
    } else if s.pcs[0].Barrier? {
      RestingFull(s, |s.pcs|);
      forall w | 1 <= w < |s.pcs| && s' != s ensures AtRest(s', w) {
        assert AtRest(s, w);
      }
    } else if s.pcs[0].Resetting? {
      RaisedOne(s, s', 0);
    } else {
      RestingChange(s, s', 0, Raised(s));
    }
  }

  // ----- every step keeps the invariant: tiles

  ghost predicate TilesInv<F, S, M>(env: Env<F, S, M>, s: State<S, M>) {
    ValidEnv(env) && Shape(env, s) && Custody(env, s) && forall t :: 0 <= t < env.numTiles ==> TileOk(env, s, t)
  }

  predicate Handling<S, M>(pc: Pc<S, M>) {
    pc.Working? || pc.Storing?
  }

  /** The wanted tiles are the same in both states. */
  ghost predicate SameSchedule<F, S, M>(env: Env<F, S, M>, s: State<S, M>, s': State<S, M>)
    requires |s.pcs| > 0 && |s'.pcs| > 0
  {
    forall t :: 0 <= t < env.numTiles ==> Scheduled(env, s', t) == Scheduled(env, s, t)
  }

  /** Steps that touch neither tiles nor queue. */
  lemma TilesUntouched<F, S, M>(env: Env<F, S, M>, s: State<S, M>, s': State<S, M>, th: nat)
    requires TilesInv(env, s) && Shape(env, s') && th < |s.pcs|
    requires s'.pcs == s.pcs[th := s'.pcs[th]] && !Handling(s.pcs[th]) && !Handling(s'.pcs[th])
    requires (s'.queue, s'.tiles, s'.vecMeas, s'.round, s'.status, s'.runs)
             == (s.queue, s.tiles, s.vecMeas, s.round, s.status, s.runs)
    requires SameSchedule(env, s, s')
    ensures TilesInv(env, s')
  {
    hide Scheduled, TilesAt, TileStep;
    forall t | 0 <= t < env.numTiles ensures TileOk(env, s', t) {
      assert TileOk(env, s, t);
    }
  }

  lemma TileTaken<F, S, M>(env: Env<F, S, M>, s: State<S, M>, th: nat)
    requires TilesInv(env, s) && th < env.numThreads && s.pcs[th].Taking? && s.queue != []
    ensures TilesInv(env, Step(env, s, th))
  {
    hide TilesAt, TileStep;
    var s', tile := Step(env, s, th), s.queue[0];
    assert SameSchedule(env, s, s');
    hide Scheduled;
    forall t | 0 <= t < env.numTiles ensures TileOk(env, s', t) {
      assert TileOk(env, s, t);
    }
    forall t | 0 <= t < env.numTiles && s'.status[t] == Queued ensures t in s'.queue {
      var i :| 0 <= i < |s.queue| && s.queue[i] == t;
      assert s'.queue[i - 1] == t;
    }
  }

  lemma TileComputed<F, S, M>(env: Env<F, S, M>, s: State<S, M>, th: nat)
    requires TilesInv(env, s) && th < env.numThreads && s.pcs[th].Working?
    ensures TilesInv(env, Step(env, s, th))
  {
    hide TilesAt, TileStep;
    var s' := Step(env, s, th);
    assert SameSchedule(env, s, s');
    hide Scheduled;
    assert TileOk(env, s, s.pcs[th].tile);
    forall t | 0 <= t < env.numTiles ensures TileOk(env, s', t) {
      assert TileOk(env, s, t);
    }
  }

  lemma TileStored<F, S, M>(env: Env<F, S, M>, s: State<S, M>, th: nat)
    requires TilesInv(env, s) && th < env.numThreads && s.pcs[th].Storing?
    ensures TilesInv(env, Step(env, s, th))
  {
    hide TilesAt;
    var s', tile := Step(env, s, th), s.pcs[th].tile;
    assert SameSchedule(env, s, s');
    assert TileOk(env, s, tile) && Scheduled(env, s, tile);
    assert env.need(s.round, tile);
    hide Scheduled;
    forall t | 0 <= t < env.numTiles ensures TileOk(env, s', t) {
      assert TileOk(env, s, t);
    }
  }

  lemma TileScheduled<F, S, M>(env: Env<F, S, M>, s: State<S, M>)
    requires TilesInv(env, s) && s.pcs[0].Scheduling? && s.pcs[0].at < env.numTiles
    ensures TilesInv(env, Step(env, s, 0))
  {
    hide TilesAt, TileStep;
    var s', at := Step(env, s, 0), s.pcs[0].at;
    assert TileOk(env, s, at);
    forall t | 0 <= t < env.numTiles ensures TileOk(env, s', t) {
      assert TileOk(env, s, t);
    }
    forall t | 0 <= t < env.numTiles && s'.status[t] == Queued ensures t in s'.queue {
      if t == at {
        assert s'.queue[|s.queue|] == at;
      }
    }
  }

  /** At the merge each wanted tile was processed exactly once, and the results are the sequential ones. */
  lemma MergeFacts<F, S, M>(env: Env<F, S, M>, s: State<S, M>)
    requires Inv(env, s) && s.pcs[0].Merging?
    ensures forall t :: 0 <= t < env.numTiles ==> s.runs[t] == if env.need(s.round, t) then 1 else 0
    ensures s.vecMeas == MeasAt(env, s.round)
    ensures s.tiles == TilesAt(env, s.round + 1)
  {
    hide TilesAt;
    TilesAtNext(env, s.round);
    forall t | 0 <= t < env.numTiles
      ensures s.runs[t] == if env.need(s.round, t) then 1 else 0
      ensures s.vecMeas[t] == MeasAt(env, s.round)[t]
      ensures s.tiles[t] == TilesAt(env, s.round + 1)[t]
    {
      assert TileOk(env, s, t);
      if s.status[t].Held? && s.status[t].thread > 0 {
        WorkersRest(s, s.status[t].thread);
      }
    }
  }

  lemma TilesAtNext<F, S, M>(env: Env<F, S, M>, round: nat)
    requires ValidEnv(env)
    ensures forall t :: 0 <= t < env.numTiles ==>
              TilesAt(env, round + 1)[t] == TileStep(env, round, t, TilesAt(env, round)[t]).1
  {
  }

  lemma Merges<F, S, M>(env: Env<F, S, M>, s: State<S, M>)
    requires Inv(env, s) && s.pcs[0].Merging?
    ensures Inv(env, Step(env, s, 0))
  {
    MainStep(env, s);
    MergeFacts(env, s);
    hide TilesAt, TileStep, MeasAt, Workers, Ready;
    var s' := Step(env, s, 0);
    forall w | 1 <= w < |s.pcs| ensures !Handling(s.pcs[w]) {
      WorkersRest(s, w);
    }
    forall t | 0 <= t < env.numTiles ensures TileOk(env, s', t) {
    }
  }

  lemma WorkersRest<S, M>(s: State<S, M>, w: nat)
    requires 1 <= w < |s.pcs| == |s.flags| && Workers(s) && Ready(s) && s.pcs[0].Merging?
    ensures AtRest(s, w)
  {
  }

  // ----- every run

  lemma ShapeKept<F, S, M>(env: Env<F, S, M>, s: State<S, M>, s': State<S, M>, th: nat)
    requires Shape(env, s) && th < |s.pcs| == |s'.pcs| && s'.pcs == s.pcs[th := s'.pcs[th]]
    requires Handling(s'.pcs[th]) ==> s'.pcs[th].tile < env.numTiles
    requires |s'.flags| == |s.flags| && |s'.tiles| == |s'.vecMeas| == |s'.status| == |s'.runs| == env.numTiles
    requires forall i :: 0 <= i < |s'.queue| ==> s'.queue[i] < env.numTiles
    ensures Shape(env, s')
  {
  }

  lemma StepShape<F, S, M>(env: Env<F, S, M>, s: State<S, M>, th: nat)
    requires Shape(env, s) && th < env.numThreads
    ensures Shape(env, Step(env, s, th))
  {
    var s' := Step(env, s, th);
    StepPcs(env, s, th);
    StepSizes(env, s, th);
    hide Step;
    ShapeKept(env, s, s', th);
  }

  lemma StepPcs<F, S, M>(env: Env<F, S, M>, s: State<S, M>, th: nat)
    requires Shape(env, s) && th < env.numThreads
    ensures var s' := Step(env, s, th);
            && |s'.pcs| == |s.pcs| && s'.pcs == s.pcs[th := s'.pcs[th]]
            && (Handling(s'.pcs[th]) ==> s'.pcs[th].tile < env.numTiles)
  {
    StepHandles(env, s, th);
    hide Shape, Handling, Merged;
  }

  lemma StepHandles<F, S, M>(env: Env<F, S, M>, s: State<S, M>, th: nat)
    requires Shape(env, s) && th < env.numThreads
    ensures var s' := Step(env, s, th);
            th < |s.pcs| == |s'.pcs| && (Handling(s'.pcs[th]) ==> s'.pcs[th].tile < env.numTiles)
  {
    hide Merged;
  }

  lemma StepSizes<F, S, M>(env: Env<F, S, M>, s: State<S, M>, th: nat)
    requires Shape(env, s) && th < env.numThreads
    ensures var s' := Step(env, s, th);
            && |s'.flags| == |s.flags| && |s'.tiles| == |s'.vecMeas| == |s'.status| == |s'.runs| == env.numTiles
            && forall i :: 0 <= i < |s'.queue| ==> s'.queue[i] < env.numTiles
  {
    StepQueue(env, s, th);
    StepLists(env, s, th);
    hide Step, Merged, Handling, MeasAt, TilesAt;
  }

  lemma StepLists<F, S, M>(env: Env<F, S, M>, s: State<S, M>, th: nat)
    requires Shape(env, s) && th < env.numThreads
    ensures var s' := Step(env, s, th);
            |s'.flags| == |s.flags| && |s'.tiles| == |s'.vecMeas| == |s'.status| == |s'.runs| == env.numTiles
  {
    hide Merged, MeasAt, TilesAt;
  }

  lemma StepQueue<F, S, M>(env: Env<F, S, M>, s: State<S, M>, th: nat)
    requires Shape(env, s) && th < env.numThreads
    ensures var q := Step(env, s, th).queue;
            q == s.queue || (s.queue != [] && q == s.queue[1..]) ||
            (s.pcs[th].Scheduling? && s.pcs[th].at < env.numTiles && q == s.queue + [s.pcs[th].at])
  {
    hide Merged;
  }

  lemma StepTiles<F, S, M>(env: Env<F, S, M>, s: State<S, M>, th: nat)
    requires Inv(env, s) && th < env.numThreads && !s.pcs[th].Merging?
    ensures TilesInv(env, Step(env, s, th))
  {
    StepShape(env, s, th);
    var s', pc := Step(env, s, th), s.pcs[th];
    hide Custody, TileOk, TilesAt, Ready;
    if pc.Taking? && s.queue != [] {
      TileTaken(env, s, th);
    } else if pc.Working? {
      TileComputed(env, s, th);
    } else if pc.Storing? {
      TileStored(env, s, th);
    } else if pc.Scheduling? && pc.at < env.numTiles && env.need(s.round, pc.at) {
      TileScheduled(env, s);
    } else if s' != s {
      TilesUntouched(env, s, s', th);
    }
  }

  lemma StepKeeps<F, S, M>(env: Env<F, S, M>, s: State<S, M>, th: nat)
    requires Inv(env, s) && th < env.numThreads
    ensures Inv(env, Step(env, s, th))
  {
    hide Custody, TileOk, TilesAt, Ready;
    if s.pcs[th].Merging? {
      assert th == 0;
      Merges(env, s);
    } else {
      StepShape(env, s, th);
      StepTiles(env, s, th);
      if th == 0 {
        MainStep(env, s);
      } else {
        WorkerStep(env, s, th);
      }
    }
  }

  predicate Threads(schedule: seq<nat>, n: nat) {
    forall i :: 0 <= i < |schedule| ==> schedule[i] < n
  }

  /** The state after the steps of a schedule. */
  ghost function Run<F, S, M>(env: Env<F, S, M>, schedule: seq<nat>): (s: State<S, M>)
    requires ValidEnv(env) && Threads(schedule, env.numThreads)
    ensures Shape(env, s)
  {
    if schedule == [] then Init(env)
    else
      var n := |schedule| - 1;
      var before := Run(env, schedule[..n]);
      StepShape(env, before, schedule[n]);
      Step(env, before, schedule[n])
  }

  /** The invariant holds after every schedule. */
  lemma {:induction false} RunKeeps<F, S, M>(env: Env<F, S, M>, schedule: seq<nat>)
    requires ValidEnv(env) && Threads(schedule, env.numThreads)
    ensures Inv(env, Run(env, schedule))
  {
    if schedule == [] {
      InitInv(env);
    } else {
      var n := |schedule| - 1;
      RunKeeps(env, schedule[..n]);
      hide Inv;
      StepKeeps(env, Run(env, schedule[..n]), schedule[n]);
    }
  }

  lemma InitInv<F, S, M>(env: Env<F, S, M>)
    requires ValidEnv(env)
    ensures Inv(env, Init(env))
  {
    forall t | 0 <= t < env.numTiles ensures TileOk(env, Init<F, S, M>(env), t) {
    }
  }

  /** In every interleaving: once the main thread has left the ready-counter wait, every wanted tile was
      processed exactly once and no other, the queue is empty, all worker flags are clear, every worker is
      back at its wait, and the per-tile results and states are those of sequential processing. */
  lemma BarrierIsSafe<F, S, M>(env: Env<F, S, M>, schedule: seq<nat>)
    requires ValidEnv(env) && Threads(schedule, env.numThreads)
    requires Run(env, schedule).pcs[0].Merging?
    ensures var s := Run(env, schedule);
            && (forall t :: 0 <= t < env.numTiles ==> s.runs[t] == if env.need(s.round, t) then 1 else 0)
            && s.queue == [] && (forall w :: 1 <= w < env.numThreads ==> s.pcs[w].Waiting? && !s.flags[w])
            && s.vecMeas == MeasAt(env, s.round) && s.tiles == TilesAt(env, s.round + 1)
  {
    RunKeeps(env, schedule);
    var s := Run(env, schedule);
    hide Run, Custody, TileOk, MeasAt, TilesAt;
    MergeFacts(env, s);
    forall w | 1 <= w < env.numThreads ensures s.pcs[w].Waiting? && !s.flags[w] {
      WorkersRest(s, w);
    }
  }

  /** In every interleaving, each completed call returned what processing its tiles one after the other,
      in index order, would have returned. */
  lemma OutputsAreSequential<F, S, M>(env: Env<F, S, M>, schedule: seq<nat>)
    requires ValidEnv(env) && Threads(schedule, env.numThreads)
    ensures var s := Run(env, schedule);
            && |s.outputs| == s.round
            && forall r :: 0 <= r < s.round ==> InTileOrder(env.renumber, MeasAt(env, r), s.outputs[r])
  {
    RunKeeps(env, schedule);
    var s := Run(env, schedule);
    hide Run, Merged, InTileOrder;
    forall r | 0 <= r < s.round ensures InTileOrder(env.renumber, MeasAt(env, r), s.outputs[r]) {
      MergedInTileOrder(env.renumber, MeasAt(env, r));
    }
  }

  /** While the main thread fills the queue without the lock, and while it reads the results, no worker is
      inside dispatch_calc. */
  lemma UnlockedAccessIsAlone<F, S, M>(env: Env<F, S, M>, schedule: seq<nat>, w: nat)
    requires ValidEnv(env) && Threads(schedule, env.numThreads)
    requires 1 <= w < env.numThreads
    ensures var s := Run(env, schedule);
            s.pcs[0].Scheduling? || s.pcs[0].Resetting? || s.pcs[0].Merging? ==> s.pcs[w].Waiting? && !s.flags[w]
  {
    RunKeeps(env, schedule);
    var s := Run(env, schedule);
    hide Run, Custody, TileOk;
    if s.pcs[0].Merging? {
      WorkersRest(s, w);
    }
  }

  // ----- no interleaving hangs

  lemma {:induction false} RestingAll<S, M>(s: State<S, M>, n: nat)
    requires 1 <= n <= |s.pcs| == |s.flags| && forall w :: 1 <= w < n ==> AtRest(s, w)
    ensures Resting(s, n) == n - 1
  {
    if n > 1 {
      RestingAll(s, n - 1);
    }
  }

  /** In every reachable state some thread can make a step. */
  lemma SomeThreadMoves<F, S, M>(env: Env<F, S, M>, s: State<S, M>) returns (th: nat)
    requires Inv(env, s)
    ensures th < env.numThreads && Step(env, s, th) != s
  {
    hide Custody, TileOk, MeasAt;
    th := 0;
    if s.pcs[0].Barrier? && s.ready != env.numThreads {
      if forall w :: 1 <= w < env.numThreads ==> AtRest(s, w) {
        RestingAll(s, env.numThreads);
      }
      var w :| 1 <= w < env.numThreads && !AtRest(s, w);
      th := w;
    }
    assert Step(env, s, th).pcs[th] != s.pcs[th];
  }

  /** How much thread `th` has still to do in this round. */
  function Rank<S, M>(s: State<S, M>, th: nat, numTiles: nat): nat
    requires th < |s.pcs| == |s.flags|
  {
    match s.pcs[th]
    case Waiting => if s.flags[th] then 5 else 0
    case Woken => 4
    case Taking => 3
    case Working(_) => 5
    case Storing(_, _, _) => 4
    case Counting => 2
    case Scheduling(t) => 6 + 6 * |s.pcs| + 4 * (if t < numTiles then numTiles - t else 0)
    case Resetting => 5 + 6 * |s.pcs|
    case Raising(i) => 4 + 6 * (if i < |s.pcs| then |s.pcs| - i else 0)
    case Barrier => 1
    case Merging => 0
  }

  ghost function RankSum<S, M>(s: State<S, M>, n: nat, numTiles: nat): nat
    requires n <= |s.pcs| == |s.flags|
  {
    if n == 0 then 0 else RankSum(s, n - 1, numTiles) + Rank(s, n - 1, numTiles)
  }

  ghost function Work<F, S, M>(env: Env<F, S, M>, s: State<S, M>): nat
    requires Shape(env, s)
  {
    RankSum(s, env.numThreads, env.numTiles) + 3 * |s.queue|
  }

  lemma {:induction false} RankSumChange<S, M>(s: State<S, M>, s': State<S, M>, th: nat, n: nat, numTiles: nat)
    requires th < n <= |s.pcs| == |s.flags| == |s'.pcs| == |s'.flags|
    requires forall w :: 0 <= w < n && w != th ==> Rank(s', w, numTiles) == Rank(s, w, numTiles)
    ensures RankSum(s', n, numTiles) - RankSum(s, n, numTiles) == Rank(s', th, numTiles) - Rank(s, th, numTiles)
  {
    if th == n - 1 {
      RankSumSame(s, s', n - 1, numTiles);
    } else {
      RankSumChange(s, s', th, n - 1, numTiles);
    }
  }

  lemma {:induction false} RankSumSame<S, M>(s: State<S, M>, s': State<S, M>, n: nat, numTiles: nat)
    requires n <= |s.pcs| == |s.flags| == |s'.pcs| == |s'.flags|
    requires forall w :: 0 <= w < n ==> Rank(s', w, numTiles) == Rank(s, w, numTiles)
    ensures RankSum(s', n, numTiles) == RankSum(s, n, numTiles)
  {
    if n > 0 {
      RankSumSame(s, s', n - 1, numTiles);
    }
  }

  /** Raising a flag costs the main thread more than it gives a resting worker to do. */
  lemma FlagRaised<F, S, M>(env: Env<F, S, M>, s: State<S, M>)
    requires Inv(env, s) && s.pcs[0].Raising? && s.pcs[0].at < env.numThreads
    ensures Shape(env, Step(env, s, 0)) && Work(env, Step(env, s, 0)) < Work(env, s)
  {
    hide Custody, TileOk, MeasAt, RankSum;
    StepShape(env, s, 0);
    var i, n, s' := s.pcs[0].at, env.numThreads, Step(env, s, 0);
    var mid := s.(flags := s'.flags);
    assert i > 0 ==> AtRest(s, i);
    RankSumChange(s, mid, i, n, env.numTiles);
    RankSumChange(mid, s', 0, n, env.numTiles);
  }

  /** Every step that changes anything, up to the merge, uses up some of the work of the round. */
  lemma StepsUseUpWork<F, S, M>(env: Env<F, S, M>, s: State<S, M>, th: nat)
    requires Inv(env, s) && th < env.numThreads && Step(env, s, th) != s && !s.pcs[th].Merging?
    ensures Shape(env, Step(env, s, th)) && Work(env, Step(env, s, th)) < Work(env, s)
  {
    StepShape(env, s, th);
    hide Custody, TileOk, MeasAt, RankSum;
    if s.pcs[th].Raising? && s.pcs[th].at < env.numThreads {
      FlagRaised(env, s);
    } else {
      OwnRankDrops(env, s, th);
      OtherRanksKept(env, s, th);
      hide *;
      RankSumChange(s, Step(env, s, th), th, env.numThreads, env.numTiles);
      WorkIs(env, s);
      WorkIs(env, Step(env, s, th));
    }
  }

  lemma WorkIs<F, S, M>(env: Env<F, S, M>, s: State<S, M>)
    requires Shape(env, s)
    ensures Work(env, s) == RankSum(s, env.numThreads, env.numTiles) + 3 * |s.queue|
    ensures |s.pcs| == |s.flags| == env.numThreads
  {
  }

  lemma OwnRankDrops<F, S, M>(env: Env<F, S, M>, s: State<S, M>, th: nat)
    requires Shape(env, s) && th < env.numThreads && Step(env, s, th) != s && !s.pcs[th].Merging?
    requires th != 0 && Dispatching(s.pcs[th]) ==> !s.flags[th]
    requires s.pcs[th].Raising? ==> s.pcs[th].at >= env.numThreads
    ensures var s' := Step(env, s, th);
            && th < |s'.pcs| == |s'.flags|
            && Rank(s', th, env.numTiles) + 3 * |s'.queue| < Rank(s, th, env.numTiles) + 3 * |s.queue|
  {
  }

  lemma OtherRanksKept<F, S, M>(env: Env<F, S, M>, s: State<S, M>, th: nat)
    requires Shape(env, s) && th < env.numThreads
    requires s.pcs[th].Raising? ==> s.pcs[th].at >= env.numThreads
    ensures var s' := Step(env, s, th);
            && |s'.pcs| == |s'.flags| == env.numThreads
            && forall w :: 0 <= w < env.numThreads && w != th ==> Rank(s', w, env.numTiles) == Rank(s, w, env.numTiles)
  {
    StepShape(env, s, th);
    StepPcs(env, s, th);
    FlagsKept(env, s, th);
    hide Step;
  }

  /** Only the main thread, while it raises flags, changes the flag of another thread. */
  lemma FlagsKept<F, S, M>(env: Env<F, S, M>, s: State<S, M>, th: nat)
    requires Shape(env, s) && th < env.numThreads
    requires s.pcs[th].Raising? ==> s.pcs[th].at >= env.numThreads
    ensures var s' := Step(env, s, th); s'.flags == s.flags || s'.flags == s.flags[th := false]
  {
    hide Merged;
  }

  /** The number of steps of a schedule that change anything. */
  ghost function Effective<F, S, M>(env: Env<F, S, M>, s: State<S, M>, schedule: seq<nat>): nat
    requires Inv(env, s) && Threads(schedule, env.numThreads)
    decreases |schedule|
  {
    if schedule == [] then 0
    else
      StepKeeps(env, s, schedule[0]);
      var next := Step(env, s, schedule[0]);
      (if next != s then 1 else 0) + Effective(env, next, schedule[1..])
  }

  /** The main thread stands at the merge in one of the states that the schedule passes. */
  ghost predicate PassesMerge<F, S, M>(env: Env<F, S, M>, s: State<S, M>, schedule: seq<nat>)
    requires Inv(env, s) && Threads(schedule, env.numThreads)
    decreases |schedule|
  {
    s.pcs[0].Merging? ||
    (schedule != [] && (StepKeeps(env, s, schedule[0]); PassesMerge(env, Step(env, s, schedule[0]), schedule[1..])))
  }

  lemma OnlyMainMerges<F, S, M>(env: Env<F, S, M>, s: State<S, M>, th: nat)
    requires Inv(env, s) && th < env.numThreads && s.pcs[th].Merging?
    ensures th == 0
  {
    hide Custody, TileOk, MeasAt, TilesAt, Ready;
  }

  /** Every schedule with more effective steps than there is work left completes the round. */
  lemma {:induction false} RoundCompletes<F, S, M>(env: Env<F, S, M>, s: State<S, M>, schedule: seq<nat>)
    requires Inv(env, s) && Threads(schedule, env.numThreads) && Effective(env, s, schedule) > Work(env, s)
    ensures PassesMerge(env, s, schedule)
    decreases |schedule|
  {
    if !s.pcs[0].Merging? {
      var th, next := schedule[0], Step(env, s, schedule[0]);
      StepKeeps(env, s, th);
      if next != s {
        if s.pcs[th].Merging? {
          OnlyMainMerges(env, s, th);
        }
        StepsUseUpWork(env, s, th);
      }
      hide Inv, Step, Work;
      RoundCompletes(env, next, schedule[1..]);
    }
  }

  /** From every reachable state some schedule completes the round. */
  lemma {:induction false} RoundCanComplete<F, S, M>(env: Env<F, S, M>, s: State<S, M>) returns (schedule: seq<nat>)
    requires Inv(env, s)
    ensures Threads(schedule, env.numThreads) && PassesMerge(env, s, schedule)
    decreases Work(env, s)
  {
    schedule := [];
    if !s.pcs[0].Merging? {
      var th := SomeThreadMoves(env, s);
      StepKeeps(env, s, th);
      if s.pcs[th].Merging? {
        OnlyMainMerges(env, s, th);
      }
      StepsUseUpWork(env, s, th);
      hide Inv, Step, Work;
      var rest := RoundCanComplete(env, Step(env, s, th));
      schedule := [th] + rest;
      assert schedule[1..] == rest;
    }
  }
}
