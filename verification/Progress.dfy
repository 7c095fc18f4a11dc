/** No Start or Stop caller is ever stuck, and the bound on live workers is reached. */
module Progress {
  import opened Machine
  import opened Runtime

  // ----- Every Stop can return -----

  function WorkerRank(at: WorkerAt): nat {
    match at
    case Exited => 0
    case TickerStopped => 1
    case Leaving => 2
    case Selecting => 3
    case Calling => 4
    case Spawned => 4
    case Unspawned => 5
  }

  function LockRank(s: State): nat
    requires LockInv(s)
  {
    match s.lock
    case Nobody => 0
    case ByStart(q) =>
      (match s.starts[q].at case Holding => 3 case Made => 2 case _ => 1)
    case ByStop(q) =>
      (match s.stops[q].at case Inside => 4 case Taken => 3 case Half => 2 case _ => 1)
  }

  /** How many more steps Stop `p` needs at most, if only those steps are taken. */
  function Rank(s: State, p: nat): nat
    requires LockInv(s) && p < |s.stops|
  {
    var t := s.stops[p];
    match t.at
    case Finished => 0
    case Cancelled =>
      1 + (if t.done.Some? && t.done.value < |s.workers| then WorkerRank(s.workers[t.done.value].at) else 0)
    case Released => 7
    case Cleared => 8
    case Half => 9
    case Taken => 10
    case Inside => 11
    case Queued => 12 + LockRank(s)
  }

  /** The step of the worker that Stop `p` waits for. */
  function WorkerNext(s: State, p: nat, w: nat): Action
    requires w < |s.workers|
  {
    match s.workers[w].at
    case Unspawned => StartGo(s.workers[w].starter)
    case Spawned => Boot(w)
    case Selecting => SeeCancel(w)
    case Calling => EndCall(w)
    case Leaving => StopTicker(w)
    case TickerStopped => CloseDone(w)
    case Exited => StopWait(p)
  }

  /** The step of whoever holds the lock. */
  function HolderNext(s: State): Action
    requires LockInv(s) && s.lock != Nobody
  {
    match s.lock
    case ByStart(q) =>
      (match s.starts[q].at
       case Holding => if s.cancel.Some? then StartRefuse(q) else StartMake(q)
       case Made => StartInstall(q)
       case _ => StartUnlock(q))
    case ByStop(q) => InsideNext(s, q)
  }

  function LockNext(s: State, p: nat): Action
    requires LockInv(s)
  {
    if s.lock == Nobody then StopLock(p) else HolderNext(s)
  }

  function InsideNext(s: State, q: nat): Action
    requires q < |s.stops|
  {
    match s.stops[q].at
    case Inside => StopTake(q)
    case Taken => StopClearCancel(q)
    case Half => StopClearDone(q)
    case Cleared => StopUnlock(q)
    case Released => StopCancel(q)
    case _ => StopWait(q)
  }

  function NextFor(s: State, p: nat): Action
    requires LockInv(s) && p < |s.stops|
  {
    if s.stops[p].at == Queued then LockNext(s, p)
    else if s.stops[p].at == Cancelled && s.stops[p].done.Some? && s.stops[p].done.value < |s.workers| then
      WorkerNext(s, p, s.stops[p].done.value)
    else InsideNext(s, p)
  }

  lemma StarterAdvances(s: State, q: nat)
    requires Inv(s) && s.lock == ByStart(q)
    ensures Enabled(s, HolderNext(s)) && LockInv(Do(s, HolderNext(s)))
    ensures s.stops == Do(s, HolderNext(s)).stops
    ensures forall p: nat :: p != q && StartIs(s, p, Wanting) ==> StartIs(Do(s, HolderNext(s)), p, Wanting)
    ensures LockRank(Do(s, HolderNext(s))) < LockRank(s)
  {
    StepInv(s, HolderNext(s));
  }

  lemma StopperAdvances(s: State, q: nat)
    requires Inv(s) && s.lock == ByStop(q)
    ensures Enabled(s, HolderNext(s)) && LockInv(Do(s, HolderNext(s)))
    ensures s.starts == Do(s, HolderNext(s)).starts
    ensures forall p: nat :: StopIs(s, p, Queued) ==> StopIs(Do(s, HolderNext(s)), p, Queued)
    ensures LockRank(Do(s, HolderNext(s))) < LockRank(s)
  {
    assert StopInv(s, q);
    StepInv(s, HolderNext(s));
  }

  lemma LockAdvances(s: State, p: nat)
    requires Inv(s) && StopIs(s, p, Queued)
    ensures Enabled(s, LockNext(s, p)) && LockInv(Do(s, LockNext(s, p)))
    ensures p < |Do(s, LockNext(s, p)).stops|
    ensures Rank(Do(s, LockNext(s, p)), p) < Rank(s, p)
  {
    match s.lock
    case ByStart(q) => StarterAdvances(s, q);
    case ByStop(q) => StopperAdvances(s, q);
    case Nobody => StepInv(s, StopLock(p));
  }

  lemma WorkerAdvances(s: State, p: nat, w: nat)
    requires Inv(s) && StopIs(s, p, Cancelled) && s.stops[p].done == Some(w)
    ensures w < |s.workers| && Enabled(s, WorkerNext(s, p, w)) && LockInv(Do(s, WorkerNext(s, p, w)))
    ensures p < |Do(s, WorkerNext(s, p, w)).stops|
    ensures Rank(Do(s, WorkerNext(s, p, w)), p) < Rank(s, p)
  {
    assert StopInv(s, p);
    assert WorkerInv(s, w);
    StepInv(s, WorkerNext(s, p, w));
  }

  lemma InsideAdvances(s: State, p: nat)
    requires Inv(s) && p < |s.stops| && s.stops[p].at in {Inside, Taken, Half, Cleared, Released, Cancelled}
    requires s.stops[p].at == Cancelled ==> s.stops[p].done == None
    ensures Enabled(s, InsideNext(s, p)) && LockInv(Do(s, InsideNext(s, p)))
    ensures p < |Do(s, InsideNext(s, p)).stops|
    ensures Rank(Do(s, InsideNext(s, p)), p) < Rank(s, p)
  {
    assert StopInv(s, p);
    StepInv(s, InsideNext(s, p));
  }

  /** From every reachable state each Stop caller can still return, in at most sixteen steps: the
      lock holder gets out, the worker it took is started if it was not, sees its cancelled context
      and closes done. That a call in progress ends is the only thing asked of the surroundings. */
  lemma StopCanReturn(before: seq<Action>, s: State, p: nat) returns (run: seq<Action>, s': State)
    requires Exec(INIT, before) == Some(s) && p < |s.stops|
    ensures Exec(s, run) == Some(s') && StopIs(s', p, Finished) && |run| <= 16
  {
    InitInv();
    ExecInv(INIT, before);
    run, s' := CanReturn(s, p);
  }

  lemma Advances(s: State, p: nat)
    requires Inv(s) && p < |s.stops| && s.stops[p].at != Finished
    ensures Enabled(s, NextFor(s, p)) && LockInv(Do(s, NextFor(s, p))) && p < |Do(s, NextFor(s, p)).stops|
    ensures Rank(Do(s, NextFor(s, p)), p) < Rank(s, p)
  {
    assert StopInv(s, p);
    if s.stops[p].at == Queued {
      LockAdvances(s, p);
    } else if s.stops[p].at == Cancelled && s.stops[p].done.Some? {
      WorkerAdvances(s, p, s.stops[p].done.value);
    } else {
      InsideAdvances(s, p);
    }
  }

  lemma {:induction false} CanReturn(s: State, p: nat) returns (run: seq<Action>, s': State)
    requires Inv(s) && p < |s.stops|
    ensures Exec(s, run) == Some(s') && StopIs(s', p, Finished) && |run| <= Rank(s, p)
    decreases Rank(s, p)
  {
    if s.stops[p].at == Finished {
      run, s' := [], s;
    } else {
      var a := NextFor(s, p);
      Advances(s, p);
      StepInv(s, a);
      var rest;
      rest, s' := CanReturn(Do(s, a), p);
      run := [a] + rest;
    }
  }

  // ----- Every Start can return -----

  /** How many more steps Start `p` needs at most, if only those steps are taken. */
  function StartRank(s: State, p: nat): nat
    requires LockInv(s) && p < |s.starts|
  {
    match s.starts[p].at
    case Returned => 0
    case Unlocked => 1
    case Installed => 2
    case Made => 3
    case Holding => 4
    case Wanting => 5 + LockRank(s)
  }

  function StartNext(s: State, p: nat): Action
    requires LockInv(s) && p < |s.starts|
  {
    match s.starts[p].at
    case Wanting => if s.lock == Nobody then StartLock(p) else HolderNext(s)
    case Holding => if s.cancel.Some? then StartRefuse(p) else StartMake(p)
    case Made => StartInstall(p)
    case Installed => StartUnlock(p)
    case _ => StartGo(p)
  }

  lemma StartAdvances(s: State, p: nat)
    requires Inv(s) && p < |s.starts| && s.starts[p].at != Returned
    ensures Enabled(s, StartNext(s, p)) && LockInv(Do(s, StartNext(s, p)))
    ensures p < |Do(s, StartNext(s, p)).starts|
    ensures StartRank(Do(s, StartNext(s, p)), p) < StartRank(s, p)
  {
    if s.starts[p].at == Wanting && s.lock.ByStart? {
      StarterAdvances(s, s.lock.p);
    } else if s.starts[p].at == Wanting && s.lock.ByStop? {
      StopperAdvances(s, s.lock.p);
    } else {
      assert StartInv(s, p);
      StepInv(s, StartNext(s, p));
    }
  }

  lemma {:induction false} StartEnds(s: State, p: nat) returns (run: seq<Action>, s': State)
    requires Inv(s) && p < |s.starts|
    ensures Exec(s, run) == Some(s') && StartIs(s', p, Returned) && |run| <= StartRank(s, p)
    decreases StartRank(s, p)
  {
    if s.starts[p].at == Returned {
      run, s' := [], s;
    } else {
      var a := StartNext(s, p);
      StartAdvances(s, p);
      StepInv(s, a);
      var rest;
      rest, s' := StartEnds(Do(s, a), p);
      run := [a] + rest;
    }
  }

  /** From every reachable state each Start caller can still return, in at most nine steps. */
  lemma StartCanReturn(before: seq<Action>, s: State, p: nat) returns (run: seq<Action>, s': State)
    requires Exec(INIT, before) == Some(s) && p < |s.starts|
    ensures Exec(s, run) == Some(s') && StartIs(s', p, Returned) && |run| <= 9
  {
    InitInv();
    ExecInv(INIT, before);
    run, s' := StartEnds(s, p);
  }

  // ----- The bound on live workers is reached -----

  predicate Idle(s: State) { s.lock == Nobody && s.cancel == None && s.done == None }

  lemma TwoSteps(s: State, a: Action, b: Action)
    requires Enabled(s, a) && Enabled(Do(s, a), b)
    ensures Exec(s, [a, b]) == Some(Do(Do(s, a), b))
  {
    assert [a, b][1..] == [b] && [b][1..] == [];
    assert Exec(Do(s, a), [b]) == Exec(Do(Do(s, a), b), []);
  }

  /** Three runs one after another. */
  lemma InTurn(s: State, r1: seq<Action>, s1: State, r2: seq<Action>, s2: State, r3: seq<Action>, s3: State)
    requires Exec(s, r1) == Some(s1) && Exec(s1, r2) == Some(s2) && Exec(s2, r3) == Some(s3)
    ensures Exec(s, r1 + r2 + r3) == Some(s3)
  {
    ExecConcat(s, r1, r2);
    ExecConcat(s, r1 + r2, r3);
  }

  function StartRound(p: nat): seq<Action> {
    [CallStart, StartLock(p)] + [StartMake(p), StartInstall(p)] + [StartUnlock(p), StartGo(p)]
  }

  function Started(s: State): State {
    s.(cancel := Some(|s.workers|), done := Some(|s.workers|),
       starts := s.starts + [Start(Returned, |s.workers|)],
       workers := s.workers + [Worker(Spawned, false, 0, |s.starts|, None)])
  }

  function StartInside(s: State): State {
    s.(lock := ByStart(|s.starts|), starts := s.starts + [Start(Holding, 0)])
  }

  function StartReady(s: State): State {
    s.(lock := ByStart(|s.starts|), cancel := Some(|s.workers|), done := Some(|s.workers|),
       starts := s.starts + [Start(Installed, |s.workers|)],
       workers := s.workers + [Worker(Unspawned, false, 0, |s.starts|, None)])
  }

  lemma StartEnters(s: State)
    requires Idle(s)
    ensures Exec(s, [CallStart, StartLock(|s.starts|)]) == Some(StartInside(s))
  {
    TwoSteps(s, CallStart, StartLock(|s.starts|));
    assert Do(Do(s, CallStart), StartLock(|s.starts|)) == StartInside(s);
  }

  lemma StartInstalls(s: State)
    requires Idle(s)
    ensures Exec(StartInside(s), [StartMake(|s.starts|), StartInstall(|s.starts|)]) == Some(StartReady(s))
  {
    var p := |s.starts|;
    TwoSteps(StartInside(s), StartMake(p), StartInstall(p));
    assert Do(Do(StartInside(s), StartMake(p)), StartInstall(p)) == StartReady(s);
  }

  lemma StartSpawns(s: State)
    requires Idle(s)
    ensures Exec(StartReady(s), [StartUnlock(|s.starts|), StartGo(|s.starts|)]) == Some(Started(s))
  {
    var p := |s.starts|;
    TwoSteps(StartReady(s), StartUnlock(p), StartGo(p));
    assert Do(Do(StartReady(s), StartUnlock(p)), StartGo(p)) == Started(s);
  }

  /** An uncontended Start registers a new worker and starts it. */
  lemma RunStart(s: State)
    requires Idle(s)
    ensures Exec(s, StartRound(|s.starts|)) == Some(Started(s))
  {
    var p := |s.starts|;
    StartEnters(s);
    StartInstalls(s);
    StartSpawns(s);
    InTurn(s, [CallStart, StartLock(p)], StartInside(s), [StartMake(p), StartInstall(p)], StartReady(s),
           [StartUnlock(p), StartGo(p)], Started(s));
  }

  function StopRound(p: nat): seq<Action> {
    [CallStop, StopLock(p)] + [StopTake(p), StopClearCancel(p)] + [StopClearDone(p), StopUnlock(p)]
  }

  function Taking(s: State, w: nat): State
    requires w < |s.workers|
  {
    s.(cancel := None, done := None,
       stops := s.stops + [Stop(Released, Some(w), Some(w), |s.workers|)],
       workers := s.workers[w := s.workers[w].(holder := Some(|s.stops|))])
  }

  function StopEntered(s: State): State {
    s.(lock := ByStop(|s.stops|), stops := s.stops + [Stop(Inside, None, None, 0)])
  }

  function StopHalf(s: State, w: nat): State {
    s.(lock := ByStop(|s.stops|), cancel := None, stops := s.stops + [Stop(Half, Some(w), Some(w), |s.workers|)])
  }

  lemma StopEnters(s: State)
    requires s.lock == Nobody
    ensures Exec(s, [CallStop, StopLock(|s.stops|)]) == Some(StopEntered(s))
  {
    var p := |s.stops|;
    var called := Do(s, CallStop);
    assert called.stops[p] == Stop(Queued, None, None, 0);
    TwoSteps(s, CallStop, StopLock(p));
    assert Do(called, StopLock(p)).stops == StopEntered(s).stops;
  }

  lemma StopTakes(s: State, w: nat)
    requires s.cancel == s.done == Some(w) && w < |s.workers|
    ensures Exec(StopEntered(s), [StopTake(|s.stops|), StopClearCancel(|s.stops|)]) == Some(StopHalf(s, w))
  {
    var p := |s.stops|;
    TwoSteps(StopEntered(s), StopTake(p), StopClearCancel(p));
    assert Do(Do(StopEntered(s), StopTake(p)), StopClearCancel(p)) == StopHalf(s, w);
  }

  lemma StopLeaves(s: State, w: nat)
    requires s.lock == Nobody && w < |s.workers|
    ensures Exec(StopHalf(s, w), [StopClearDone(|s.stops|), StopUnlock(|s.stops|)]) == Some(Taking(s, w))
  {
    var p := |s.stops|;
    TwoSteps(StopHalf(s, w), StopClearDone(p), StopUnlock(p));
    assert Do(Do(StopHalf(s, w), StopClearDone(p)), StopUnlock(p)) == Taking(s, w);
  }

  /** A Stop that has taken the registered worker and left the lock, but not called cancel yet. */
  lemma RunStop(s: State, w: nat)
    requires s.lock == Nobody && s.cancel == s.done == Some(w) && w < |s.workers|
    ensures Exec(s, StopRound(|s.stops|)) == Some(Taking(s, w))
  {
    var p := |s.stops|;
    StopEnters(s);
    StopTakes(s, w);
    StopLeaves(s, w);
    InTurn(s, [CallStop, StopLock(p)], StopEntered(s), [StopTake(p), StopClearCancel(p)], StopHalf(s, w),
           [StopClearDone(p), StopUnlock(p)], Taking(s, w));
  }

  predicate Piled(s: State, n: nat) {
    Idle(s) && |s.workers| == n == |s.stops|
    && (forall w :: 0 <= w < n ==> s.workers[w].at == Spawned)
    && (forall p :: 0 <= p < n ==> s.stops[p].at == Released && s.stops[p].cancel.Some?)
  }

  lemma {:induction false} Pile(n: nat) returns (run: seq<Action>, s: State)
    ensures Exec(INIT, run) == Some(s) && Piled(s, n)
  {
    if n == 0 {
      run, s := [], INIT;
    } else {
      var run0, s0 := Pile(n - 1);
      var s1 := Started(s0);
      RunStart(s0);
      RunStop(s1, n - 1);
      s := Taking(s1, n - 1);
      ExecConcat(INIT, run0, StartRound(|s0.starts|));
      ExecConcat(INIT, run0 + StartRound(|s0.starts|), StopRound(|s1.stops|));
      run := run0 + StartRound(|s0.starts|) + StopRound(|s1.stops|);
    }
  }

  function Below(n: nat): (r: set<nat>)
    ensures |r| == n && forall x: nat :: x in r <==> x < n
  {
    if n == 0 then {} else Below(n - 1) + {n - 1}
  }

  lemma PiledCounts(s: State, n: nat)
    requires |s.stops| == n && |s.workers| == n + 1 && forall w :: 0 <= w <= n ==> s.workers[w].at == Spawned
    requires forall p :: 0 <= p < n ==> s.stops[p].at == Released && s.stops[p].cancel.Some?
    ensures |InFlight(s)| == n && |LiveSet(s)| == n + 1
  {
    assert InFlight(s) == Below(n);
    assert LiveSet(s) == Below(n + 1);
  }

  /** For every `n` there is a run with `n` Stops in flight and `n + 1` live workers: a Start that
      overlaps a Stop in progress runs beside the worker being stopped. */
  lemma BoundIsReached(n: nat) returns (run: seq<Action>, s: State)
    ensures Exec(INIT, run) == Some(s) && |InFlight(s)| == n && |LiveSet(s)| == n + 1
  {
    var run0, s0 := Pile(n);
    RunStart(s0);
    s := Started(s0);
    run := run0 + StartRound(|s0.starts|);
    ExecConcat(INIT, run0, StartRound(|s0.starts|));
    PiledCounts(s, n);
  }
}
