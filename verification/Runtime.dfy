/** The start/stop protocol of a background runtime, as interleaved steps of any number of Start
    callers, Stop callers and worker goroutines over the shared mutex, cancel and done handles. */
module Runtime {
  import opened Machine

  // ----- State -----

  /** Where a Start caller is. */
  datatype StartAt =
    | Wanting        // before Lock
    | Holding        // inside the lock
    | Made           // worker `w` made, its cancel handle stored
    | Installed      // both handles stored
    | Unlocked       // lock released, goroutine not started yet
    | Returned

  datatype Start = Start(at: StartAt, w: nat)

  /** Where a Stop caller is. */
  datatype StopAt =
    | Queued         // before Lock
    | Inside         // inside the lock
    | Taken          // both handles copied
    | Half           // cancel handle cleared
    | Cleared        // both handles cleared
    | Released       // lock released, cancel() not called yet
    | Cancelled      // cancel() called, waiting on done
    | Finished

  /** `seen` only records how many workers there were when the handles were copied. */
  datatype Stop = Stop(at: StopAt, cancel: Option<nat>, done: Option<nat>, seen: nat)

  /** Where a worker goroutine is. */
  datatype WorkerAt =
    | Unspawned      // handles made, `go` not executed
    | Spawned        // running, no ticker yet
    | Selecting      // ticker live, in select
    | Calling        // inside ReconcileArtifactStore or ProcessReady
    | Leaving        // saw ctx.Done, ticker still live
    | TickerStopped  // deferred Stop done, deferred close pending
    | Exited

  /** `closes` counts close(done). `starter` and `holder` only record who made the worker and which
      Stop, if any, took its handles. */
  datatype Worker = Worker(at: WorkerAt, cancelled: bool, closes: nat, starter: nat, holder: Option<nat>)

  datatype Owner = Nobody | ByStart(p: nat) | ByStop(p: nat)

  datatype State = State(
    lock: Owner,
    cancel: Option<nat>,
    done: Option<nat>,
    starts: seq<Start>,
    stops: seq<Stop>,
    workers: seq<Worker>)

  const INIT: State := State(Nobody, None, None, [], [], [])

  // ----- Steps -----

  datatype Action =
    | CallStart | CallStartNil | CallStop
    | StartLock(p: nat) | StartRefuse(p: nat) | StartMake(p: nat) | StartInstall(p: nat)
    | StartUnlock(p: nat) | StartGo(p: nat)
    | StopLock(p: nat) | StopTake(p: nat) | StopClearCancel(p: nat) | StopClearDone(p: nat)
    | StopUnlock(p: nat) | StopCancel(p: nat) | StopWait(p: nat)
    | Boot(w: nat) | Tick(w: nat) | EndCall(w: nat) | SeeCancel(w: nat) | StopTicker(w: nat) | CloseDone(w: nat)

  predicate StartIs(s: State, p: nat, at: StartAt) { p < |s.starts| && s.starts[p].at == at }
  predicate StopIs(s: State, p: nat, at: StopAt) { p < |s.stops| && s.stops[p].at == at }
  predicate WorkerIs(s: State, w: nat, at: WorkerAt) { w < |s.workers| && s.workers[w].at == at }
  predicate Points(s: State, h: Option<nat>) { h.Some? ==> h.value < |s.workers| }

  predicate Enabled(s: State, a: Action) {
    match a
    case CallStart => true
    case CallStartNil => true
    case CallStop => true
    case StartLock(p) => StartIs(s, p, Wanting) && s.lock == Nobody
    case StartRefuse(p) => StartIs(s, p, Holding) && s.cancel.Some?
    case StartMake(p) => StartIs(s, p, Holding) && s.cancel.None?
    case StartInstall(p) => StartIs(s, p, Made)
    case StartUnlock(p) => StartIs(s, p, Installed)
    case StartGo(p) => StartIs(s, p, Unlocked) && s.starts[p].w < |s.workers|
    case StopLock(p) => StopIs(s, p, Queued) && s.lock == Nobody
    case StopTake(p) => StopIs(s, p, Inside)
    case StopClearCancel(p) => StopIs(s, p, Taken)
    case StopClearDone(p) => StopIs(s, p, Half) && Points(s, s.stops[p].cancel)
    case StopUnlock(p) => StopIs(s, p, Cleared)
    case StopCancel(p) => StopIs(s, p, Released) && Points(s, s.stops[p].cancel)
    case StopWait(p) =>
      StopIs(s, p, Cancelled) && Points(s, s.stops[p].done)
      && (s.stops[p].done.Some? ==> s.workers[s.stops[p].done.value].closes > 0)
    case Boot(w) => WorkerIs(s, w, Spawned)
    case Tick(w) => WorkerIs(s, w, Selecting)
    case EndCall(w) => WorkerIs(s, w, Calling)
    case SeeCancel(w) => WorkerIs(s, w, Selecting) && s.workers[w].cancelled
    case StopTicker(w) => WorkerIs(s, w, Leaving)
    case CloseDone(w) => WorkerIs(s, w, TickerStopped)
  }

  function MoveStart(s: State, p: nat, at: StartAt): State
    requires p < |s.starts|
  {
    s.(starts := s.starts[p := s.starts[p].(at := at)])
  }

  function MoveStop(s: State, p: nat, at: StopAt): State
    requires p < |s.stops|
  {
    s.(stops := s.stops[p := s.stops[p].(at := at)])
  }

  function MoveWorker(s: State, w: nat, at: WorkerAt): State
    requires w < |s.workers|
  {
    s.(workers := s.workers[w := s.workers[w].(at := at)])
  }

  function Do(s: State, a: Action): State
    requires Enabled(s, a)
  {
    match a
    case CallStart => s.(starts := s.starts + [Start(Wanting, 0)])
    case CallStartNil => s.(starts := s.starts + [Start(Returned, 0)])
    case CallStop => s.(stops := s.stops + [Stop(Queued, None, None, 0)])
    case StartLock(p) => MoveStart(s, p, Holding).(lock := ByStart(p))
    case StartRefuse(p) => MoveStart(s, p, Returned).(lock := Nobody)
    case StartMake(p) =>
      var w := |s.workers|;
      s.(starts := s.starts[p := Start(Made, w)], cancel := Some(w),
         workers := s.workers + [Worker(Unspawned, false, 0, p, None)])
    case StartInstall(p) => MoveStart(s, p, Installed).(done := Some(s.starts[p].w))
    case StartUnlock(p) => MoveStart(s, p, Unlocked).(lock := Nobody)
    case StartGo(p) => MoveWorker(MoveStart(s, p, Returned), s.starts[p].w, Spawned)
    case StopLock(p) => MoveStop(s, p, Inside).(lock := ByStop(p))
    case StopTake(p) => s.(stops := s.stops[p := Stop(Taken, s.cancel, s.done, |s.workers|)])
    case StopClearCancel(p) => MoveStop(s, p, Half).(cancel := None)
    case StopClearDone(p) =>
      var s' := MoveStop(s, p, Cleared).(done := None);
      (match s.stops[p].cancel
       case None => s'
       case Some(w) => s'.(workers := s.workers[w := s.workers[w].(holder := Some(p))]))
    case StopUnlock(p) => MoveStop(s, p, Released).(lock := Nobody)
    case StopCancel(p) =>
      var s' := MoveStop(s, p, Cancelled);
      (match s.stops[p].cancel
       case None => s'
       case Some(w) => s'.(workers := s.workers[w := s.workers[w].(cancelled := true)]))
    case StopWait(p) => MoveStop(s, p, Finished)
    case Boot(w) => MoveWorker(s, w, Selecting)
    case Tick(w) => MoveWorker(s, w, Calling)
    case EndCall(w) => MoveWorker(s, w, Selecting)
    case SeeCancel(w) => MoveWorker(s, w, Leaving)
    case StopTicker(w) => MoveWorker(s, w, TickerStopped)
    case CloseDone(w) =>
      s.(workers := s.workers[w := s.workers[w].(at := Exited, closes := s.workers[w].closes + 1)])
  }

  // ----- The invariant -----

  predicate Registered(s: State, w: nat) { s.cancel == Some(w) || s.done == Some(w) }

  predicate Owns(at: StopAt) {
    at == Cleared || at == Released || at == Cancelled || at == Finished
  }

  predicate Starting(at: StartAt) { at == Made || at == Installed || at == Unlocked }

  predicate Ending(at: WorkerAt) { at == Leaving || at == TickerStopped || at == Exited }

  /** Exactly the lock holder is inside, and what the handles are at each point inside. */
  predicate LockInv(s: State) {
    && (forall p :: 0 <= p < |s.starts| ==>
          (s.lock == ByStart(p) <==> s.starts[p].at in {Holding, Made, Installed}))
    && (forall p :: 0 <= p < |s.stops| ==>
          (s.lock == ByStop(p) <==> s.stops[p].at in {Inside, Taken, Half, Cleared}))
    && (s.lock.ByStart? ==> s.lock.p < |s.starts|)
    && (s.lock.ByStop? ==> s.lock.p < |s.stops|)
    && (match s.lock
        case ByStart(p) =>
          if s.starts[p].at == Made then s.cancel == Some(s.starts[p].w) && s.done == None
          else s.cancel == s.done && (s.starts[p].at == Installed ==> s.done == Some(s.starts[p].w))
        case ByStop(p) =>
          (match s.stops[p].at
           case Taken => s.cancel == s.done == s.stops[p].cancel == s.stops[p].done
           case Half => s.cancel == None && s.done == s.stops[p].cancel == s.stops[p].done
           case Cleared => s.cancel == None && s.done == None
           case _ => s.cancel == s.done)
        case Nobody => s.cancel == s.done)
  }

  predicate HandleInv(s: State, h: Option<nat>) {
    h.Some? ==> h.value < |s.workers| && s.workers[h.value].holder == None
  }

  predicate StartInv(s: State, p: nat)
    requires p < |s.starts|
  {
    Starting(s.starts[p].at) ==> s.starts[p].w < |s.workers| && s.workers[s.starts[p].w].starter == p
  }

  predicate StopInv(s: State, p: nat)
    requires p < |s.stops|
  {
    var t := s.stops[p];
    && (Owns(t.at) ==>
          t.cancel == t.done
          && (t.cancel.Some? ==> t.cancel.value < |s.workers| && s.workers[t.cancel.value].holder == Some(p)))
    && (t.at != Queued && t.at != Inside ==> t.seen <= |s.workers|)
    && (t.at != Queued && t.at != Inside ==> forall w :: 0 <= w < t.seen ==>
          t.cancel == Some(w) || (s.workers[w].holder.Some? && s.workers[w].holder != Some(p)))
  }

  predicate WorkerInv(s: State, w: nat)
    requires w < |s.workers|
  {
    var x := s.workers[w];
    && x.starter < |s.starts|
    && (x.at == Unspawned <==> Starting(s.starts[x.starter].at) && s.starts[x.starter].w == w)
    && x.closes == (if x.at == Exited then 1 else 0)
    && (Ending(x.at) ==> x.cancelled)
    && (match x.holder
        case None => Registered(s, w) && !x.cancelled
        case Some(p) =>
          && p < |s.stops| && Owns(s.stops[p].at) && s.stops[p].cancel == Some(w) == s.stops[p].done
          && !Registered(s, w)
          && (x.cancelled <==> s.stops[p].at == Cancelled || s.stops[p].at == Finished)
          && (s.stops[p].at == Finished ==> x.at == Exited)
          && (x.at == Unspawned ==> s.starts[x.starter].at == Unlocked))
  }

  predicate Inv(s: State) {
    && LockInv(s)
    && HandleInv(s, s.cancel) && HandleInv(s, s.done)
    && (forall p :: 0 <= p < |s.starts| ==> StartInv(s, p))
    && (forall p :: 0 <= p < |s.stops| ==> StopInv(s, p))
    && (forall w :: 0 <= w < |s.workers| ==> WorkerInv(s, w))
  }

  lemma InitInv()
    ensures Inv(INIT)
  {
  }

  lemma CallInv(s: State, a: Action)
    requires Inv(s) && Enabled(s, a)
    requires a.CallStart? || a.CallStartNil? || a.CallStop?
    ensures Inv(Do(s, a))
  {
    var s' := Do(s, a);
    forall p | 0 <= p < |s'.starts| ensures StartInv(s', p) { if p < |s.starts| { assert StartInv(s, p); } }
    forall p | 0 <= p < |s'.stops| ensures StopInv(s', p) { if p < |s.stops| { assert StopInv(s, p); } }
    forall w | 0 <= w < |s'.workers| ensures WorkerInv(s', w) { if w < |s.workers| { assert WorkerInv(s, w); } }
  }

  lemma StartStepInv(s: State, a: Action)
    requires Inv(s) && Enabled(s, a)
    requires a.StartLock? || a.StartRefuse? || a.StartInstall? || a.StartUnlock?
    ensures Inv(Do(s, a))
  {
    var s' := Do(s, a);
    forall p | 0 <= p < |s'.starts| ensures StartInv(s', p) { if p < |s.starts| { assert StartInv(s, p); } }
    forall p | 0 <= p < |s'.stops| ensures StopInv(s', p) { if p < |s.stops| { assert StopInv(s, p); } }
    forall w | 0 <= w < |s'.workers| ensures WorkerInv(s', w) { if w < |s.workers| { assert WorkerInv(s, w); } }
  }

  lemma MakeInv(s: State, a: Action)
    requires Inv(s) && Enabled(s, a)
    requires a.StartMake?
    ensures Inv(Do(s, a))
  {
    var s' := Do(s, a);
    forall p | 0 <= p < |s'.starts| ensures StartInv(s', p) { if p < |s.starts| { assert StartInv(s, p); } }
    forall p | 0 <= p < |s'.stops| ensures StopInv(s', p) { if p < |s.stops| { assert StopInv(s, p); } }
    forall w | 0 <= w < |s'.workers| ensures WorkerInv(s', w) { if w < |s.workers| { assert WorkerInv(s, w); } }
  }

  lemma GoInv(s: State, a: Action)
    requires Inv(s) && Enabled(s, a)
    requires a.StartGo?
    ensures Inv(Do(s, a))
  {
    var s' := Do(s, a);
    assert StartInv(s, a.p) && WorkerInv(s, s.starts[a.p].w);
    forall p | 0 <= p < |s'.starts| ensures StartInv(s', p) { if p < |s.starts| { assert StartInv(s, p); } }
    forall p | 0 <= p < |s'.stops| ensures StopInv(s', p) { if p < |s.stops| { assert StopInv(s, p); } }
    forall w | 0 <= w < |s'.workers| ensures WorkerInv(s', w) { if w < |s.workers| { assert WorkerInv(s, w); } }
  }

  lemma StopEnterInv(s: State, a: Action)
    requires Inv(s) && Enabled(s, a)
    requires a.StopLock? || a.StopClearCancel?
    ensures Inv(Do(s, a))
  {
    var s' := Do(s, a);
    forall p | 0 <= p < |s'.starts| ensures StartInv(s', p) { if p < |s.starts| { assert StartInv(s, p); } }
    forall p | 0 <= p < |s'.stops| ensures StopInv(s', p) { if p < |s.stops| { assert StopInv(s, p); } }
    forall w | 0 <= w < |s'.workers| ensures WorkerInv(s', w) { if w < |s.workers| { assert WorkerInv(s, w); } }
  }

  lemma StopLeaveInv(s: State, a: Action)
    requires Inv(s) && Enabled(s, a)
    requires a.StopUnlock? || a.StopWait?
    ensures Inv(Do(s, a))
  {
    var s' := Do(s, a);
    forall p | 0 <= p < |s'.starts| ensures StartInv(s', p) { if p < |s.starts| { assert StartInv(s, p); } }
    forall p | 0 <= p < |s'.stops| ensures StopInv(s', p) { if p < |s.stops| { assert StopInv(s, p); } }
    forall w | 0 <= w < |s'.workers| ensures WorkerInv(s', w) { if w < |s.workers| { assert WorkerInv(s, w); } }
  }

  lemma TakeInv(s: State, a: Action)
    requires Inv(s) && Enabled(s, a)
    requires a.StopTake?
    ensures Inv(Do(s, a))
  {
    var s' := Do(s, a);
    forall w | 0 <= w < |s.workers|
      ensures s.cancel == Some(w) || (s.workers[w].holder.Some? && s.workers[w].holder != Some(a.p))
    {
      assert WorkerInv(s, w);
    }
    forall p | 0 <= p < |s'.starts| ensures StartInv(s', p) { if p < |s.starts| { assert StartInv(s, p); } }
    forall p | 0 <= p < |s'.stops| ensures StopInv(s', p) { if p < |s.stops| { assert StopInv(s, p); } }
    forall w | 0 <= w < |s'.workers| ensures WorkerInv(s', w) { if w < |s.workers| { assert WorkerInv(s, w); } }
  }

  lemma ClearInv(s: State, a: Action)
    requires Inv(s) && Enabled(s, a) && a.StopClearDone?
    ensures Inv(Do(s, a))
  {
    var s' := Do(s, a);
    forall p | 0 <= p < |s'.starts| ensures StartInv(s', p) { assert StartInv(s, p); }
    forall p | 0 <= p < |s'.stops| ensures StopInv(s', p) { ClearKeepsStop(s, a, p); }
    forall w | 0 <= w < |s'.workers| ensures WorkerInv(s', w) { ClearKeepsWorker(s, a, w); }
  }

  lemma ClearKeepsStop(s: State, a: Action, p: nat)
    requires Inv(s) && Enabled(s, a) && a.StopClearDone? && p < |s.stops|
    ensures StopInv(Do(s, a), p)
  {
    assert StopInv(s, a.p) && StopInv(s, p) && HandleInv(s, s.done);
  }

  lemma ClearKeepsWorker(s: State, a: Action, w: nat)
    requires Inv(s) && Enabled(s, a) && a.StopClearDone? && w < |s.workers|
    ensures WorkerInv(Do(s, a), w)
  {
    assert StopInv(s, a.p) && WorkerInv(s, w) && HandleInv(s, s.done);
  }

  lemma CancelInv(s: State, a: Action)
    requires Inv(s) && Enabled(s, a) && a.StopCancel?
    ensures Inv(Do(s, a))
  {
    var s', c := Do(s, a), s.stops[a.p].cancel;
    assert StopInv(s, a.p);
    forall p | 0 <= p < |s'.starts| ensures StartInv(s', p) { assert StartInv(s, p); }
    forall p | 0 <= p < |s'.stops| ensures StopInv(s', p) { CancelKeepsStop(s, a, p); }
    forall w | 0 <= w < |s'.workers| ensures WorkerInv(s', w) { CancelKeepsWorker(s, a, w); }
  }

  lemma CancelKeepsStop(s: State, a: Action, p: nat)
    requires Inv(s) && Enabled(s, a) && a.StopCancel? && p < |s.stops|
    ensures StopInv(Do(s, a), p)
  {
    assert StopInv(s, a.p) && StopInv(s, p);
  }

  lemma CancelKeepsWorker(s: State, a: Action, w: nat)
    requires Inv(s) && Enabled(s, a) && a.StopCancel? && w < |s.workers|
    ensures WorkerInv(Do(s, a), w)
  {
    assert StopInv(s, a.p) && WorkerInv(s, w);
  }

  lemma WorkerLoopInv(s: State, a: Action)
    requires Inv(s) && Enabled(s, a)
    requires a.Tick? || a.EndCall?
    ensures Inv(Do(s, a))
  {
    var s' := Do(s, a);
    assert WorkerInv(s, a.w);
    forall p | 0 <= p < |s'.starts| ensures StartInv(s', p) { assert StartInv(s, p); }
    forall p | 0 <= p < |s'.stops| ensures StopInv(s', p) { assert StopInv(s, p); }
    forall w | 0 <= w < |s'.workers| ensures WorkerInv(s', w) { assert WorkerInv(s, w); }
  }

  lemma BootInv(s: State, a: Action)
    requires Inv(s) && Enabled(s, a) && a.Boot?
    ensures Inv(Do(s, a))
  {
    var s' := Do(s, a);
    assert WorkerInv(s, a.w);
    forall p | 0 <= p < |s'.starts| ensures StartInv(s', p) { assert StartInv(s, p); }
    forall p | 0 <= p < |s'.stops| ensures StopInv(s', p) { assert StopInv(s, p); }
    forall w | 0 <= w < |s'.workers| ensures WorkerInv(s', w) { assert WorkerInv(s, w); }
  }

  lemma WorkerLeaveInv(s: State, a: Action)
    requires Inv(s) && Enabled(s, a)
    requires a.SeeCancel? || a.StopTicker? || a.CloseDone?
    ensures Inv(Do(s, a))
  {
    var s' := Do(s, a);
    assert WorkerInv(s, a.w);
    forall p | 0 <= p < |s'.starts| ensures StartInv(s', p) { assert StartInv(s, p); }
    forall p | 0 <= p < |s'.stops| ensures StopInv(s', p) { assert StopInv(s, p); }
    forall w | 0 <= w < |s'.workers| ensures WorkerInv(s', w) { assert WorkerInv(s, w); }
  }

  /** Every step of every caller and worker keeps the invariant. */
  lemma StepInv(s: State, a: Action)
    requires Inv(s) && Enabled(s, a)
    ensures Inv(Do(s, a))
  {
    if a.CallStart? || a.CallStartNil? || a.CallStop? { CallInv(s, a); }
    else if a.StartLock? || a.StartRefuse? || a.StartInstall? || a.StartUnlock? { StartStepInv(s, a); }
    else if a.StartMake? { MakeInv(s, a); }
    else if a.StartGo? { GoInv(s, a); }
    else if a.StopLock? || a.StopClearCancel? { StopEnterInv(s, a); }
    else if a.StopUnlock? || a.StopWait? { StopLeaveInv(s, a); }
    else if a.StopTake? { TakeInv(s, a); }
    else if a.StopClearDone? { ClearInv(s, a); }
    else if a.StopCancel? { CancelInv(s, a); }
    else if a.Boot? { BootInv(s, a); }
    else if a.Tick? || a.EndCall? { WorkerLoopInv(s, a); }
    else { WorkerLeaveInv(s, a); }
  }

  // ----- Runs -----

  /** The state a run of actions from `s` ends in, if each was enabled in its turn. */
  function Exec(s: State, run: seq<Action>): Option<State>
    decreases |run|
  {
    if run == [] then Some(s)
    else if Enabled(s, run[0]) then Exec(Do(s, run[0]), run[1..])
    else None
  }

  lemma {:induction false} ExecInv(s: State, run: seq<Action>)
    requires Inv(s) && Exec(s, run).Some?
    ensures Inv(Exec(s, run).value)
    decreases |run|
  {
    if run != [] {
      StepInv(s, run[0]);
      ExecInv(Do(s, run[0]), run[1..]);
    }
  }

  lemma {:induction false} ExecConcat(s: State, run: seq<Action>, run': seq<Action>)
    requires Exec(s, run).Some?
    ensures Exec(s, run + run') == Exec(Exec(s, run).value, run')
    decreases |run|
  {
    if run == [] {
      assert run + run' == run';
    } else {
      assert (run + run')[1..] == run[1..] + run';
      ExecConcat(Do(s, run[0]), run[1..], run');
    }
  }

  // ----- Ownership -----

  predicate Live(s: State, w: nat) { w < |s.workers| && s.workers[w].at != Exited }

  /** Stop `p` has taken worker `w` out of the handles and has not returned. */
  predicate Claims(s: State, p: nat, w: nat) {
    p < |s.stops| && s.stops[p].at in {Cleared, Released, Cancelled} && s.stops[p].cancel == Some(w)
  }

  /** In every reachable state: while nobody is inside the lock the handles are both nil or both of
      one worker; each live worker is either registered or claimed by exactly one unfinished Stop,
      never both; a worker leaves its loop only after cancel; and it closes done exactly once,
      when it exits. */
  lemma Ownership(run: seq<Action>, s: State)
    requires Exec(INIT, run) == Some(s)
    ensures s.lock == Nobody ==> s.cancel == s.done
    ensures forall w: nat :: Live(s, w) ==> Registered(s, w) || exists p: nat :: Claims(s, p, w)
    ensures forall w: nat, p: nat, q: nat :: Claims(s, p, w) && Claims(s, q, w) ==> p == q
    ensures forall w: nat, p: nat :: Claims(s, p, w) ==> !Registered(s, w)
    ensures forall w: nat, x: nat :: Registered(s, w) && Registered(s, x) ==> w == x
    ensures forall w :: 0 <= w < |s.workers| && Ending(s.workers[w].at) ==> s.workers[w].cancelled
    ensures forall w :: 0 <= w < |s.workers| ==> s.workers[w].closes == if s.workers[w].at == Exited then 1 else 0
  {
    InitInv();
    ExecInv(INIT, run);
    forall w: nat | Live(s, w) ensures Registered(s, w) || exists p: nat :: Claims(s, p, w) {
      assert WorkerInv(s, w);
      if s.workers[w].holder.Some? { assert Claims(s, s.workers[w].holder.value, w); }
    }
    forall w: nat, p: nat | Claims(s, p, w)
      ensures w < |s.workers| && s.workers[w].holder == Some(p) && !Registered(s, w)
    {
      assert StopInv(s, p);
      assert WorkerInv(s, w);
    }
    forall w | 0 <= w < |s.workers|
      ensures Ending(s.workers[w].at) ==> s.workers[w].cancelled
      ensures s.workers[w].closes == if s.workers[w].at == Exited then 1 else 0
    {
      assert WorkerInv(s, w);
    }
  }

  function LiveSet(s: State): set<nat> { set w: nat | w < |s.workers| && Live(s, w) }

  function InFlight(s: State): set<nat> {
    set p: nat | p < |s.stops| && s.stops[p].at in {Cleared, Released, Cancelled} && s.stops[p].cancel.Some?
  }

  lemma {:induction false} InjectionCard(a: set<nat>, b: set<nat>, f: map<nat, nat>)
    requires a <= f.Keys && (forall x :: x in a ==> f[x] in b)
    requires forall x, y :: x in a && y in a && f[x] == f[y] ==> x == y
    ensures |a| <= |b|
    decreases a
  {
    if a != {} {
      var x :| x in a;
      InjectionCard(a - {x}, b - {f[x]}, f);
    }
  }

  /** There are never more live workers than one plus the Stops that have taken a worker and not
      returned. */
  lemma LiveBound(run: seq<Action>, s: State)
    requires Exec(INIT, run) == Some(s)
    ensures |LiveSet(s)| <= 1 + |InFlight(s)|
  {
    Ownership(run, s);
    var reg := set w | w in LiveSet(s) && Registered(s, w);
    var rest := LiveSet(s) - reg;
    assert |reg| <= 1 by {
      if reg != {} {
        var w :| w in reg;
        assert reg == {w};
      }
    }
    var f := map w | w in rest :: ClaimantOf(s, w);
    InjectionCard(rest, InFlight(s), f);
    assert LiveSet(s) == reg + rest;
  }

  ghost function ClaimantOf(s: State, w: nat): nat {
    if exists p: nat :: Claims(s, p, w) then var p: nat :| Claims(s, p, w); p else 0
  }

  /** The Stops in flight whose worker is still alive. */
  function Awaited(s: State): set<nat> {
    set p: nat | p < |s.stops| && p in InFlight(s) && Live(s, s.stops[p].cancel.value)
  }

  function RegisteredLive(s: State): set<nat> {
    set w: nat | w < |s.workers| && Live(s, w) && Registered(s, w)
  }

  /** Each live worker that is not registered has its own Stop among those awaited. */
  lemma AwaitedCoversLive(s: State)
    requires forall w: nat :: Live(s, w) ==> Registered(s, w) || exists p: nat :: Claims(s, p, w)
    ensures |LiveSet(s) - RegisteredLive(s)| <= |Awaited(s)|
  {
    var rest := LiveSet(s) - RegisteredLive(s);
    var f := map w | w in rest :: ClaimantOf(s, w);
    forall w | w in rest ensures Claims(s, f[w], w) && f[w] in Awaited(s) {
      assert Live(s, w) && !Registered(s, w);
    }
    InjectionCard(rest, Awaited(s), f);
  }

  lemma LiveCoversAwaited(s: State)
    requires forall w: nat, p: nat, q: nat :: Claims(s, p, w) && Claims(s, q, w) ==> p == q
    requires forall w: nat, p: nat :: Claims(s, p, w) ==> !Registered(s, w)
    ensures |Awaited(s)| <= |LiveSet(s) - RegisteredLive(s)|
  {
    var rest := LiveSet(s) - RegisteredLive(s);
    var f := map p | p in Awaited(s) :: s.stops[p].cancel.value;
    forall p | p in Awaited(s) ensures Claims(s, p, f[p]) && f[p] in rest {
      assert Claims(s, p, s.stops[p].cancel.value);
    }
    InjectionCard(Awaited(s), rest, f);
  }

  /** The live workers, counted: at most one that is registered, and one for each Stop in flight whose
      worker is still alive. So there is at most one exactly when these add up to no more. */
  lemma LiveCount(run: seq<Action>, s: State)
    requires Exec(INIT, run) == Some(s)
    ensures |LiveSet(s)| == |RegisteredLive(s)| + |Awaited(s)| && |RegisteredLive(s)| <= 1
  {
    Ownership(run, s);
    AwaitedCoversLive(s);
    LiveCoversAwaited(s);
    var reg := RegisteredLive(s);
    if reg != {} {
      var w :| w in reg;
      assert reg == {w};
    }
    assert LiveSet(s) == reg + (LiveSet(s) - reg);
  }

  // ----- The end of a worker, over runs -----

  lemma {:induction false} ExecPrefix(s: State, run: seq<Action>, n: nat)
    requires Exec(s, run).Some? && n <= |run|
    ensures Exec(s, run[..n]).Some?
    decreases n
  {
    if n > 0 {
      assert run[..n][1..] == run[1..][..n - 1];
      ExecPrefix(Do(s, run[0]), run[1..], n - 1);
    }
  }

  /** The state before the step at `n`, and that step. */
  lemma StepOf(run: seq<Action>, n: nat) returns (s: State)
    requires Exec(INIT, run).Some? && n < |run|
    ensures Exec(INIT, run[..n]) == Some(s) && Inv(s) && Enabled(s, run[n])
    ensures Exec(INIT, run[..n + 1]) == Some(Do(s, run[n]))
  {
    ExecPrefix(INIT, run, n);
    ExecPrefix(INIT, run, n + 1);
    s := Exec(INIT, run[..n]).value;
    InitInv();
    ExecInv(INIT, run[..n]);
    assert run[..n + 1] == run[..n] + [run[n]];
    ExecConcat(INIT, run[..n], [run[n]]);
    assert [run[n]][1..] == [];
  }

  predicate Past(s: State, w: nat) { WorkerIs(s, w, TickerStopped) || WorkerIs(s, w, Exited) }

  /** A run has stopped the ticker of a worker exactly when the worker is past that, and has closed its
      done channel exactly when it has exited. */
  lemma {:induction false} Trace(run: seq<Action>, n: nat, w: nat)
    requires Exec(INIT, run).Some? && n <= |run|
    ensures Exec(INIT, run[..n]).Some?
    ensures var s := Exec(INIT, run[..n]).value;
      && (StopTicker(w) in run[..n] <==> Past(s, w)) && (CloseDone(w) in run[..n] <==> WorkerIs(s, w, Exited))
    decreases n
  {
    ExecPrefix(INIT, run, n);
    if n > 0 {
      Trace(run, n - 1, w);
      var s := StepOf(run, n - 1);
      assert run[..n] == run[..n - 1] + [run[n - 1]];
      TraceStep(s, run[n - 1], w);
    }
  }

  lemma TraceStep(s: State, a: Action, w: nat)
    requires Inv(s) && Enabled(s, a)
    ensures Past(Do(s, a), w) <==> Past(s, w) || a == StopTicker(w)
    ensures WorkerIs(Do(s, a), w, Exited) <==> WorkerIs(s, w, Exited) || a == CloseDone(w)
  {
    if a.StartGo? { assert StartInv(s, a.p) && WorkerInv(s, s.starts[a.p].w); }
  }

  /** On every run, each worker stops its ticker at most once and closes its done channel at most once,
      and closes the channel only after it has stopped the ticker. */
  lemma TickerThenDone(run: seq<Action>, w: nat, j: nat, k: nat)
    requires Exec(INIT, run).Some? && j <= k < |run|
    ensures run[j] == run[k] == StopTicker(w) ==> j == k
    ensures run[j] == run[k] == CloseDone(w) ==> j == k
    ensures run[k] == CloseDone(w) ==> StopTicker(w) in run[..k]
  {
    var s := StepOf(run, k);
    Trace(run, k, w);
    if j < k { assert run[j] in run[..k]; }
  }

  // ----- Stop means stopped -----

  /** When a Stop has returned, the worker it took has exited: its done channel was closed once,
      after its ticker stopped. However the run goes on, that worker takes no further step, so no
      call of it is running or starts. */
  lemma StopMeansStopped(before: seq<Action>, s: State, p: nat, w: nat, after: seq<Action>, s': State)
    requires Exec(INIT, before) == Some(s) && StopIs(s, p, Finished) && s.stops[p].done == Some(w)
    requires Exec(s, after) == Some(s')
    ensures WorkerIs(s, w, Exited) && s.workers[w].closes == 1
    ensures exists i, j :: 0 <= i < j < |before| && before[i] == StopTicker(w) && before[j] == CloseDone(w)
    ensures w < |s'.workers| && s'.workers[w] == s.workers[w]
    ensures forall a :: a in after ==>
              a !in {Boot(w), Tick(w), EndCall(w), SeeCancel(w), StopTicker(w), CloseDone(w)}
  {
    InitInv();
    ExecInv(INIT, before);
    assert StopInv(s, p);
    assert WorkerInv(s, w);
    ClosedAfterTicker(before, s, w);
    ExitedStays(s, w, p, after, s');
  }

  lemma ClosedAfterTicker(run: seq<Action>, s: State, w: nat)
    requires Exec(INIT, run) == Some(s) && WorkerIs(s, w, Exited)
    ensures exists i, j :: 0 <= i < j < |run| && run[i] == StopTicker(w) && run[j] == CloseDone(w)
  {
    assert run[..|run|] == run;
    Trace(run, |run|, w);
    var j :| 0 <= j < |run| && run[j] == CloseDone(w);
    TickerThenDone(run, w, j, j);
    var i :| 0 <= i < j && run[..j][i] == StopTicker(w);
    assert run[i] == StopTicker(w);
  }

  predicate Done(s: State, w: nat, p: nat) {
    w < |s.workers| && s.workers[w].at == Exited && s.workers[w].cancelled && s.workers[w].holder == Some(p)
    && StopIs(s, p, Finished)
  }

  lemma DoneStep(s: State, w: nat, p: nat, a: Action)
    requires Inv(s) && Done(s, w, p) && Enabled(s, a)
    ensures Done(Do(s, a), w, p) && Do(s, a).workers[w] == s.workers[w]
    ensures a !in {Boot(w), Tick(w), EndCall(w), SeeCancel(w), StopTicker(w), CloseDone(w)}
  {
    assert WorkerInv(s, w);
    if a.StartGo? { assert StartInv(s, a.p); }
    if a.StopClearDone? || a.StopCancel? { DoneBesideStop(s, w, p, a); }
  }

  lemma DoneBesideStop(s: State, w: nat, p: nat, a: Action)
    requires Inv(s) && Done(s, w, p) && Enabled(s, a) && (a.StopClearDone? || a.StopCancel?)
    ensures Done(Do(s, a), w, p) && Do(s, a).workers[w] == s.workers[w]
  {
    assert WorkerInv(s, w);
    assert HandleInv(s, s.done);
  }

  lemma {:induction false} ExitedStays(s: State, w: nat, p: nat, run: seq<Action>, s': State)
    requires Inv(s) && Done(s, w, p) && Exec(s, run) == Some(s')
    ensures w < |s'.workers| && s'.workers[w] == s.workers[w]
    ensures forall a :: a in run ==>
              a !in {Boot(w), Tick(w), EndCall(w), SeeCancel(w), StopTicker(w), CloseDone(w)}
    decreases |run|
  {
    if run != [] {
      DoneStep(s, w, p, run[0]);
      StepInv(s, run[0]);
      ExitedStays(Do(s, run[0]), w, p, run[1..], s');
      assert run == [run[0]] + run[1..];
    }
  }
}
