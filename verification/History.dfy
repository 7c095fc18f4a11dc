/** What a run's actions tell about its Starts and workers: every Start that returns has started a worker
    or met one, and workers make their calls on their ticks. */
module History {
  import opened Machine
  import opened Runtime
  import Progress

  // ----- What a Start comes to -----

  /** Worker `w` is the one and only worker that Start `p` made, and it has been spawned. */
  predicate MadeOne(s: State, p: nat, w: nat) {
    w < |s.workers| && s.workers[w].starter == p && s.workers[w].at != Unspawned
    && forall x :: 0 <= x < |s.workers| && x != w ==> s.workers[x].starter != p
  }

  predicate MadeNone(s: State, p: nat) { forall w :: 0 <= w < |s.workers| ==> s.workers[w].starter != p }

  /** Start `p` was called by the step at `c`. */
  predicate CalledAt(run: seq<Action>, c: nat, p: nat) {
    c < |run| && (run[c] == CallStart || run[c] == CallStartNil)
    && Exec(INIT, run[..c]).Some? && |Exec(INIT, run[..c]).value.starts| == p
  }

  /** How a Start and the workers it made go together. */
  ghost predicate StartTrace(s: State, p: nat, refused: bool)
    requires p < |s.starts|
  {
    match s.starts[p].at
    case Wanting => MadeNone(s, p) && !refused
    case Holding => MadeNone(s, p) && !refused
    case Returned => if refused then MadeNone(s, p) else exists w: nat :: MadeOne(s, p, w)
    case _ =>
      !refused && s.starts[p].w < |s.workers| && s.workers[s.starts[p].w].starter == p
      && forall x :: 0 <= x < |s.workers| && x != s.starts[p].w ==> s.workers[x].starter != p
  }

  lemma StartTraceStep(s: State, a: Action, p: nat, refused: bool)
    requires Inv(s) && Enabled(s, a) && p < |s.starts| && StartTrace(s, p, refused)
    ensures p < |Do(s, a).starts| && StartTrace(Do(s, a), p, refused || a == StartRefuse(p))
  {
    if a.StartMake? {
      MakeTrace(s, a, p, refused);
    } else if a.StartGo? {
      GoTrace(s, a, p, refused);
    } else {
      OtherTrace(s, a, p, refused);
    }
  }

  lemma OtherTrace(s: State, a: Action, p: nat, refused: bool)
    requires Inv(s) && Enabled(s, a) && p < |s.starts| && StartTrace(s, p, refused)
    requires !a.StartMake? && !a.StartGo?
    ensures StartTrace(Do(s, a), p, refused || a == StartRefuse(p))
  {
    if s.starts[p].at == Returned { MadeStays(s, a, p); } else { StartersStay(s, a); }
  }

  lemma StartersStay(s: State, a: Action)
    requires Enabled(s, a) && !a.StartMake? && !a.StartGo?
    ensures |Do(s, a).workers| == |s.workers|
    ensures forall w :: 0 <= w < |s.workers| ==>
              && Do(s, a).workers[w].starter == s.workers[w].starter
              && (s.workers[w].at != Unspawned ==> Do(s, a).workers[w].at != Unspawned)
  {
  }

  lemma MadeStays(s: State, a: Action, p: nat)
    requires Inv(s) && Enabled(s, a) && !a.StartMake? && !a.StartGo? && StartIs(s, p, Returned)
    ensures StartIs(Do(s, a), p, Returned) && (MadeNone(s, p) ==> MadeNone(Do(s, a), p))
    ensures forall w: nat :: MadeOne(s, p, w) ==> MadeOne(Do(s, a), p, w)
  {
    StartersStay(s, a);
  }

  lemma MakeTrace(s: State, a: Action, p: nat, refused: bool)
    requires Inv(s) && Enabled(s, a) && p < |s.starts| && StartTrace(s, p, refused) && a.StartMake?
    ensures StartTrace(Do(s, a), p, refused)
  {
    if s.starts[p].at == Returned && !refused {
      var w: nat :| MadeOne(s, p, w);
      assert MadeOne(Do(s, a), p, w);
    }
  }

  lemma GoTrace(s: State, a: Action, p: nat, refused: bool)
    requires Inv(s) && Enabled(s, a) && p < |s.starts| && StartTrace(s, p, refused) && a.StartGo?
    ensures StartTrace(Do(s, a), p, refused)
  {
    assert StartInv(s, a.p) && WorkerInv(s, s.starts[a.p].w);
    if a.p == p {
      assert MadeOne(Do(s, a), p, s.starts[p].w);
    } else if s.starts[p].at == Returned && !refused {
      var w: nat :| MadeOne(s, p, w);
      assert MadeOne(Do(s, a), p, w);
    }
  }

  /** From its call on, a Start is where its trace says. */
  lemma {:induction false} StartTraces(run: seq<Action>, c: nat, p: nat, n: nat)
    requires Exec(INIT, run).Some? && CalledAt(run, c, p) && run[c] == CallStart && c < n <= |run|
    ensures Exec(INIT, run[..n]).Some?
    ensures var s := Exec(INIT, run[..n]).value;
      p < |s.starts| && StartTrace(s, p, StartRefuse(p) in run[c..n])
    decreases n
  {
    var s := StepOf(run, n - 1);
    if n == c + 1 {
      assert run[c..n] == [CallStart];
      forall w | 0 <= w < |s.workers| ensures s.workers[w].starter != p { assert WorkerInv(s, w); }
    } else {
      StartTraces(run, c, p, n - 1);
      assert run[c..n] == run[c..n - 1] + [run[n - 1]];
      StartTraceStep(s, run[n - 1], p, StartRefuse(p) in run[c..n - 1]);
    }
  }

  /** A Start that was called with an argument and has returned made exactly one worker, which was
      spawned; or it made none, and earlier in the run it had the lock while a worker was registered. */
  lemma StartStartsOrMeets(run: seq<Action>, s: State, c: nat, p: nat)
    requires Exec(INIT, run) == Some(s) && CalledAt(run, c, p) && run[c] == CallStart
    requires StartIs(s, p, Returned)
    ensures || (exists w: nat :: MadeOne(s, p, w))
            || (MadeNone(s, p) && exists n: nat, x: nat :: n < |run| && MeetsAt(run, n, p, x))
  {
    assert run[..|run|] == run;
    StartTraces(run, c, p, |run|);
    if StartRefuse(p) in run[c..] {
      assert run[c..|run|] == run[c..];
      var n: nat :| c <= n < |run| && run[n] == StartRefuse(p);
      var before := StepOf(run, n);
      assert before.lock == ByStart(p) && Registered(before, before.cancel.value);
      assert MeetsAt(run, n, p, before.cancel.value);
    } else {
      assert run[c..|run|] == run[c..];
    }
  }

  /** After `n` steps Start `p` has the lock and worker `x` is registered. */
  predicate MeetsAt(run: seq<Action>, n: nat, p: nat, x: nat) {
    n <= |run| && Exec(INIT, run[..n]).Some?
    && Exec(INIT, run[..n]).value.lock == ByStart(p) && Registered(Exec(INIT, run[..n]).value, x)
  }

  /** A Start without an argument returns at once and never makes a worker. */
  lemma NilStartsNothing(run: seq<Action>, s: State, c: nat, p: nat)
    requires Exec(INIT, run) == Some(s) && CalledAt(run, c, p) && run[c] == CallStartNil
    ensures StartIs(s, p, Returned) && MadeNone(s, p)
  {
    assert run[..|run|] == run;
    NilStays(run, c, p, |run|);
  }

  lemma {:induction false} NilStays(run: seq<Action>, c: nat, p: nat, n: nat)
    requires Exec(INIT, run).Some? && CalledAt(run, c, p) && run[c] == CallStartNil && c < n <= |run|
    ensures Exec(INIT, run[..n]).Some?
    ensures var s := Exec(INIT, run[..n]).value; StartIs(s, p, Returned) && MadeNone(s, p)
    decreases n
  {
    var s := StepOf(run, n - 1);
    if n == c + 1 {
      forall w | 0 <= w < |s.workers| ensures s.workers[w].starter != p { assert WorkerInv(s, w); }
    } else {
      NilStays(run, c, p, n - 1);
      NoneStays(s, run[n - 1], p);
    }
  }

  lemma NoneStays(s: State, a: Action, p: nat)
    requires Inv(s) && Enabled(s, a) && StartIs(s, p, Returned) && MadeNone(s, p)
    ensures StartIs(Do(s, a), p, Returned) && MadeNone(Do(s, a), p)
  {
    if !a.StartMake? && !a.StartGo? { MadeStays(s, a, p); }
  }

  // ----- The next to get a free lock -----

  predicate TakesLock(a: Action) { a.StartLock? || a.StopLock? }

  /** Start `p` is on its way to a new worker, or has made it. */
  predicate OnItsWay(s: State, p: nat, n: nat) {
    || (StartIs(s, p, Holding) && s.lock == ByStart(p) && s.cancel == None)
    || exists w: nat :: n <= w < |s.workers| && s.workers[w].starter == p
  }

  lemma OnItsWayStep(s: State, a: Action, p: nat, n: nat)
    requires Inv(s) && Enabled(s, a) && OnItsWay(s, p, n) && n <= |s.workers|
    ensures OnItsWay(Do(s, a), p, n) && n <= |Do(s, a).workers|
  {
    if exists w: nat :: n <= w < |s.workers| && s.workers[w].starter == p {
      var w: nat :| n <= w < |s.workers| && s.workers[w].starter == p;
      assert w < |Do(s, a).workers| && Do(s, a).workers[w].starter == p;
    } else if a == StartMake(p) {
      assert Do(s, a).workers[|s.workers|].starter == p;
    }
  }

  lemma {:induction false} OnItsWayRun(s: State, run: seq<Action>, s': State, p: nat, n: nat)
    requires Inv(s) && OnItsWay(s, p, n) && n <= |s.workers| && Exec(s, run) == Some(s')
    ensures OnItsWay(s', p, n)
    decreases |run|
  {
    if run != [] {
      OnItsWayStep(s, run[0], p, n);
      StepInv(s, run[0]);
      OnItsWayRun(Do(s, run[0]), run[1..], s', p, n);
    }
  }

  /** While nobody takes a free lock, the handles stay. */
  lemma {:induction false} FreeStays(s: State, run: seq<Action>, s': State)
    requires Inv(s) && s.lock == Nobody && Exec(s, run) == Some(s')
    requires forall a :: a in run ==> !TakesLock(a)
    ensures Inv(s') && s'.lock == Nobody && s'.cancel == s.cancel && |s'.workers| == |s.workers|
    decreases |run|
  {
    if run != [] {
      StepInv(s, run[0]);
      FreeStep(s, run[0]);
      FreeStays(Do(s, run[0]), run[1..], s');
    }
  }

  lemma FreeStep(s: State, a: Action)
    requires Inv(s) && s.lock == Nobody && Enabled(s, a) && !TakesLock(a)
    ensures Do(s, a).lock == Nobody && Do(s, a).cancel == s.cancel && |Do(s, a).workers| == |s.workers|
  {
  }

  /** From a state with the lock free and no handles, a Start that is the next to get the lock makes a
      new worker on every run on which it returns. */
  lemma NextStartMakes(before: seq<Action>, s: State, p: nat, wait: seq<Action>, rest: seq<Action>, s': State)
    requires Exec(INIT, before) == Some(s) && s.lock == Nobody && s.cancel == None
    requires forall a :: a in wait ==> !TakesLock(a)
    requires Exec(s, wait + [StartLock(p)] + rest) == Some(s') && StartIs(s', p, Returned)
    ensures exists w: nat :: |s.workers| <= w < |s'.workers| && s'.workers[w].starter == p
  {
    InitInv();
    ExecInv(INIT, before);
    var run := wait + [StartLock(p)] + rest;
    ExecPrefix(s, run, |wait|);
    assert run[..|wait|] == wait && run == wait + ([StartLock(p)] + rest);
    var s1 := Exec(s, wait).value;
    FreeStays(s, wait, s1);
    ExecConcat(s, wait, [StartLock(p)] + rest);
    assert ([StartLock(p)] + rest)[1..] == rest;
    StepInv(s1, StartLock(p));
    OnItsWayRun(Do(s1, StartLock(p)), rest, s', p, |s.workers|);
  }

  // ----- What a worker does -----

  /** The steps a worker takes itself. */
  predicate Own(a: Action, w: nat) {
    a in {Boot(w), Tick(w), EndCall(w), SeeCancel(w), StopTicker(w), CloseDone(w)}
  }

  /** The last of them in a run. */
  function LastOwn(run: seq<Action>, w: nat): Option<Action> {
    if run == [] then None
    else if Own(run[|run| - 1], w) then Some(run[|run| - 1])
    else LastOwn(run[..|run| - 1], w)
  }

  /** Where a worker is, told by its last own step. */
  predicate Tells(s: State, a: Option<Action>, w: nat) {
    && (a == None <==> w >= |s.workers| || s.workers[w].at == Unspawned || s.workers[w].at == Spawned)
    && (a.Some? ==> Own(a.value, w) && WorkerIs(s, w, Reached(a.value)))
  }

  lemma {:induction false} LastOwnTells(run: seq<Action>, n: nat, w: nat)
    requires Exec(INIT, run).Some? && n <= |run|
    ensures Exec(INIT, run[..n]).Some? && Tells(Exec(INIT, run[..n]).value, LastOwn(run[..n], w), w)
    decreases n
  {
    ExecPrefix(INIT, run, n);
    if n > 0 {
      LastOwnTells(run, n - 1, w);
      var s := StepOf(run, n - 1);
      assert run[..n][..n - 1] == run[..n - 1];
      TellsStep(s, run[n - 1], LastOwn(run[..n - 1], w), w);
    }
  }

  lemma TellsStep(s: State, a: Action, last: Option<Action>, w: nat)
    requires Inv(s) && Enabled(s, a) && Tells(s, last, w)
    ensures Tells(Do(s, a), if Own(a, w) then Some(a) else last, w)
  {
    OwnStep(s, a, w);
  }

  /** Where a worker is after a step of its own. */
  function Reached(a: Action): WorkerAt {
    match a
    case Tick(_) => Calling
    case SeeCancel(_) => Leaving
    case StopTicker(_) => TickerStopped
    case CloseDone(_) => Exited
    case _ => Selecting
  }

  lemma OwnStep(s: State, a: Action, w: nat)
    requires Inv(s) && Enabled(s, a)
    ensures !Own(a, w) && w < |s.workers| && !WorkerIs(s, w, Unspawned) ==>
              w < |Do(s, a).workers| && Do(s, a).workers[w].at == s.workers[w].at
    ensures !Own(a, w) && (w >= |s.workers| || WorkerIs(s, w, Unspawned)) ==>
              w >= |Do(s, a).workers| || Do(s, a).workers[w].at in {Unspawned, Spawned}
    ensures Own(a, w) ==> w < |Do(s, a).workers| && Do(s, a).workers[w].at == Reached(a)
  {
    if !Own(a, w) { OthersStep(s, a, w); }
  }

  lemma OthersStep(s: State, a: Action, w: nat)
    requires Inv(s) && Enabled(s, a) && !Own(a, w)
    ensures w < |s.workers| && !WorkerIs(s, w, Unspawned) ==>
              w < |Do(s, a).workers| && Do(s, a).workers[w].at == s.workers[w].at
    ensures w >= |s.workers| || WorkerIs(s, w, Unspawned) ==>
              w >= |Do(s, a).workers| || Do(s, a).workers[w].at in {Unspawned, Spawned}
  {
    if a.StartGo? { assert StartInv(s, a.p) && WorkerInv(s, s.starts[a.p].w); }
  }

  /** On every run a worker is inside a call exactly when its last own step is a tick, and it takes its
      next tick and sees the cancellation only after the call has ended. */
  lemma TicksCall(run: seq<Action>, s: State, w: nat)
    requires Exec(INIT, run) == Some(s)
    ensures WorkerIs(s, w, Calling) <==> LastOwn(run, w) == Some(Tick(w))
    ensures WorkerIs(s, w, Calling) <==> exists n: nat :: LastAt(run, w, Tick(w), n)
    ensures forall n :: 0 <= n < |run| && run[n] == SeeCancel(w) ==> LastOwn(run[..n], w) != Some(Tick(w))
    ensures forall i, j :: 0 <= i < j < |run| && run[i] == Tick(w) && run[j] == Tick(w) ==> EndCall(w) in run[i..j]
  {
    InsideCall(run, s, w);
    forall n | 0 <= n < |run| && run[n] == SeeCancel(w) ensures LastOwn(run[..n], w) != Some(Tick(w)) {
      SeesOutside(run, n, w);
    }
    forall i, j | 0 <= i < j < |run| && run[i] == Tick(w) && run[j] == Tick(w) ensures EndCall(w) in run[i..j] {
      CallEnds(run, w, i, j);
    }
  }

  lemma InsideCall(run: seq<Action>, s: State, w: nat)
    requires Exec(INIT, run) == Some(s)
    ensures WorkerIs(s, w, Calling) <==> LastOwn(run, w) == Some(Tick(w))
    ensures WorkerIs(s, w, Calling) <==> exists n: nat :: LastAt(run, w, Tick(w), n)
  {
    assert run[..|run|] == run;
    LastOwnTells(run, |run|, w);
    LastOwnIs(run, w, Tick(w));
  }

  lemma SeesOutside(run: seq<Action>, n: nat, w: nat)
    requires Exec(INIT, run).Some? && n < |run| && run[n] == SeeCancel(w)
    ensures LastOwn(run[..n], w) != Some(Tick(w))
  {
    var before := StepOf(run, n);
    LastOwnTells(run, n, w);
  }

  /** Step `n` is `a`, and no own step of the worker comes after it. */
  predicate LastAt(run: seq<Action>, w: nat, a: Action, n: nat) {
    n < |run| && run[n] == a && forall j :: n < j < |run| ==> !Own(run[j], w)
  }

  lemma {:induction false} LastOwnIs(run: seq<Action>, w: nat, a: Action)
    requires Own(a, w)
    ensures LastOwn(run, w) == Some(a) <==> exists n: nat :: LastAt(run, w, a, n)
    decreases |run|
  {
    if run != [] {
      var k := |run| - 1;
      var front := run[..k];
      if Own(run[k], w) {
        if run[k] == a { assert LastAt(run, w, a, k); }
      } else {
        LastOwnIs(front, w, a);
        forall n: nat ensures LastAt(run, w, a, n) <==> LastAt(front, w, a, n) { SameLast(run, w, a, n); }
      }
    }
  }

  lemma SameLast(run: seq<Action>, w: nat, a: Action, n: nat)
    requires Own(a, w) && run != [] && !Own(run[|run| - 1], w)
    ensures LastAt(run, w, a, n) <==> LastAt(run[..|run| - 1], w, a, n)
  {
    var front := run[..|run| - 1];
    assert forall j :: 0 <= j < |front| ==> front[j] == run[j];
  }

  /** Between two ticks of a worker its call ends. */
  lemma {:induction false} CallEnds(run: seq<Action>, w: nat, i: nat, j: nat)
    requires Exec(INIT, run).Some? && i < j < |run| && run[i] == Tick(w) && run[j] == Tick(w)
    ensures EndCall(w) in run[i..j]
  {
    CallGoesOn(run, w, i, j);
    var s := StepOf(run, j);
  }

  lemma {:induction false} CallGoesOn(run: seq<Action>, w: nat, i: nat, n: nat)
    requires Exec(INIT, run).Some? && i < n <= |run| && run[i] == Tick(w)
    ensures Exec(INIT, run[..n]).Some?
    ensures EndCall(w) in run[i..n] || WorkerIs(Exec(INIT, run[..n]).value, w, Calling)
    decreases n
  {
    var s := StepOf(run, n - 1);
    if n > i + 1 {
      CallGoesOn(run, w, i, n - 1);
      assert run[i..n] == run[i..n - 1] + [run[n - 1]];
    }
    OwnStep(s, run[n - 1], w);
  }

  /** From every reachable state, a worker that was spawned and is not cancelled can be inside a call
      within two steps; one that waits in its select can even when it is cancelled, as the source
      gives the cancellation no precedence over a tick. */
  lemma CallCanBegin(before: seq<Action>, s: State, w: nat) returns (run: seq<Action>, s': State)
    requires Exec(INIT, before) == Some(s) && w < |s.workers|
    requires WorkerIs(s, w, Selecting) || (!s.workers[w].cancelled && s.workers[w].at != Unspawned)
    ensures Exec(s, run) == Some(s') && WorkerIs(s', w, Calling) && |run| <= 2
  {
    InitInv();
    ExecInv(INIT, before);
    assert WorkerInv(s, w);
    match s.workers[w].at
    case Spawned =>
      Progress.TwoSteps(s, Boot(w), Tick(w));
      run, s' := [Boot(w), Tick(w)], Do(Do(s, Boot(w)), Tick(w));
    case Selecting =>
      run, s' := [Tick(w)], Do(s, Tick(w));
      assert run[1..] == [];
    case _ =>
      run, s' := [], s;
  }
}
