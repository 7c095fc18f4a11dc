/** Which workers a Stop leaves behind: exactly those another Stop still holds when it gets the lock. */
module Leftover {
  import opened Machine
  import opened Runtime
  import opened Progress

  /** The first `n` workers have all exited. */
  predicate AllExited(s: State, n: nat) { forall w: nat :: w < n ==> WorkerIs(s, w, Exited) }

  /** No live worker has been taken out of the handles: no Stop is still waiting for one. */
  predicate NoneTaken(s: State) { forall w: nat :: w < |s.workers| && Live(s, w) ==> Registered(s, w) }

  // ----- What a Stop sees to -----

  /** Worker `w` has exited, or Stop `p` will find it in the handles or has it. */
  predicate Follows(s: State, p: nat, w: nat)
    requires p < |s.stops| && w < |s.workers|
  {
    || s.workers[w].at == Exited
    || (if s.stops[p].at == Inside then Registered(s, w) else s.stops[p].cancel == Some(w))
  }

  predicate Followed(s: State, p: nat, n: nat) {
    p < |s.stops| && s.stops[p].at != Queued && n <= |s.workers|
    && forall w :: 0 <= w < n ==> Follows(s, p, w)
  }

  lemma FollowsStep(s: State, p: nat, w: nat, a: Action)
    requires Inv(s) && p < |s.stops| && s.stops[p].at != Queued && w < |s.workers| && Follows(s, p, w) && Enabled(s, a)
    ensures p < |Do(s, a).stops| && Do(s, a).stops[p].at != Queued && w < |Do(s, a).workers| && Follows(Do(s, a), p, w)
  {
    if a.StartGo? { assert StartInv(s, a.p) && WorkerInv(s, s.starts[a.p].w); }
  }

  lemma FollowedStep(s: State, p: nat, n: nat, a: Action)
    requires Inv(s) && Followed(s, p, n) && Enabled(s, a)
    ensures Followed(Do(s, a), p, n)
  {
    forall w | 0 <= w < n ensures w < |Do(s, a).workers| && Follows(Do(s, a), p, w) { FollowsStep(s, p, w, a); }
    assert p < |Do(s, a).stops| && Do(s, a).stops[p].at != Queued;
  }

  lemma {:induction false} FollowedRun(s: State, p: nat, n: nat, run: seq<Action>, s': State)
    requires Inv(s) && Followed(s, p, n) && Exec(s, run) == Some(s')
    ensures Inv(s') && Followed(s', p, n)
    decreases |run|
  {
    if run != [] {
      FollowedStep(s, p, n, run[0]);
      StepInv(s, run[0]);
      FollowedRun(Do(s, run[0]), p, n, run[1..], s');
    }
  }

  lemma FollowedExited(s: State, p: nat, n: nat)
    requires Inv(s) && Followed(s, p, n) && StopIs(s, p, Finished)
    ensures AllExited(s, n)
  {
    assert StopInv(s, p);
    forall w: nat | w < n ensures WorkerIs(s, w, Exited) { assert Follows(s, p, w) && WorkerInv(s, w); }
  }

  // ----- What it does not see to -----

  /** Stop `p` has got the lock, and worker `w` is alive in the hands of another Stop. */
  predicate Beside(s: State, p: nat, w: nat) {
    p < |s.stops| && s.stops[p].at != Queued && Live(s, w)
    && s.workers[w].holder.Some? && s.workers[w].holder != Some(p)
  }

  /** The steps that let `p` return are not steps of a worker that another Stop holds. */
  lemma BesideStep(s: State, p: nat, w: nat)
    requires Inv(s) && Beside(s, p, w) && s.stops[p].at != Finished && Enabled(s, NextFor(s, p))
    ensures Beside(Do(s, NextFor(s, p)), p, w) && |Do(s, NextFor(s, p)).stops| == |s.stops|
  {
    assert StopInv(s, p) && WorkerInv(s, w);
    if s.stops[p].at == Cancelled && s.stops[p].done.Some? { BesideOther(s, p, s.stops[p].done.value, w); }
  }

  lemma BesideOther(s: State, p: nat, x: nat, w: nat)
    requires Inv(s) && Beside(s, p, w) && s.stops[p].at == Cancelled && s.stops[p].done == Some(x)
    requires x < |s.workers| && Enabled(s, WorkerNext(s, p, x))
    ensures Beside(Do(s, WorkerNext(s, p, x)), p, w)
  {
    assert StopInv(s, p) && WorkerInv(s, x);
  }

  lemma {:induction false} ReturnsBeside(s: State, p: nat, w: nat) returns (run: seq<Action>, s': State)
    requires Inv(s) && Beside(s, p, w)
    ensures Exec(s, run) == Some(s') && StopIs(s', p, Finished) && Live(s', w) && |s'.stops| == |s.stops|
    decreases Rank(s, p)
  {
    if s.stops[p].at == Finished {
      run, s' := [], s;
    } else {
      var a := NextFor(s, p);
      Advances(s, p);
      StepInv(s, a);
      BesideStep(s, p, w);
      var rest;
      rest, s' := ReturnsBeside(Do(s, a), p, w);
      run := [a] + rest;
    }
  }

  lemma TakenBeside(s: State, p: nat, w: nat)
    requires Inv(s) && StopIs(s, p, Inside) && Live(s, w) && !Registered(s, w)
    ensures Beside(s, p, w)
  {
    assert WorkerInv(s, w);
  }

  /** Take a Stop that has just got the lock. Every worker there is has exited whenever it returns, if
      and only if no live worker is in the hands of another Stop at that moment. */
  lemma StopIsComplete(before: seq<Action>, s: State, p: nat)
    requires Exec(INIT, before) == Some(s) && StopIs(s, p, Inside)
    ensures NoneTaken(s) <==>
            forall run: seq<Action>, s': State ::
              Exec(s, run) == Some(s') && StopIs(s', p, Finished) ==> AllExited(s', |s.workers|)
  {
    InitInv();
    ExecInv(INIT, before);
    if NoneTaken(s) {
      forall run: seq<Action>, s': State | Exec(s, run) == Some(s') && StopIs(s', p, Finished)
        ensures AllExited(s', |s.workers|)
      {
        NoneLeft(s, p, run, s');
      }
    } else {
      var run, s' := OneLeft(s, p);
    }
  }

  lemma NoneLeft(s: State, p: nat, run: seq<Action>, s': State)
    requires Inv(s) && StopIs(s, p, Inside) && NoneTaken(s)
    requires Exec(s, run) == Some(s') && StopIs(s', p, Finished)
    ensures AllExited(s', |s.workers|)
  {
    NoneTakenFollowed(s, p);
    FollowedRun(s, p, |s.workers|, run, s');
    FollowedExited(s', p, |s.workers|);
  }

  lemma OneLeft(s: State, p: nat) returns (run: seq<Action>, s': State)
    requires Inv(s) && StopIs(s, p, Inside) && !NoneTaken(s)
    ensures Exec(s, run) == Some(s') && StopIs(s', p, Finished) && |s'.stops| == |s.stops|
    ensures !AllExited(s', |s.workers|)
  {
    var w: nat :| w < |s.workers| && Live(s, w) && !Registered(s, w);
    TakenBeside(s, p, w);
    run, s' := ReturnsBeside(s, p, w);
    assert !WorkerIs(s', w, Exited);
  }

  lemma NoneTakenFollowed(s: State, p: nat)
    requires StopIs(s, p, Inside) && NoneTaken(s)
    ensures Followed(s, p, |s.workers|)
  {
    forall w | 0 <= w < |s.workers| ensures Follows(s, p, w) {
      assert !Live(s, w) || Registered(s, w);
    }
  }
}
