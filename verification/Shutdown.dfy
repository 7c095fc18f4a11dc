/** The shutdown loop of the server command: the artifact Stop, the outbox Stop, then the framework. */
module Shutdown {
  import opened Machine
  import opened Runtime
  import opened Leftover
  import Progress

  /** Where the shutdown loop is; the numbers name its own Stop calls. */
  datatype Main =
    | Looping
    | StoppingArtifact(p: nat)
    | StoppingOutbox(p: nat, q: nat)
    | StoppingFramework(p: nat, q: nat)
    | Ended(p: nat, q: nat)

  datatype Sys = Sys(artifact: State, outbox: State, main: Main)

  const BOOT: Sys := Sys(INIT, INIT, Looping)

  datatype Event =
    | NilError                        // a nil error on the channel: the loop goes on
    | Wake                            // a non-nil error or a signal
    | ArtifactStopped                 // StopArtifactRuntime returned
    | OutboxStopped                   // StopOutboxRuntime returned
    | FrameworkStopped
    | InArtifact(a: Action)           // any step of any caller or worker of either runtime
    | InOutbox(a: Action)

  predicate Possible(s: Sys, e: Event) {
    match e
    case NilError => s.main.Looping?
    case Wake => s.main.Looping?
    case ArtifactStopped => s.main.StoppingArtifact? && StopIs(s.artifact, s.main.p, Finished)
    case OutboxStopped => s.main.StoppingOutbox? && StopIs(s.outbox, s.main.q, Finished)
    case FrameworkStopped => s.main.StoppingFramework?
    case InArtifact(a) => Enabled(s.artifact, a)
    case InOutbox(a) => Enabled(s.outbox, a)
  }

  function Happen(s: Sys, e: Event): Sys
    requires Possible(s, e)
  {
    match e
    case NilError => s
    case Wake => s.(main := StoppingArtifact(|s.artifact.stops|), artifact := Do(s.artifact, CallStop))
    case ArtifactStopped =>
      s.(main := StoppingOutbox(s.main.p, |s.outbox.stops|), outbox := Do(s.outbox, CallStop))
    case OutboxStopped => s.(main := StoppingFramework(s.main.p, s.main.q))
    case FrameworkStopped => s.(main := Ended(s.main.p, s.main.q))
    case InArtifact(a) => s.(artifact := Do(s.artifact, a))
    case InOutbox(a) => s.(outbox := Do(s.outbox, a))
  }

  function Play(s: Sys, run: seq<Event>): Option<Sys>
    decreases |run|
  {
    if run == [] then Some(s)
    else if Possible(s, run[0]) then Play(Happen(s, run[0]), run[1..])
    else None
  }

  /** The framework's own Stop has begun. */
  predicate FrameworkPhase(m: Main) { m.StoppingFramework? || m.Ended? }

  predicate SysInv(s: Sys) {
    && Inv(s.artifact) && Inv(s.outbox)
    && (s.main.StoppingArtifact? ==> s.main.p < |s.artifact.stops|)
    && (s.main.StoppingOutbox? ==> StopIs(s.artifact, s.main.p, Finished) && s.main.q < |s.outbox.stops|)
    && (FrameworkPhase(s.main) ==>
          StopIs(s.artifact, s.main.p, Finished) && StopIs(s.outbox, s.main.q, Finished))
  }

  lemma FinishedStays(s: State, p: nat, a: Action)
    requires p < |s.stops| && Enabled(s, a)
    ensures p < |Do(s, a).stops| && (StopIs(s, p, Finished) ==> StopIs(Do(s, a), p, Finished))
  {
  }

  lemma HappenInv(s: Sys, e: Event)
    requires SysInv(s) && Possible(s, e)
    ensures SysInv(Happen(s, e))
  {
    match e
    case Wake => StepInv(s.artifact, CallStop);
    case ArtifactStopped => StepInv(s.outbox, CallStop);
    case InArtifact(a) =>
      StepInv(s.artifact, a);
      if !s.main.Looping? { FinishedStays(s.artifact, s.main.p, a); }
    case InOutbox(a) =>
      StepInv(s.outbox, a);
      if s.main.StoppingOutbox? || FrameworkPhase(s.main) { FinishedStays(s.outbox, s.main.q, a); }
    case _ =>
  }

  lemma {:induction false} PlayInv(s: Sys, run: seq<Event>)
    requires SysInv(s) && Play(s, run).Some?
    ensures SysInv(Play(s, run).value)
    decreases |run|
  {
    if run != [] {
      HappenInv(s, run[0]);
      PlayInv(Happen(s, run[0]), run[1..]);
    }
  }

  /** What a Stop that has returned leaves of the workers there were when it copied the handles: each
      has exited, or another Stop that has not returned has it. */
  ghost predicate Settled(s: State, p: nat)
    requires p < |s.stops|
  {
    && s.stops[p].seen <= |s.workers|
    && (s.stops[p].done.Some? ==> WorkerIs(s, s.stops[p].done.value, Exited))
    && forall w :: 0 <= w < s.stops[p].seen ==>
         s.workers[w].at == Exited || exists q: nat :: q != p && Claims(s, q, w)
  }

  lemma FinishedIsSettled(s: State, p: nat)
    requires Inv(s) && StopIs(s, p, Finished)
    ensures Settled(s, p)
  {
    assert StopInv(s, p);
    if s.stops[p].done.Some? { assert WorkerInv(s, s.stops[p].done.value); }
    forall w | 0 <= w < s.stops[p].seen
      ensures s.workers[w].at == Exited || exists q: nat :: q != p && Claims(s, q, w)
    {
      assert WorkerInv(s, w);
      if s.workers[w].at != Exited { assert Claims(s, s.workers[w].holder.value, w); }
    }
  }

  /** On every run, once the framework's Stop has begun both runtime Stops of the loop have returned:
      the workers they took have exited, and so has every worker that was there when they copied the
      handles, but for those that another Stop has taken and still waits for. */
  lemma ShutdownOrder(run: seq<Event>, s: Sys)
    requires Play(BOOT, run) == Some(s) && FrameworkPhase(s.main)
    ensures StopIs(s.artifact, s.main.p, Finished) && StopIs(s.outbox, s.main.q, Finished)
    ensures Settled(s.artifact, s.main.p) && Settled(s.outbox, s.main.q)
  {
    InitInv();
    PlayInv(BOOT, run);
    FinishedIsSettled(s.artifact, s.main.p);
    FinishedIsSettled(s.outbox, s.main.q);
  }

  // ----- What a run tells about the loop -----

  /** How many times an event stands in a run. */
  function Count(run: seq<Event>, e: Event): nat {
    if run == [] then 0 else (if run[0] == e then 1 else 0) + Count(run[1..], e)
  }

  /** How many of the loop's four events have happened: it goes through them in this order. */
  function Stage(m: Main): nat {
    match m
    case Looping => 0
    case StoppingArtifact(_) => 1
    case StoppingOutbox(_, _) => 2
    case StoppingFramework(_, _) => 3
    case Ended(_, _) => 4
  }

  lemma {:induction false} LoopCounts(s: Sys, run: seq<Event>, s': Sys)
    requires Play(s, run) == Some(s')
    ensures Count(run, Wake) == (if Stage(s.main) < 1 <= Stage(s'.main) then 1 else 0)
    ensures Count(run, ArtifactStopped) == (if Stage(s.main) < 2 <= Stage(s'.main) then 1 else 0)
    ensures Count(run, OutboxStopped) == (if Stage(s.main) < 3 <= Stage(s'.main) then 1 else 0)
    ensures Count(run, FrameworkStopped) == (if Stage(s.main) < 4 <= Stage(s'.main) then 1 else 0)
    ensures Stage(s.main) <= Stage(s'.main)
    ensures |s'.artifact.stops| == |s.artifact.stops| + Count(run, InArtifact(CallStop)) + Count(run, Wake)
    ensures |s'.outbox.stops| == |s.outbox.stops| + Count(run, InOutbox(CallStop)) + Count(run, ArtifactStopped)
    decreases |run|
  {
    if run != [] {
      StopsCalled(s, run[0]);
      LoopCounts(Happen(s, run[0]), run[1..], s');
    }
  }

  lemma StopsCalled(s: Sys, e: Event)
    requires Possible(s, e)
    ensures |Happen(s, e).artifact.stops|
            == |s.artifact.stops| + if e == Wake || e == InArtifact(CallStop) then 1 else 0
    ensures |Happen(s, e).outbox.stops|
            == |s.outbox.stops| + if e == ArtifactStopped || e == InOutbox(CallStop) then 1 else 0
  {
  }

  /** On every run: the loop goes on until a non-nil error or a signal, whatever nil errors come; it
      wakes once, calls each runtime's Stop once, the outbox's only when the artifact's has returned,
      and the framework's only when the outbox's has; and it ends when that has returned. */
  lemma LoopOnce(run: seq<Event>, s: Sys)
    requires Play(BOOT, run) == Some(s)
    ensures s.main.Looping? <==> Wake !in run
    ensures FrameworkPhase(s.main) <==> OutboxStopped in run
    ensures s.main.Ended? <==> FrameworkStopped in run
    ensures OutboxStopped in run ==> ArtifactStopped in run
    ensures ArtifactStopped in run ==> Wake in run
    ensures Count(run, Wake) <= 1 && Count(run, ArtifactStopped) <= 1 && Count(run, OutboxStopped) <= 1
    ensures Count(run, FrameworkStopped) <= 1 && (FrameworkStopped in run ==> OutboxStopped in run)
    ensures |s.artifact.stops| == Count(run, InArtifact(CallStop)) + Count(run, Wake)
    ensures |s.outbox.stops| == Count(run, InOutbox(CallStop)) + Count(run, ArtifactStopped)
  {
    LoopCounts(BOOT, run, s);
    CountIn(run, Wake);
    CountIn(run, ArtifactStopped);
    CountIn(run, OutboxStopped);
    CountIn(run, FrameworkStopped);
  }

  lemma {:induction false} CountIn(run: seq<Event>, e: Event)
    ensures Count(run, e) > 0 <==> e in run
    decreases |run|
  {
    if run != [] {
      CountIn(run[1..], e);
      assert run == [run[0]] + run[1..];
    }
  }

  /** The loop takes a step only when the Stop it waits for has returned. */
  lemma LoopWaits(run: seq<Event>, before: Sys, e: Event)
    requires Play(BOOT, run) == Some(before) && Possible(before, e)
    ensures e == ArtifactStopped ==>
              before.main.StoppingArtifact? && StopIs(before.artifact, before.main.p, Finished)
    ensures e == OutboxStopped ==>
              && before.main.StoppingOutbox? && StopIs(before.artifact, before.main.p, Finished)
              && StopIs(before.outbox, before.main.q, Finished)
    ensures e == NilError ==> Happen(before, e) == before
  {
    InitInv();
    PlayInv(BOOT, run);
  }

  // ----- What a run does to one runtime -----

  lemma {:induction false} OnArtifact(s: Sys, run: seq<Event>, s': Sys, p: nat) returns (r: seq<Action>)
    requires Play(s, run) == Some(s') && !s.main.Looping? && s.main.p == p
    ensures Exec(s.artifact, r) == Some(s'.artifact) && !s'.main.Looping? && s'.main.p == p
    decreases |run|
  {
    if run == [] {
      r := [];
    } else {
      r := OnArtifact(Happen(s, run[0]), run[1..], s', p);
      if run[0].InArtifact? { r := [run[0].a] + r; }
    }
  }

  predicate OutboxPhase(m: Main, q: nat) { (m.StoppingOutbox? || FrameworkPhase(m)) && m.q == q }

  lemma {:induction false} OnOutbox(s: Sys, run: seq<Event>, s': Sys, q: nat) returns (r: seq<Action>)
    requires Play(s, run) == Some(s') && OutboxPhase(s.main, q)
    ensures Exec(s.outbox, r) == Some(s'.outbox) && OutboxPhase(s'.main, q)
    decreases |run|
  {
    if run == [] {
      r := [];
    } else {
      r := OnOutbox(Happen(s, run[0]), run[1..], s', q);
      if run[0].InOutbox? { r := [run[0].a] + r; }
    }
  }

  function InA(run: seq<Action>): seq<Event> {
    seq(|run|, i requires 0 <= i < |run| => InArtifact(run[i]))
  }

  function InO(run: seq<Action>): seq<Event> {
    seq(|run|, i requires 0 <= i < |run| => InOutbox(run[i]))
  }

  lemma {:induction false} PlayArtifact(s: Sys, run: seq<Action>)
    requires Exec(s.artifact, run).Some?
    ensures Play(s, InA(run)) == Some(s.(artifact := Exec(s.artifact, run).value))
    decreases |run|
  {
    if run != [] {
      assert InA(run)[1..] == InA(run[1..]);
      PlayArtifact(Happen(s, InArtifact(run[0])), run[1..]);
    }
  }

  lemma {:induction false} PlayOutbox(s: Sys, run: seq<Action>)
    requires Exec(s.outbox, run).Some?
    ensures Play(s, InO(run)) == Some(s.(outbox := Exec(s.outbox, run).value))
    decreases |run|
  {
    if run != [] {
      assert InO(run)[1..] == InO(run[1..]);
      PlayOutbox(Happen(s, InOutbox(run[0])), run[1..]);
    }
  }

  lemma {:induction false} PlayConcat(s: Sys, run: seq<Event>, run': seq<Event>)
    requires Play(s, run).Some?
    ensures Play(s, run + run') == Play(Play(s, run).value, run')
    decreases |run|
  {
    if run == [] {
      assert run + run' == run';
    } else {
      assert (run + run')[1..] == run[1..] + run';
      PlayConcat(Happen(s, run[0]), run[1..], run');
    }
  }

  lemma PlayOne(s: Sys, e: Event)
    requires Possible(s, e)
    ensures Play(s, [e]) == Some(Happen(s, e))
  {
    assert [e][1..] == [];
  }

  /** The steps of one runtime and then one event of the loop. */
  lemma ThenEvent(s: Sys, run: seq<Event>, s1: Sys, e: Event)
    requires Play(s, run) == Some(s1) && Possible(s1, e)
    ensures Play(s, run + [e]) == Some(Happen(s1, e))
  {
    PlayConcat(s, run, [e]);
    PlayOne(s1, e);
  }

  /** The loop is never stuck: it can wake whenever it loops, and once it has, it can end from every
      reachable state. */
  lemma LoopCanEnd(before: seq<Event>, s: Sys) returns (run: seq<Event>, s': Sys)
    requires Play(BOOT, before) == Some(s)
    ensures s.main.Looping? ==> Possible(s, Wake) && Possible(s, NilError)
    ensures !s.main.Looping? ==> Play(s, run) == Some(s') && s'.main.Ended?
  {
    InitInv();
    PlayInv(BOOT, before);
    run, s' := [], s;
    if s.main.StoppingArtifact? {
      run, s' := EndsFromArtifact(s, s.main.p);
    } else if s.main.StoppingOutbox? {
      run, s' := EndsFromOutbox(s, s.main.p, s.main.q);
    } else if s.main.StoppingFramework? {
      PlayOne(s, FrameworkStopped);
      run, s' := [FrameworkStopped], Happen(s, FrameworkStopped);
    }
  }

  lemma EndsFromOutbox(s: Sys, p: nat, q: nat) returns (run: seq<Event>, s': Sys)
    requires SysInv(s) && s.main == StoppingOutbox(p, q)
    ensures Play(s, run) == Some(s') && s'.main.Ended?
  {
    var r, s1 := OutboxReturns(s, p, q);
    ThenEvent(s, r, s1, FrameworkStopped);
    run, s' := r + [FrameworkStopped], Happen(s1, FrameworkStopped);
  }

  lemma EndsFromArtifact(s: Sys, p: nat) returns (run: seq<Event>, s': Sys)
    requires SysInv(s) && s.main == StoppingArtifact(p)
    ensures Play(s, run) == Some(s') && s'.main.Ended?
  {
    var r, a := Progress.CanReturn(s.artifact, p);
    PlayArtifact(s, r);
    PlayInv(s, InA(r));
    var s1 := s.(artifact := a);
    ThenEvent(s, InA(r), s1, ArtifactStopped);
    HappenInv(s1, ArtifactStopped);
    var rest;
    rest, s' := EndsFromOutbox(Happen(s1, ArtifactStopped), p, |s.outbox.stops|);
    PlayConcat(s, InA(r) + [ArtifactStopped], rest);
    run := InA(r) + [ArtifactStopped] + rest;
  }

  // ----- When nothing is left behind -----

  /** Take the moment the loop's artifact Stop gets the lock. Every artifact worker there is has exited
      whenever the framework's Stop begins, if and only if no other Stop then holds a live worker. */
  lemma ArtifactLeftBehind(before: seq<Event>, s0: Sys, p: nat)
    requires Play(BOOT, before) == Some(s0) && s0.main == StoppingArtifact(p) && StopIs(s0.artifact, p, Inside)
    ensures NoneTaken(s0.artifact) <==>
            forall run: seq<Event>, s: Sys ::
              Play(s0, run) == Some(s) && FrameworkPhase(s.main) ==> AllExited(s.artifact, |s0.artifact.workers|)
  {
    InitInv();
    PlayInv(BOOT, before);
    if NoneTaken(s0.artifact) {
      forall run: seq<Event>, s: Sys | Play(s0, run) == Some(s) && FrameworkPhase(s.main)
        ensures AllExited(s.artifact, |s0.artifact.workers|)
      {
        PlayInv(s0, run);
        var r := OnArtifact(s0, run, s, p);
        NoneLeft(s0.artifact, p, r, s.artifact);
      }
    } else {
      var run, s := ArtifactOneLeft(s0, p);
    }
  }

  /** The same for the outbox Stop and the outbox workers. */
  lemma OutboxLeftBehind(before: seq<Event>, s0: Sys, p: nat, q: nat)
    requires Play(BOOT, before) == Some(s0) && s0.main == StoppingOutbox(p, q) && StopIs(s0.outbox, q, Inside)
    ensures NoneTaken(s0.outbox) <==>
            forall run: seq<Event>, s: Sys ::
              Play(s0, run) == Some(s) && FrameworkPhase(s.main) ==> AllExited(s.outbox, |s0.outbox.workers|)
  {
    InitInv();
    PlayInv(BOOT, before);
    if NoneTaken(s0.outbox) {
      forall run: seq<Event>, s: Sys | Play(s0, run) == Some(s) && FrameworkPhase(s.main)
        ensures AllExited(s.outbox, |s0.outbox.workers|)
      {
        PlayInv(s0, run);
        var r := OnOutbox(s0, run, s, q);
        NoneLeft(s0.outbox, q, r, s.outbox);
      }
    } else {
      var run, s := OutboxOneLeft(s0, p, q);
    }
  }

  lemma ArtifactOneLeft(s0: Sys, p: nat) returns (run: seq<Event>, s: Sys)
    requires SysInv(s0) && s0.main == StoppingArtifact(p) && StopIs(s0.artifact, p, Inside) && !NoneTaken(s0.artifact)
    ensures Play(s0, run) == Some(s) && s.main == StoppingFramework(p, |s0.outbox.stops|)
    ensures !AllExited(s.artifact, |s0.artifact.workers|) && |s.artifact.stops| == |s0.artifact.stops|
  {
    var r, a := OneLeft(s0.artifact, p);
    var s1 := s0.(artifact := a);
    PlayArtifact(s0, r);
    PlayInv(s0, InA(r));
    var s2 := Happen(s1, ArtifactStopped);
    HappenInv(s1, ArtifactStopped);
    ThenEvent(s0, InA(r), s1, ArtifactStopped);
    var rest;
    rest, s := OutboxReturns(s2, p, |s0.outbox.stops|);
    PlayConcat(s0, InA(r) + [ArtifactStopped], rest);
    run := InA(r) + [ArtifactStopped] + rest;
  }

  lemma OutboxReturns(s0: Sys, p: nat, q: nat) returns (run: seq<Event>, s: Sys)
    requires SysInv(s0) && s0.main == StoppingOutbox(p, q)
    ensures Play(s0, run) == Some(s) && s.main == StoppingFramework(p, q) && s.artifact == s0.artifact
  {
    var r, o := Progress.CanReturn(s0.outbox, q);
    PlayOutbox(s0, r);
    ThenEvent(s0, InO(r), s0.(outbox := o), OutboxStopped);
    run, s := InO(r) + [OutboxStopped], Happen(s0.(outbox := o), OutboxStopped);
  }

  lemma OutboxOneLeft(s0: Sys, p: nat, q: nat) returns (run: seq<Event>, s: Sys)
    requires SysInv(s0) && s0.main == StoppingOutbox(p, q) && StopIs(s0.outbox, q, Inside) && !NoneTaken(s0.outbox)
    ensures Play(s0, run) == Some(s) && s.main == StoppingFramework(p, q)
    ensures !AllExited(s.outbox, |s0.outbox.workers|)
  {
    var r, o := OneLeft(s0.outbox, q);
    PlayOutbox(s0, r);
    ThenEvent(s0, InO(r), s0.(outbox := o), OutboxStopped);
    run, s := InO(r) + [OutboxStopped], Happen(s0.(outbox := o), OutboxStopped);
  }

  /** Another Stop that has not returned holds a live worker that Stop `p` could have found. */
  ghost predicate OtherHolds(s: State, p: nat)
    requires p < |s.stops|
  {
    exists q: nat, w: nat :: q != p && w < s.stops[p].seen && Claims(s, q, w) && Live(s, w)
  }

  /** When the framework's Stop has begun, the workers that were there when the loop's Stops copied the
      handles have all exited, but for what another Stop still holds at this very moment: Stops that
      have returned, found nothing or wait for the lock do no harm. */
  lemma ShutdownLeavesNoneBehind(run: seq<Event>, s: Sys)
    requires Play(BOOT, run) == Some(s) && FrameworkPhase(s.main)
    ensures s.main.p < |s.artifact.stops| && s.main.q < |s.outbox.stops|
    ensures AllExited(s.artifact, s.artifact.stops[s.main.p].seen) <==> !OtherHolds(s.artifact, s.main.p)
    ensures AllExited(s.outbox, s.outbox.stops[s.main.q].seen) <==> !OtherHolds(s.outbox, s.main.q)
  {
    ShutdownOrder(run, s);
    SettledUnlessHeld(s.artifact, s.main.p);
    SettledUnlessHeld(s.outbox, s.main.q);
  }

  lemma SettledUnlessHeld(s: State, p: nat)
    requires p < |s.stops| && Settled(s, p)
    ensures AllExited(s, s.stops[p].seen) <==> !OtherHolds(s, p)
  {
    if !OtherHolds(s, p) {
      forall w: nat | w < s.stops[p].seen ensures WorkerIs(s, w, Exited) {
        assert forall q: nat :: q != p && Claims(s, q, w) ==> !Live(s, w);
      }
    } else {
      var q: nat, w: nat :| q != p && w < s.stops[p].seen && Claims(s, q, w) && Live(s, w);
      assert !WorkerIs(s, w, Exited);
    }
  }

  // ----- It does happen -----

  /** A run on which another Stop caller has taken the artifact worker and not cancelled it when the
      loop's Stop gets the lock, and the framework's Stop begins while that worker is still running. */
  lemma AnotherStopLeavesOneBehind() returns (before: seq<Event>, s0: Sys, run: seq<Event>, s: Sys)
    ensures Play(BOOT, before) == Some(s0) && s0.main == StoppingArtifact(1) && StopIs(s0.artifact, 1, Inside)
    ensures Play(s0, run) == Some(s) && s.main == StoppingFramework(1, 0) && |s.artifact.stops| == 2
    ensures Live(s0.artifact, 0) && Live(s.artifact, 0)
  {
    before, s0 := TakenByAnother();
    InitInv();
    PlayInv(BOOT, before);
    run, s := ArtifactOneLeft(s0, 1);
    PlayInv(s0, run);
    var r := OnArtifact(s0, run, s, 1);
    WorkersStay(s0.artifact, r, s.artifact);
  }

  lemma TakenByAnother() returns (before: seq<Event>, s0: Sys)
    ensures Play(BOOT, before) == Some(s0) && s0.main == StoppingArtifact(1) && StopIs(s0.artifact, 1, Inside)
    ensures |s0.artifact.workers| == 1 && |s0.artifact.stops| == 2 && |s0.outbox.stops| == 0
    ensures Live(s0.artifact, 0) && !Registered(s0.artifact, 0)
  {
    var r, a := OneTaken();
    PlayArtifact(BOOT, r);
    var s1 := BOOT.(artifact := a);
    var s2 := Happen(s1, Wake);
    ThenEvent(BOOT, InA(r), s1, Wake);
    LoopEnters(s2, 1);
    ThenEvent(BOOT, InA(r) + [Wake], s2, InArtifact(StopLock(1)));
    before, s0 := InA(r) + [Wake] + [InArtifact(StopLock(1))], Happen(s2, InArtifact(StopLock(1)));
  }

  lemma LoopEnters(s: Sys, p: nat)
    requires StopIs(s.artifact, p, Queued) && s.artifact.lock == Nobody
    ensures Possible(s, InArtifact(StopLock(p)))
    ensures var s' := Happen(s, InArtifact(StopLock(p)));
      && s'.main == s.main && s'.outbox == s.outbox && StopIs(s'.artifact, p, Inside)
      && |s'.artifact.stops| == |s.artifact.stops| && s'.artifact.workers == s.artifact.workers
      && s'.artifact.cancel == s.artifact.cancel && s'.artifact.done == s.artifact.done
  {
  }

  lemma OneTaken() returns (r: seq<Action>, a: State)
    ensures Exec(INIT, r) == Some(a) && a.lock == Nobody && a.cancel == None && a.done == None
    ensures |a.stops| == 1 && |a.workers| == 1 && Live(a, 0)
  {
    Progress.RunStart(INIT);
    var started := Progress.Started(INIT);
    Progress.RunStop(started, 0);
    a := Progress.Taking(started, 0);
    ExecConcat(INIT, Progress.StartRound(0), Progress.StopRound(0));
    r := Progress.StartRound(0) + Progress.StopRound(0);
  }

  lemma {:induction false} WorkersStay(s: State, run: seq<Action>, s': State)
    requires Exec(s, run) == Some(s')
    ensures |s'.workers| >= |s.workers|
    decreases |run|
  {
    if run != [] { WorkersStay(Do(s, run[0]), run[1..], s'); }
  }
}
