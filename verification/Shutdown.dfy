/** What the stop of the framework leaves behind, exactly. */
module Shutdown {
  import opened Framework
  import opened FrameworkInvariant
  import opened Ownership
  import opened RpcCall
  import W = TimeWheel
  import N = NetModel

  // ---------- what the stop leaves behind ----------

  lemma CallerIsCounted(s: System, c: nat)
    requires Inv(s) && c in s.net.waiting
    ensures PlaceOf(s, c) == Calling && s.runningCnt > 0
  {
    var w := s.net.waiting[c].waiter;
    WaiterFacts(s, w);
    assert PlaceOf(s, c) == Calling;
    assert c in Live(s.places);
    hide QueueOk, WorkersOk, AllCountersOk, FramesOk, WaitersOk;
  }

  lemma {:induction false} StrandedRun(s: System, steps: seq<Step>, s': System, c: nat)
    requires Inv(s) && Leads(s, steps, s') && s.net.stopped && c in s.net.waiting
    ensures Inv(s') && c in s'.net.waiting
    decreases |steps|
  {
    if steps != [] {
      var step := steps[0];
      InvStep(s, step);
      PartsAfter(s, step);
      var ns := NetStepOf(s, step);
      if ns.Some? { N.StrandedStep(s.net, ns.value, c); }
      StrandedRun(Apply(s, step), steps[1..], s', c);
    }
    hide Inv, Apply, NetStepOf, PlaceOf, W.WellShaped;
  }

  /** A remote call that is waiting when the net service is stopped waits for ever: its coroutine is
      never woken, the count never reaches zero, and no worker ends. */
  lemma StopStrandsCallers(s0: System, before: seq<Step>, s: System, steps: seq<Step>, s': System, c: nat, i: nat)
    requires Init(s0) && Leads(s0, before, s) && Leads(s, steps, s') && s.net.stopped && c in s.net.waiting
    ensures PlaceOf(s', c) == Calling && s'.runningCnt > 0 && !Enabled(s', Exit(i))
  {
    InvInit(s0);
    InvRun(s0, before, s);
    hide Leads, Init, Inv, PlaceOf;
    StrandedRun(s, steps, s', c);
    CallerIsCounted(s', c);
    if Enabled(s', Exit(i)) { ExitNeedsZero(s', i); }
    hide Enabled;
  }

  /** One step of a run that is being put together. */
  lemma Next(s0: System, s: System, step: Step) returns (s': System)
    requires Reaches(s0, s) && Enabled(s, step) && !step.WheelStep?
    ensures s' == Apply(s, step) && Reaches(s0, s') && After(s, step, s')
    ensures W.WellShaped(s'.wheel) && s'.wheel.lost.NothingLost?
    ensures !step.Sleep? ==> s'.wheel == s.wheel
    ensures s'.net == match step
            case Call(i, endPoints, condition) =>
              N.DoInsert(s.net, N.Waiter(s.workers[i].coro, Count(s.suspends, s.workers[i].coro)), endPoints, condition)
            case NetStep(ns) => N.Apply(s.net, ns)
            case _ => s.net
  {
    s' := Apply(s, step);
    StepEffect(s, step);
    ReachesThen(s0, s, step);
    WheelAfter(s, step);
    NetAfter(s, step);
    hide Apply, Reaches, W.WellShaped, N.DoInsert, After;
  }

  /** It does happen, with any number of workers and any call. */
  lemma CallersCanBeStranded(s0: System, c: nat, endPoints: seq<EndPoint>, condition: FinishCondition)
    requires Init(s0) && WorkerIs(s0, 0, Idle)
    ensures exists s :: Reaches(s0, s) && s.net.stopped && c in s.net.waiting
  {
    hide Reaches, W.WellShaped, Apply, Init;
    var s1 := Submitted(s0, c);
    var s2 := Calls(s0, s1, c, endPoints, condition);
    var s3 := StopsAll(s0, s2);
    assert s3.net.stopped && c in s3.net.waiting;
  }

  lemma Calls(s0: System, s: System, c: nat, endPoints: seq<EndPoint>, condition: FinishCondition) returns (s': System)
    requires Reaches(s0, s) && s.queue == [c] && WorkerIs(s, 0, Idle)
    requires W.WellShaped(s.wheel) && s.wheel.lost.NothingLost? && s.net.waiting == map[]
    ensures Reaches(s0, s') && c in s'.net.waiting
    ensures W.WellShaped(s'.wheel) && s'.wheel.lost.NothingLost?
  {
    hide Reaches, W.WellShaped, Apply, N.DoInsert, Count;
    var s1 := Next(s0, s, Take(0));
    assert s1.workers[0] == Holds(c);
    var s2 := Next(s0, s1, Resume(0));
    assert s2.workers[0] == Runs(c);
    s' := Next(s0, s2, Step.Call(0, endPoints, condition));
    N.InsertEffect(s2.net, N.Waiter(c, Count(s2.suspends, c)), endPoints, condition);
    hide After;
  }

  lemma StopsAll(s0: System, s: System) returns (s': System)
    requires Reaches(s0, s) && W.WellShaped(s.wheel) && s.wheel.lost.NothingLost?
    ensures Reaches(s0, s') && s'.net.stopped && s'.net.waiting == s.net.waiting
  {
    hide Reaches, W.WellShaped, Apply;
    var s1 := Next(s0, s, StopScheduler);
    var s2 := StopWheel(s0, s1);
    s' := Next(s0, s2, NetStep(N.StopNet));
    hide After;
  }

  lemma Submitted(s0: System, c: nat) returns (s: System)
    requires Init(s0)
    ensures Reaches(s0, s) && s.queue == [c] && s.workers == s0.workers && s.net.waiting == map[]
    ensures W.WellShaped(s.wheel) && s.wheel.lost.NothingLost?
  {
    hide Reaches, W.WellShaped, Apply;
    ReachesSelf(s0);
    var s1 := Next(s0, s0, Check(c));
    var s2 := Next(s0, s1, Admit(c));
    s := Next(s0, s2, Enqueue(c));
  }

  lemma StopWheel(s0: System, s: System) returns (s': System)
    requires Reaches(s0, s) && W.WellShaped(s.wheel) && s.wheel.lost.NothingLost? && s.stopFlag
    ensures Reaches(s0, s') && s'.wheel.stop && s'.net == s.net
    ensures W.WellShaped(s'.wheel) && s'.wheel.lost.NothingLost?
  {
    var step := WheelStep(W.SetStop);
    assert Enabled(s, step);
    s' := Apply(s, step);
    assert s' == s.(wheel := s.wheel.(stop := true));
    WheelPartStep(s, step);
    ReachesThen(s0, s, step);
    hide Reaches, W.WellShaped, W.Reaches, Apply;
  }

  /** Exactly then: a call in the table of a reachable state waits for ever if and only if the net
      service is stopped. */
  lemma StrandedIff(s0: System, before: seq<Step>, s: System, c: nat)
    requires Init(s0) && Leads(s0, before, s) && s.wheel.lost.NothingLost? && c in s.net.waiting
    ensures s.net.stopped <==> forall s' | Reaches(s, s') :: PlaceOf(s', c) == Calling
  {
    InvInit(s0);
    InvRun(s0, before, s);
    NetInvHolds(s0, before, s);
    assert W.WellShaped(s.wheel);
    hide Init, Leads, Inv, N.Inv, PlaceOf, W.WellShaped;
    if s.net.stopped {
      forall s' | Reaches(s, s') ensures PlaceOf(s', c) == Calling {
        var steps :| Leads(s, steps, s');
        StrandedRun(s, steps, s', c);
        CallerIsCounted(s', c);
      }
    } else {
      var s' := TimerWakes(s, c);
      assert PlaceOf(s', c) != Calling;
    }
  }

  /** Its own timer can wake a waiting caller. */
  lemma TimerWakes(s: System, c: nat) returns (s': System)
    requires Inv(s) && N.Inv(s.net) && W.WellShaped(s.wheel) && s.wheel.lost.NothingLost?
    requires c in s.net.waiting && !s.net.stopped
    ensures Reaches(s, s') && PlaceOf(s', c) == Queued
  {
    hide Inv, N.Inv, W.WellShaped, Apply, Reaches;
    var w := s.net.waiting[c].waiter;
    OwnTimerFires(s.net, c);
    hide N.DoFire;
    ReachesSelf(s);
    var s1 := Next(s, s, NetStep(N.Fire(w)));
    s' := Next(s, s1, NetStep(N.CommitWaiter(w)));
  }

  lemma OwnTimerFires(n: N.Net, c: nat)
    requires N.Inv(n) && c in n.waiting
    ensures var w := n.waiting[c].waiter; w in n.timers && w.coro == c && w in N.DoFire(n, w).handoff
  {
    assert N.KeysOk(n) && N.TimersCover(n);
    N.FireEffect(n, n.waiting[c].waiter);
    hide N.Inv, N.DoFire;
  }

  ghost predicate AllExited(s: System) {
    forall i :: 0 <= i < |s.workers| ==> s.workers[i] == Exited
  }

  predicate NeverTaken(p: Place) {
    p == Checked || p == Admitted || p == Queued
  }

  lemma NobodyTakes(s: System, step: Step, c: nat)
    requires Inv(s) && Enabled(s, step) && AllExited(s) && NeverTaken(PlaceOf(s, c))
    ensures AllExited(Apply(s, step)) && NeverTaken(PlaceOf(Apply(s, step), c))
  {
    StepMoves(s, step, c);
    WorkersAfter(s, step);
    var m := MoveOf(s, step);
    if m.Some? && m.value.coro == c { FoundWhereExpected(s, step); }
    hide Inv, Apply, Woken, PlaceOf, Count, W.WellShaped, W.Enabled, N.Enabled;
  }

  lemma {:induction false} NeverTakenRun(s: System, steps: seq<Step>, s': System, c: nat)
    requires Inv(s) && Leads(s, steps, s') && AllExited(s) && NeverTaken(PlaceOf(s, c))
    ensures NeverTaken(PlaceOf(s', c))
    decreases |steps|
  {
    hide Inv, Apply, Enabled, AllExited, NeverTaken, PlaceOf;
    if steps != [] {
      InvStep(s, steps[0]);
      NobodyTakes(s, steps[0], c);
      NeverTakenRun(Apply(s, steps[0]), steps[1..], s', c);
    }
  }

  /** Exactly then: a coroutine that has passed the look at the stop flag, but is not counted yet, is
      never run, in any continuation, if and only if every worker has ended. */
  lemma LateCommitIff(s0: System, before: seq<Step>, s: System, c: nat)
    requires Init(s0) && Leads(s0, before, s) && s.wheel.lost.NothingLost? && PlaceOf(s, c) == Checked
    ensures AllExited(s) <==> forall s' | Reaches(s, s') :: NeverTaken(PlaceOf(s', c))
  {
    InvInit(s0);
    InvRun(s0, before, s);
    assert W.WellShaped(s.wheel);
    hide Init, Leads, Inv, PlaceOf, W.WellShaped;
    if AllExited(s) {
      forall s' | Reaches(s, s') ensures NeverTaken(PlaceOf(s', c)) {
        var steps :| Leads(s, steps, s');
        NeverTakenRun(s, steps, s', c);
      }
    } else {
      var i: nat :| i < |s.workers| && s.workers[i] != Exited;
      var s' := WorkerTakes(s, i, c);
      assert !NeverTaken(PlaceOf(s', c));
    }
  }

  lemma WorkerTakes(s: System, i: nat, c: nat) returns (s': System)
    requires Inv(s) && W.WellShaped(s.wheel) && s.wheel.lost.NothingLost? && PlaceOf(s, c) == Checked
    requires i < |s.workers| && s.workers[i] != Exited
    ensures Reaches(s, s') && PlaceOf(s', c) == Taken(i)
  {
    ReachesSelf(s);
    assert WorkerOk(s, i);
    hide Inv, W.WellShaped, Apply, Reaches;
    var s1 := Freed(s, s, i, c);
    var s2 := Next(s, s1, Admit(c));
    var s3 := Next(s, s2, Enqueue(c));
    s' := TakenAtLast(s, s3, i, c, |s3.queue| - 1);
  }

  /** A worker that has not ended becomes free. */
  lemma Freed(s0: System, s: System, i: nat, c: nat) returns (s': System)
    requires Reaches(s0, s) && W.WellShaped(s.wheel) && s.wheel.lost.NothingLost? && PlaceOf(s, c) == Checked
    requires i < |s.workers| && s.workers[i] != Exited && WorkerOk(s, i)
    ensures Reaches(s0, s') && W.WellShaped(s'.wheel) && s'.wheel.lost.NothingLost?
    ensures PlaceOf(s', c) == Checked && WorkerIs(s', i, Idle)
  {
    hide Reaches, W.WellShaped;
    s' := s;
    if s.workers[i].Holds? {
      s' := Resumed(s0, s', i, s.workers[i].coro);
      s' := Completed(s0, s', i, s.workers[i].coro);
    } else if s.workers[i].Runs? {
      s' := Completed(s0, s', i, s.workers[i].coro);
    }
  }

  lemma Resumed(s0: System, s: System, i: nat, d: nat) returns (s': System)
    requires Reaches(s0, s) && W.WellShaped(s.wheel) && s.wheel.lost.NothingLost? && WorkerIs(s, i, Holds(d))
    ensures Reaches(s0, s') && W.WellShaped(s'.wheel) && s'.wheel.lost.NothingLost? && WorkerIs(s', i, Runs(d))
    ensures s'.queue == s.queue && forall c | c != d :: PlaceOf(s', c) == PlaceOf(s, c)
  {
    hide Reaches, W.WellShaped, Apply;
    s' := Next(s0, s, Resume(i));
  }

  lemma Completed(s0: System, s: System, i: nat, d: nat) returns (s': System)
    requires Reaches(s0, s) && W.WellShaped(s.wheel) && s.wheel.lost.NothingLost? && WorkerIs(s, i, Runs(d))
    ensures Reaches(s0, s') && W.WellShaped(s'.wheel) && s'.wheel.lost.NothingLost? && WorkerIs(s', i, Idle)
    ensures s'.queue == s.queue && forall c | c != d :: PlaceOf(s', c) == PlaceOf(s, c)
  {
    hide Reaches, W.WellShaped, Apply;
    s' := Next(s0, s, Finish(i));
  }

  lemma TakenNext(s0: System, s: System, i: nat) returns (s': System)
    requires Reaches(s0, s) && W.WellShaped(s.wheel) && s.wheel.lost.NothingLost?
    requires WorkerIs(s, i, Idle) && s.queue != []
    ensures Reaches(s0, s') && W.WellShaped(s'.wheel) && s'.wheel.lost.NothingLost?
    ensures WorkerIs(s', i, Holds(s.queue[0])) && s'.queue == s.queue[1..] && PlaceOf(s', s.queue[0]) == Taken(i)
  {
    hide Reaches, W.WellShaped, Apply;
    s' := Next(s0, s, Take(i));
  }

  /** A free worker can take and finish one coroutine after the other. */
  lemma {:induction false} TakenAtLast(s0: System, s: System, i: nat, c: nat, k: nat) returns (s': System)
    requires Reaches(s0, s) && W.WellShaped(s.wheel) && s.wheel.lost.NothingLost?
    requires WorkerIs(s, i, Idle) && k < |s.queue| && s.queue[k] == c
    ensures Reaches(s0, s') && PlaceOf(s', c) == Taken(i)
    decreases k
  {
    hide Reaches, W.WellShaped, PlaceOf, WorkerIs;
    var s1 := TakenNext(s0, s, i);
    if k == 0 {
      s' := s1;
    } else {
      var s2 := Resumed(s0, s1, i, s.queue[0]);
      var s3 := Completed(s0, s2, i, s.queue[0]);
      s' := TakenAtLast(s0, s3, i, c, k - 1);
    }
  }

  /** It does happen, with any number of workers. */
  lemma LateCommitHappens(s0: System, c: nat)
    requires Init(s0)
    ensures exists s :: Reaches(s0, s) && AllExited(s) && PlaceOf(s, c) == Checked
  {
    hide Reaches, W.WellShaped, Apply;
    ReachesSelf(s0);
    var s1 := Next(s0, s0, Check(c));
    var s2 := Next(s0, s1, StopScheduler);
    var s3 := WorkersExit(s0, s2, 0);
    assert PlaceOf(s3, c) == Checked;
  }

  lemma {:induction false} WorkersExit(s0: System, s: System, k: nat) returns (s': System)
    requires Reaches(s0, s) && W.WellShaped(s.wheel) && s.wheel.lost.NothingLost? && s.stopFlag && s.runningCnt == 0
    requires k <= |s.workers| && forall i :: 0 <= i < |s.workers| ==> s.workers[i] == if i < k then Exited else Idle
    ensures Reaches(s0, s') && AllExited(s') && s'.places == s.places
    decreases |s.workers| - k
  {
    hide Reaches, W.WellShaped, Apply;
    if k == |s.workers| {
      s' := s;
    } else {
      var s1 := Next(s0, s, Exit(k));
      s' := WorkersExit(s0, s1, k + 1);
    }
  }
}
