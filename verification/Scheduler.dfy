/** The methods of the scheduler (src/coroutine_framework/scheduler.cpp, scheduler.h) as they update
its fields. The ghost field `system` is the step system of module Framework: every critical section
below is one of its steps, and in between the other threads may take any number of steps. */
module Scheduler {
  import opened Framework
  import opened RpcCall
  import W = TimeWheel

  /** What a resumed coroutine does before it gives its worker back. */
  datatype Action =
    | Yields
    | Sleeps(wake: nat)
    | Calls(endPoints: seq<EndPoint>, condition: FinishCondition)
    | Finishes

  class CoroScheduler {
    var coroutineQueue: seq<nat>
    var stopFlag: bool
    var runningCoroCnt: int
    ghost var system: System

    ghost predicate Valid()
      reads this
    {
      && coroutineQueue == system.queue && stopFlag == system.stopFlag && runningCoroCnt == system.runningCnt
      && W.WellShaped(system.wheel) && system.wheel.lost.NothingLost?
    }

    ghost predicate Mine(i: nat, worker: Worker)
      reads this
    {
      i < |system.workers| && system.workers[i] == worker
    }

    /** The other threads. They leave worker i and the coroutine c that is being submitted alone. */
    method Others(ghost s0: System, ghost mine: seq<Step>, ghost i: nat, ghost c: nat)
      requires Valid() && Performs(s0, mine, system)
      modifies this
      ensures Valid() && Performs(s0, mine, system)
      ensures forall worker :: old(Mine(i, worker)) ==> Mine(i, worker)
      ensures Submitting(old(PlaceOf(system, c))) ==> PlaceOf(system, c) == old(PlaceOf(system, c))
    {
      var stop: bool := *;
      if stop {
        hide Performs, W.WellShaped, Apply;
        stopFlag := true;
        StepEffect(system, StopScheduler);
        ReachesSelf(system);
        ReachesThen(system, system, StopScheduler);
        PerformsOn(s0, mine, system, Apply(system, StopScheduler));
        system := Apply(system, StopScheduler);
      }
    }

    /** One step of this thread. */
    ghost method Perform(s0: System, mine: seq<Step>, step: Step)
      requires W.WellShaped(system.wheel) && Enabled(system, step) && Performs(s0, mine, system) && !step.WheelStep?
      modifies this`system
      ensures system == Apply(old(system), step) && Performs(s0, mine + [step], system)
      ensures W.WellShaped(system.wheel) && system.wheel.lost.NothingLost?
      ensures After(old(system), step, system)
    {
      hide Apply, Performs, W.WellShaped, After;
      StepEffect(system, step);
      PerformsThen(s0, mine, system, step);
      hide Enabled;
      system := Apply(system, step);
    }

    /** commit of a new coroutine: refused if the scheduler is stopped; otherwise the coroutine is
        counted first and queued then. */
    method CommitTask(c: nat) returns (ok: bool)
      requires Valid() && PlaceOf(system, c) == Unknown
      modifies this
      ensures Valid()
      ensures ok == !old(stopFlag)
      ensures if ok then Performs(old(system), [Check(c), Admit(c), Enqueue(c)], system) else system == old(system)
    {
      ghost var s0 := system;
      PerformsNothing(system);
      hide Performs, W.WellShaped, Apply;
      ok := !stopFlag;
      if ok {
        Perform(s0, [], Check(c));
        assert [] + [Check(c)] == [Check(c)];
        AdmitAndQueue(s0, c);
      }
    }

    method AdmitAndQueue(ghost s0: System, c: nat)
      requires Valid() && PlaceOf(system, c) == Checked && Performs(s0, [Check(c)], system)
      modifies this
      ensures Valid() && Performs(s0, [Check(c), Admit(c), Enqueue(c)], system)
    {
      hide Performs, W.WellShaped, Apply;
      ghost var mine := [Check(c)];
      Others(s0, mine, 0, c);
      runningCoroCnt := runningCoroCnt + 1;
      Perform(s0, mine, Admit(c));
      mine := mine + [Admit(c)];
      Others(s0, mine, 0, c);
      coroutineQueue := coroutineQueue + [c];
      Perform(s0, mine, Enqueue(c));
      assert mine + [Enqueue(c)] == [Check(c), Admit(c), Enqueue(c)];
    }

    /** A worker, followed for `rounds` rounds or until it ends. */
    method Loop(i: nat, rounds: nat) returns (ended: bool, ghost rs: seq<Round>)
      requires Valid() && Mine(i, Idle)
      modifies this
      ensures Valid() && Mine(i, if ended then Exited else Idle)
      ensures Rounds(i, old(system), rs) && system == Last(old(system), rs)
      ensures ended <==> rs != [] && Ends(rs[|rs| - 1].look)
      ensures |rs| <= rounds && (ended || |rs| == rounds)
      ensures Performs(old(system), StepsOfAll(i, rs), system)
    {
      ghost var s0 := system;
      hide Performs, W.WellShaped, RoundOf;
      ended, rs := false, [];
      var n := 0;
      while n < rounds && !ended
        invariant Valid() && Mine(i, if ended then Exited else Idle)
        invariant Rounds(i, s0, rs) && system == Last(s0, rs)
        invariant |rs| == n <= rounds && (ended <==> rs != [] && Ends(rs[|rs| - 1].look))
      {
        ghost var r;
        ended, r := OneRound(i);
        OneMoreRound(i, s0, rs, r);
        rs := rs + [r];
        n := n + 1;
      }
      RoundsPerform(i, s0, rs);
    }

    /** The loop test; then, after a wait, the look at the queue under the lock. */
    method OneRound(i: nat) returns (ended: bool, ghost r: Round)
      requires Valid() && Mine(i, Idle)
      modifies this
      ensures Valid() && Mine(i, if ended then Exited else Idle)
      ensures RoundOf(i, old(system), r) && r.after == system
      ensures ended <==> r.look.stopFlag && r.look.runningCnt == 0
    {
      ghost var s0 := system;
      hide Performs, W.WellShaped, Apply, Reaches, After;
      Pass(s0, i);
      ghost var look := system;
      ended := stopFlag && runningCoroCnt == 0;
      if ended {
        Exiting(i);
        r := Round(look, look, Exit(i), system);
        return;
      }
      Pass(look, i);
      ghost var locked, last := system, Exit(i);
      if coroutineQueue != [] {
        last := TakeOne(i);
      } else {
        ReachesSelf(system);
      }
      r := Round(look, locked, last, system);
    }

    /** The others run while worker i is idle. */
    method Pass(ghost s: System, i: nat)
      requires Valid() && Mine(i, Idle) && s == system
      modifies this
      ensures Valid() && Mine(i, Idle) && Reaches(s, system)
    {
      ReachesSelf(system);
      assert Performs(s, [], system);
      Others(s, [], i, 0);
      assert Mine(i, Idle);
      hide Reaches;
    }

    method Exiting(i: nat)
      requires Valid() && Mine(i, Idle) && stopFlag && runningCoroCnt == 0
      modifies this
      ensures Valid() && Mine(i, Exited) && StepThen(old(system), Exit(i), system)
    {
      ghost var s0 := system;
      PerformsNothing(system);
      hide Performs, W.WellShaped, Apply;
      Perform(s0, [], Exit(i));
      ReachesSelf(system);
    }

    method TakeOne(i: nat) returns (ghost last: Step)
      requires Valid() && Mine(i, Idle) && coroutineQueue != []
      modifies this
      ensures Valid() && Mine(i, Idle) && Leaves(i, last) && Enabled(old(system), Take(i))
      ensures Performs(Apply(old(system), Take(i)), [Resume(i), last], system)
    {
      ghost var s0 := system;
      PerformsNothing(system);
      hide Performs, W.WellShaped, Apply;
      var c := coroutineQueue[0];
      coroutineQueue := coroutineQueue[1..];
      Perform(s0, [], Take(i));
      PerformsNothing(system);
      ghost var s1 := system;
      last := ConsumeReadyCoroutine(s1, [], i, c);
      assert [] + [Resume(i)] + [last] == [Resume(i), last];
    }

    /** Resumes the coroutine in the worker's own queue, once. What the coroutine does is its own
        affair. */
    method ConsumeReadyCoroutine(ghost s0: System, ghost mine: seq<Step>, i: nat, c: nat) returns (ghost last: Step)
      requires Valid() && Performs(s0, mine, system) && Mine(i, Holds(c))
      modifies this
      ensures Valid() && Performs(s0, mine + [Resume(i)] + [last], system) && Leaves(i, last) && Mine(i, Idle)
    {
      hide Performs, W.WellShaped, Apply;
      Others(s0, mine, i, 0);
      assert Mine(i, Holds(c));
      Perform(s0, mine, Resume(i));
      assert Mine(i, Runs(c));
      Others(s0, mine + [Resume(i)], i, 0);
      assert Mine(i, Runs(c));
      var action: Action := *;
      last := Act(s0, mine + [Resume(i)], i, c, action);
    }

    /** What the running coroutine does before the worker is free again. */
    method Act(ghost s0: System, ghost mine: seq<Step>, i: nat, c: nat, action: Action) returns (ghost last: Step)
      requires Valid() && Performs(s0, mine, system) && Mine(i, Runs(c))
      modifies this
      ensures Valid() && Performs(s0, mine + [last], system) && Leaves(i, last) && Mine(i, Idle)
    {
      hide Performs, W.WellShaped, Apply;
      match action {
        case Yields =>
          Yielded(s0, mine, i, c);
          last := Yield(i);
        case Sleeps(wake) =>
          last := Sleep(i, wake);
          Perform(s0, mine, last);
        case Calls(endPoints, condition) =>
          last := Step.Call(i, endPoints, condition);
          Perform(s0, mine, last);
        case Finishes =>
          Finished(s0, mine, i, c);
          last := Finish(i);
      }
    }

    method Yielded(ghost s0: System, ghost mine: seq<Step>, i: nat, c: nat)
      requires Valid() && Performs(s0, mine, system) && Mine(i, Runs(c))
      modifies this
      ensures Valid() && Performs(s0, mine + [Yield(i)], system) && Mine(i, Idle)
    {
      hide Performs, W.WellShaped, Apply;
      coroutineQueue := coroutineQueue + [c];
      Perform(s0, mine, Yield(i));
    }

    method Finished(ghost s0: System, ghost mine: seq<Step>, i: nat, c: nat)
      requires Valid() && Performs(s0, mine, system) && Mine(i, Runs(c))
      modifies this
      ensures Valid() && Performs(s0, mine + [Finish(i)], system) && Mine(i, Idle)
    {
      hide Performs, W.WellShaped, Apply;
      runningCoroCnt := runningCoroCnt - 1;
      Perform(s0, mine, Finish(i));
    }
  }

  predicate Submitting(p: Place) {
    p == Checked || p == Admitted
  }

  /** The step with which a coroutine leaves worker i. */
  predicate Leaves(i: nat, step: Step) {
    (step.Yield? || step.Sleep? || step.Call? || step.Finish?) && step.worker == i
  }

  /** A round of a worker: the system at the loop test, the system when the lock is held, the step
      with which the coroutine taken, if any, left the worker, and the system afterwards. */
  datatype Round = Round(look: System, locked: System, last: Step, after: System)

  predicate Ends(look: System) {
    look.stopFlag && look.runningCnt == 0
  }

  /** The worker ends if and only if it sees the flag set and no coroutine left. Otherwise it takes
      the first coroutine if and only if the queue is not empty, resumes it once and sees it leave. */
  ghost predicate RoundOf(i: nat, s: System, r: Round) {
    && Reaches(s, r.look)
    && if Ends(r.look) then StepThen(r.look, Exit(i), r.after)
       else
         && Reaches(r.look, r.locked)
         && if r.locked.queue == [] then Reaches(r.locked, r.after)
            else
              && Enabled(r.locked, Take(i)) && Leaves(i, r.last)
              && Performs(Apply(r.locked, Take(i)), [Resume(i), r.last], r.after)
  }

  function Last(s: System, rs: seq<Round>): System {
    if rs == [] then s else rs[|rs| - 1].after
  }

  /** Each round starts where the one before it ended, and only the last may end the worker. */
  ghost predicate Rounds(i: nat, s: System, rs: seq<Round>) {
    forall k | 0 <= k < |rs| :: RoundOf(i, Last(s, rs[..k]), rs[k]) && (Ends(rs[k].look) ==> k == |rs| - 1)
  }

  lemma OneMoreRound(i: nat, s: System, rs: seq<Round>, r: Round)
    requires Rounds(i, s, rs) && RoundOf(i, Last(s, rs), r) && (rs != [] ==> !Ends(rs[|rs| - 1].look))
    ensures Rounds(i, s, rs + [r]) && Last(s, rs + [r]) == r.after
  {
    hide RoundOf, Ends;
    forall k | 0 <= k <= |rs|
      ensures (rs + [r])[..k] == rs[..k] && (k == |rs| ==> rs[..k] == rs)
    {
    }
  }

  // ---------- the steps of the worker's own ----------

  function StepsOf(i: nat, r: Round): seq<Step> {
    if Ends(r.look) then [Exit(i)]
    else if r.locked.queue == [] then []
    else [Take(i), Resume(i), r.last]
  }

  function StepsOfAll(i: nat, rs: seq<Round>): seq<Step> {
    if rs == [] then [] else StepsOfAll(i, rs[..|rs| - 1]) + StepsOf(i, rs[|rs| - 1])
  }

  lemma {:induction false} PerformsJoin(s: System, a: seq<Step>, s1: System, b: seq<Step>, s2: System)
    requires Performs(s, a, s1) && Performs(s1, b, s2)
    ensures Performs(s, a + b, s2)
    decreases |b|
  {
    hide Enabled, Apply, Reaches, StepThen;
    if b == [] {
      PerformsOn(s, a, s1, s2);
      assert a + b == a;
    } else {
      var n := |b| - 1;
      var k :| Performs(s1, b[..n], k) && StepThen(k, b[n], s2);
      PerformsJoin(s, a, s1, b[..n], k);
      assert (a + b)[..|a + b| - 1] == a + b[..n] && (a + b)[|a + b| - 1] == b[n];
    }
  }

  lemma StepPerforms(s: System, step: Step, s': System)
    requires StepThen(s, step, s')
    ensures Performs(s, [step], s')
  {
    PerformsNothing(s);
    hide StepThen;
    assert [step][..0] == [];
  }

  lemma RoundPerforms(i: nat, s: System, r: Round)
    requires RoundOf(i, s, r)
    ensures Performs(s, StepsOf(i, r), r.after)
  {
    hide Performs, Enabled, Apply, Reaches;
    if Ends(r.look) {
      StepPerforms(r.look, Exit(i), r.after);
      AfterReach(s, r.look, [Exit(i)], r.after);
    } else {
      ReachesTransitive(s, r.look, r.locked);
      if r.locked.queue == [] {
        ReachesTransitive(s, r.locked, r.after);
        ReachIsPerform(s, r.after);
      } else {
        var s1 := Apply(r.locked, Take(i));
        ReachesSelf(s1);
        StepPerforms(r.locked, Take(i), s1);
        PerformsJoin(r.locked, [Take(i)], s1, [Resume(i), r.last], r.after);
        assert [Take(i)] + [Resume(i), r.last] == [Take(i), Resume(i), r.last];
        AfterReach(s, r.locked, [Take(i), Resume(i), r.last], r.after);
      }
    }
  }

  lemma ReachIsPerform(s: System, s': System)
    ensures Performs(s, [], s') <==> Reaches(s, s')
  {
    hide Reaches;
  }

  lemma AfterReach(s: System, s1: System, mine: seq<Step>, s2: System)
    requires Reaches(s, s1) && Performs(s1, mine, s2)
    ensures Performs(s, mine, s2)
  {
    hide Performs, Reaches;
    ReachIsPerform(s, s1);
    PerformsJoin(s, [], s1, mine, s2);
    assert [] + mine == mine;
  }

  /** A worker takes no steps but those of its rounds, in order, among any number of steps of others. */
  lemma {:induction false} RoundsPerform(i: nat, s: System, rs: seq<Round>)
    requires Rounds(i, s, rs)
    ensures Performs(s, StepsOfAll(i, rs), Last(s, rs))
  {
    hide Performs, RoundOf, Ends, StepsOf;
    if rs == [] {
      PerformsNothing(s);
    } else {
      var n := |rs| - 1;
      RoundsBefore(i, s, rs);
      RoundsPerform(i, s, rs[..n]);
      RoundPerforms(i, Last(s, rs[..n]), rs[n]);
      PerformsJoin(s, StepsOfAll(i, rs[..n]), Last(s, rs[..n]), StepsOf(i, rs[n]), rs[n].after);
    }
  }

  lemma RoundsBefore(i: nat, s: System, rs: seq<Round>)
    requires rs != [] && Rounds(i, s, rs)
    ensures Rounds(i, s, rs[..|rs| - 1]) && RoundOf(i, Last(s, rs[..|rs| - 1]), rs[|rs| - 1])
  {
    hide RoundOf, Ends;
    forall k | 0 <= k < |rs|
      ensures k < |rs| - 1 ==> rs[..|rs| - 1][..k] == rs[..k]
    {
    }
    var n := |rs| - 1;
    assert RoundOf(i, Last(s, rs[..n]), rs[n]);
  }
}
