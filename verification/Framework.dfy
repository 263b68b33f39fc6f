/** The scheduler, the timing wheel and the table of remote calls together
(src/coroutine_framework/scheduler.cpp, scheduler.h): where every coroutine is at every moment.

A coroutine and the coroutines it awaits are one unit. The states of the wheel and of the table
are those of TimeWheel and NetModel, and change by their steps only. A worker that has handed its
coroutine on is free for the next one, although it may still be inside register_frame; this only
allows more runs. A run ends if the wheel loses a frame (see WheelLoss). */
module Framework {
  import W = TimeWheel
  import N = NetModel
  import opened RpcCall

  datatype Worker = Idle | Holds(coro: nat) | Runs(coro: nat) | Exited

  /** The one place a coroutine is in. */
  datatype Place =
    | Unknown
    | Checked           // commit has seen that the scheduler is not stopped
    | Admitted          // counted, not yet in the queue
    | Queued
    | Taken(worker: nat)
    | Running(worker: nat)
    | Asleep(frame: W.Frame)
    | Calling
    | Done

  /** suspends, wakes, resumes: how often each coroutine has been suspended, put into the queue and
      resumed. */
  datatype System = System(
    queue: seq<nat>, workers: seq<Worker>, wheel: W.Wheel, net: N.Net, stopFlag: bool, runningCnt: int,
    places: map<nat, Place>, suspends: map<nat, nat>, wakes: map<nat, nat>, resumes: map<nat, nat>)

  datatype Step =
    | Check(coro: nat)
    | Admit(coro: nat)
    | Enqueue(coro: nat)
    | Take(worker: nat)
    | Resume(worker: nat)
    | Yield(worker: nat)
    | Sleep(worker: nat, wake: nat)
    | Call(worker: nat, endPoints: seq<EndPoint>, condition: FinishCondition)
    | Finish(worker: nat)
    | WheelStep(wheelStep: W.Step)
    | NetStep(netStep: N.Step)
    | StopScheduler
    | Exit(worker: nat)

  function PlaceOf(s: System, c: nat): Place {
    if c in s.places then s.places[c] else Unknown
  }

  function Count(m: map<nat, nat>, c: nat): nat {
    if c in m then m[c] else 0
  }

  ghost predicate Init(s: System) {
    && W.Init(s.wheel) && N.Init(s.net) && s.queue == [] && !s.stopFlag && s.runningCnt == 0
    && (forall i :: 0 <= i < |s.workers| ==> s.workers[i] == Idle)
    && s.places == map[] && s.suspends == s.wakes == s.resumes == map[]
  }

  // ---------- the steps ----------

  function Put(s: System, c: nat, p: Place): System {
    s.(places := s.places[c := p])
  }

  function SetWorker(s: System, i: nat, worker: Worker): System
    requires i < |s.workers|
  {
    s.(workers := s.workers[i := worker])
  }

  /** CommonExecuteModule::commit. */
  function Commit(s: System, c: nat): System {
    Put(s, c, Queued).(queue := s.queue + [c], wakes := s.wakes[c := Count(s.wakes, c) + 1])
  }

  /** The coroutine leaves its worker. */
  function Suspend(s: System, i: nat, c: nat, p: Place): System
    requires i < |s.workers|
  {
    SetWorker(Put(s, c, p), i, Idle).(suspends := s.suspends[c := Count(s.suspends, c) + 1])
  }

  datatype Option<T> = None | Some(value: T)

  /** The frame that a step of the wheel commits to the scheduler. */
  function Woken(w: W.Wheel, step: W.Step): Option<W.Frame> {
    match step
    case CommitMissed(f) => Some(f)
    case LoopStep => if W.CommitsNow(w) then Some(w.ready[0]) else None
    case _ => None
  }

  function NewFrame(w: W.Wheel, coro: nat, suspension: nat, wake: nat): W.Frame
    requires |w.starts| > 0
  {
    W.Frame(coro, suspension, wake, |w.starts| - 1)
  }

  function Sleeping(s: System, i: nat, c: nat, wake: nat): System
    requires W.WellShaped(s.wheel) && s.wheel.lost.NothingLost? && i < |s.workers|
  {
    var n := Count(s.suspends, c);
    Suspend(s, i, c, Asleep(NewFrame(s.wheel, c, n, wake)))
      .(wheel := W.Apply(s.wheel, W.BeginRegister(c, n, wake)))
  }

  function Called(s: System, i: nat, c: nat, endPoints: seq<EndPoint>, condition: FinishCondition): System
    requires i < |s.workers|
  {
    Suspend(s, i, c, Calling)
      .(net := N.Apply(s.net, N.Insert(N.Waiter(c, Count(s.suspends, c)), endPoints, condition)))
  }

  function WheelMoves(s: System, step: W.Step): System
    requires W.WellShaped(s.wheel) && W.Enabled(s.wheel, step)
  {
    var s1 := s.(wheel := W.Apply(s.wheel, step));
    var woken := Woken(s.wheel, step);
    if woken.Some? then Commit(s1, woken.value.coro) else s1
  }

  function NetMoves(s: System, step: N.Step): System
    requires N.Enabled(s.net, step)
  {
    var s1 := s.(net := N.Apply(s.net, step));
    if step.CommitWaiter? then Commit(s1, step.waiter.coro) else s1
  }

  predicate WorkerIs(s: System, i: nat, worker: Worker) {
    i < |s.workers| && s.workers[i] == worker
  }

  predicate Enabled(s: System, step: Step) {
    && W.WellShaped(s.wheel) && s.wheel.lost.NothingLost?
    && match step
       case Check(c) => PlaceOf(s, c) == Unknown && !s.stopFlag
       case Admit(c) => PlaceOf(s, c) == Checked
       case Enqueue(c) => PlaceOf(s, c) == Admitted
       case Take(i) => WorkerIs(s, i, Idle) && s.queue != []
       case Resume(i) => i < |s.workers| && s.workers[i].Holds?
       case Yield(i) => i < |s.workers| && s.workers[i].Runs?
       case Sleep(i, _) => i < |s.workers| && s.workers[i].Runs?
       case Call(i, _, _) => i < |s.workers| && s.workers[i].Runs?
       case Finish(i) => i < |s.workers| && s.workers[i].Runs?
       case WheelStep(step) => W.Enabled(s.wheel, step) && !step.BeginRegister? && (step.SetStop? ==> s.stopFlag)
       case NetStep(step) => N.Enabled(s.net, step) && !step.Insert? && (step.StopNet? ==> s.wheel.stop)
       case StopScheduler => true
       case Exit(i) => WorkerIs(s, i, Idle) && s.stopFlag && s.runningCnt == 0
  }

  function Apply(s: System, step: Step): System
    requires Enabled(s, step)
  {
    match step
    case Check(c) => Put(s, c, Checked)
    case Admit(c) => Put(s, c, Admitted).(runningCnt := s.runningCnt + 1)
    case Enqueue(c) => Commit(s, c)
    case Take(i) => SetWorker(Put(s, s.queue[0], Taken(i)), i, Holds(s.queue[0])).(queue := s.queue[1..])
    case Resume(i) =>
      var c := s.workers[i].coro;
      SetWorker(Put(s, c, Running(i)), i, Runs(c)).(resumes := s.resumes[c := Count(s.resumes, c) + 1])
    case Yield(i) => Commit(Suspend(s, i, s.workers[i].coro, Queued), s.workers[i].coro)
    case Sleep(i, wake) => Sleeping(s, i, s.workers[i].coro, wake)
    case Call(i, endPoints, condition) => Called(s, i, s.workers[i].coro, endPoints, condition)
    case Finish(i) => SetWorker(Put(s, s.workers[i].coro, Done), i, Idle).(runningCnt := s.runningCnt - 1)
    case WheelStep(step) => WheelMoves(s, step)
    case NetStep(step) => NetMoves(s, step)
    case StopScheduler => s.(stopFlag := true)
    case Exit(i) => SetWorker(s, i, Exited)
  }

  ghost predicate Leads(s: System, steps: seq<Step>, s': System)
    decreases steps
  {
    if steps == [] then s' == s
    else Enabled(s, steps[0]) && Leads(Apply(s, steps[0]), steps[1..], s')
  }

  // ---------- the two parts run on their own ----------

  lemma {:induction false} WheelPart(s: System, steps: seq<Step>, s': System)
    requires W.WellShaped(s.wheel) && Leads(s, steps, s')
    ensures W.WellShaped(s'.wheel) && W.Reaches(s.wheel, s'.wheel)
    decreases |steps|
  {
    hide Enabled, Apply, W.Reaches, W.WellShaped;
    if steps == [] {
      W.ReachesSelf(s.wheel);
    } else {
      var s1 := Apply(s, steps[0]);
      WheelPartStep(s, steps[0]);
      WheelPart(s1, steps[1..], s');
      W.ReachesTransitive(s.wheel, s1.wheel, s'.wheel);
    }
  }

  /** The step of the wheel in a step of the system. */
  function WheelStepOf(s: System, step: Step): Option<W.Step>
    requires Enabled(s, step)
  {
    match step
    case Sleep(i, wake) => Some(W.BeginRegister(s.workers[i].coro, Count(s.suspends, s.workers[i].coro), wake))
    case WheelStep(step) => Some(step)
    case _ => None
  }

  function NetStepOf(s: System, step: Step): Option<N.Step>
    requires Enabled(s, step)
  {
    match step
    case Call(i, endPoints, condition) =>
      Some(N.Insert(N.Waiter(s.workers[i].coro, Count(s.suspends, s.workers[i].coro)), endPoints, condition))
    case NetStep(step) => Some(step)
    case _ => None
  }

  lemma WheelAfter(s: System, step: Step)
    requires Enabled(s, step)
    ensures var ws, s' := WheelStepOf(s, step), Apply(s, step);
      && (ws.Some? ==> W.Enabled(s.wheel, ws.value))
      && s'.wheel == (if ws.Some? then W.Apply(s.wheel, ws.value) else s.wheel)
  {
    hide W.Apply, W.WellShaped, N.Apply, Woken;
  }

  lemma NetAfter(s: System, step: Step)
    requires Enabled(s, step)
    ensures var ns, s' := NetStepOf(s, step), Apply(s, step);
      && (ns.Some? ==> N.Enabled(s.net, ns.value))
      && s'.net == (if ns.Some? then N.Apply(s.net, ns.value) else s.net)
  {
    hide W.Apply, W.WellShaped, N.Apply, Woken;
  }

  lemma PartsAfter(s: System, step: Step)
    requires Enabled(s, step)
    ensures var ws, ns, s' := WheelStepOf(s, step), NetStepOf(s, step), Apply(s, step);
      && (ws.Some? ==> W.Enabled(s.wheel, ws.value))
      && s'.wheel == (if ws.Some? then W.Apply(s.wheel, ws.value) else s.wheel)
      && (ns.Some? ==> N.Enabled(s.net, ns.value))
      && s'.net == (if ns.Some? then N.Apply(s.net, ns.value) else s.net)
  {
    WheelAfter(s, step);
    NetAfter(s, step);
    hide *;
  }

  lemma WheelPartStep(s: System, step: Step)
    requires Enabled(s, step)
    ensures W.WellShaped(Apply(s, step).wheel) && W.Reaches(s.wheel, Apply(s, step).wheel)
  {
    PartsAfter(s, step);
    var ws := WheelStepOf(s, step);
    if ws.Some? { W.ReachesByStep(s.wheel, ws.value); } else { W.ReachesSelf(s.wheel); }
    hide *;
  }

  lemma {:induction false} NetPart(s: System, steps: seq<Step>, s': System)
    requires Leads(s, steps, s')
    ensures N.Reaches(s.net, s'.net)
    decreases |steps|
  {
    hide Enabled, Apply, N.Reaches;
    if steps == [] {
      N.ReachesSelf(s.net);
    } else {
      var s1 := Apply(s, steps[0]);
      NetPartStep(s, steps[0]);
      NetPart(s1, steps[1..], s');
      N.ReachesTransitive(s.net, s1.net, s'.net);
    }
  }

  lemma NetPartStep(s: System, step: Step)
    requires Enabled(s, step)
    ensures N.Reaches(s.net, Apply(s, step).net)
  {
    NetAfter(s, step);
    N.ReachesSelf(s.net);
    var ns := NetStepOf(s, step);
    if ns.Some? { N.ReachesThen(s.net, s.net, ns.value); }
    hide *;
  }

  // ---------- one coroutine moves at a time ----------

  datatype Move = Move(coro: nat, to: Place)

  function MoveOf(s: System, step: Step): Option<Move>
    requires Enabled(s, step)
  {
    match step
    case Check(c) => Some(Move(c, Checked))
    case Admit(c) => Some(Move(c, Admitted))
    case Enqueue(c) => Some(Move(c, Queued))
    case Take(i) => Some(Move(s.queue[0], Taken(i)))
    case Resume(i) => Some(Move(s.workers[i].coro, Running(i)))
    case Yield(i) => Some(Move(s.workers[i].coro, Queued))
    case Sleep(i, wake) =>
      var c := s.workers[i].coro;
      Some(Move(c, Asleep(NewFrame(s.wheel, c, Count(s.suspends, c), wake))))
    case Call(i, _, _) => Some(Move(s.workers[i].coro, Calling))
    case Finish(i) => Some(Move(s.workers[i].coro, Done))
    case WheelStep(step) =>
      var woken := Woken(s.wheel, step);
      if woken.Some? then Some(Move(woken.value.coro, Queued)) else None
    case NetStep(step) => if step.CommitWaiter? then Some(Move(step.waiter.coro, Queued)) else None
    case _ => None
  }

  predicate Suspends(step: Step) {
    step.Yield? || step.Sleep? || step.Call?
  }

  /** Where a step finds the coroutine it moves. */
  predicate FoundAt(s: System, step: Step, p: Place)
    requires Enabled(s, step)
  {
    match step
    case Check(_) => p == Unknown
    case Admit(_) => p == Checked
    case Enqueue(_) => p == Admitted
    case Take(_) => p == Queued
    case Resume(i) => p == Taken(i)
    case Yield(i) => p == Running(i)
    case Sleep(i, _) => p == Running(i)
    case Call(i, _, _) => p == Running(i)
    case Finish(i) => p == Running(i)
    case WheelStep(step) => Woken(s.wheel, step).Some? ==> p == Asleep(Woken(s.wheel, step).value)
    case NetStep(step) => step.CommitWaiter? ==> p == Calling
    case _ => true
  }

  lemma PlacesAfter(s: System, step: Step)
    requires Enabled(s, step)
    ensures var m, s' := MoveOf(s, step), Apply(s, step);
      s'.places == if m.Some? then s.places[m.value.coro := m.value.to] else s.places
  {
    hide W.Apply, W.WellShaped, W.Enabled, N.Apply, N.Enabled, Count, Woken, NewFrame, PlaceOf;
  }

  lemma SuspendsAfter(s: System, step: Step)
    requires Enabled(s, step)
    ensures var m, s' := MoveOf(s, step), Apply(s, step);
      if Suspends(step) then
        m.Some? && s'.suspends == s.suspends[m.value.coro := Count(s.suspends, m.value.coro) + 1]
      else s'.suspends == s.suspends
  {
    hide W.Apply, W.WellShaped, W.Enabled, N.Apply, N.Enabled, Count, Woken, NewFrame, PlaceOf;
  }

  lemma WakesAfter(s: System, step: Step)
    requires Enabled(s, step)
    ensures var m, s' := MoveOf(s, step), Apply(s, step);
      if m.Some? && m.value.to == Queued then
        s'.wakes == s.wakes[m.value.coro := Count(s.wakes, m.value.coro) + 1]
      else s'.wakes == s.wakes
  {
    hide W.Apply, W.WellShaped, W.Enabled, N.Apply, N.Enabled, Count, Woken, NewFrame, PlaceOf;
  }

  lemma ResumesAfter(s: System, step: Step)
    requires Enabled(s, step)
    ensures var m, s' := MoveOf(s, step), Apply(s, step);
      if step.Resume? then
        m.Some? && s'.resumes == s.resumes[m.value.coro := Count(s.resumes, m.value.coro) + 1]
      else s'.resumes == s.resumes
  {
    hide W.Apply, W.WellShaped, W.Enabled, N.Apply, N.Enabled, Count, Woken, NewFrame, PlaceOf;
  }

  lemma CountAfter(s: System, step: Step)
    requires Enabled(s, step)
    ensures Apply(s, step).runningCnt == s.runningCnt + if step.Admit? then 1 else if step.Finish? then -1 else 0
  {
    hide W.Apply, W.WellShaped, W.Enabled, N.Apply, N.Enabled, Count, Woken, NewFrame, PlaceOf;
  }

  lemma QueueAfter(s: System, step: Step)
    requires Enabled(s, step)
    ensures var m, s' := MoveOf(s, step), Apply(s, step);
      s'.queue == if step.Take? then s.queue[1..]
                  else if m.Some? && m.value.to == Queued then s.queue + [m.value.coro] else s.queue
  {
    hide W.Apply, W.WellShaped, W.Enabled, N.Apply, N.Enabled, Count, Woken, NewFrame, PlaceOf;
  }

  /** The worker that a step belongs to, and what it is afterwards. */
  function WorkerAfter(s: System, step: Step): Option<(nat, Worker)>
    requires Enabled(s, step)
  {
    match step
    case Take(i) => Some((i, Holds(s.queue[0])))
    case Resume(i) => Some((i, Runs(s.workers[i].coro)))
    case Yield(i) => Some((i, Idle))
    case Sleep(i, _) => Some((i, Idle))
    case Call(i, _, _) => Some((i, Idle))
    case Finish(i) => Some((i, Idle))
    case Exit(i) => Some((i, Exited))
    case _ => None
  }

  lemma WorkersAfter(s: System, step: Step)
    requires Enabled(s, step)
    ensures var wa, s' := WorkerAfter(s, step), Apply(s, step);
      && (wa.Some? ==> wa.value.0 < |s.workers|)
      && s'.workers == (if wa.Some? then s.workers[wa.value.0 := wa.value.1] else s.workers)
  {
    hide W.Apply, W.WellShaped, W.Enabled, N.Apply, N.Enabled, Count, Woken, NewFrame, PlaceOf;
  }

  lemma FlagAfter(s: System, step: Step)
    requires Enabled(s, step)
    ensures Apply(s, step).stopFlag == (s.stopFlag || step.StopScheduler?)
  {
    hide W.Apply, W.WellShaped, W.Enabled, N.Apply, N.Enabled, Count, Woken, NewFrame, PlaceOf;
  }

  /** What a step that is not a step of the wheel changes in the fields of the scheduler. */
  ghost predicate After(s: System, step: Step, s': System)
    requires Enabled(s, step)
  {
    var m, wa := MoveOf(s, step), WorkerAfter(s, step);
    && s'.queue == (if step.Take? then s.queue[1..]
                    else if m.Some? && m.value.to == Queued then s.queue + [m.value.coro] else s.queue)
    && s'.stopFlag == (s.stopFlag || step.StopScheduler?)
    && s'.runningCnt == s.runningCnt + (if step.Admit? then 1 else if step.Finish? then -1 else 0)
    && s'.places == (if m.Some? then s.places[m.value.coro := m.value.to] else s.places)
    && (wa.Some? ==> wa.value.0 < |s.workers|)
    && s'.workers == (if wa.Some? then s.workers[wa.value.0 := wa.value.1] else s.workers)
  }

  lemma StepEffect(s: System, step: Step)
    requires Enabled(s, step) && !step.WheelStep?
    ensures After(s, step, Apply(s, step))
    ensures W.WellShaped(Apply(s, step).wheel) && Apply(s, step).wheel.lost.NothingLost?
  {
    NothingLostHere(s, step);
    hide Apply, MoveOf, WorkerAfter, Enabled, W.Reaches, W.WellShaped, Suspends;
    QueueAfter(s, step);
    FlagAfter(s, step);
    CountAfter(s, step);
    PlacesAfter(s, step);
    WorkersAfter(s, step);
    WheelPartStep(s, step);
  }

  lemma NothingLostHere(s: System, step: Step)
    requires Enabled(s, step) && !step.WheelStep?
    ensures Apply(s, step).wheel.lost.NothingLost?
  {
    WheelAfter(s, step);
    var ws := WheelStepOf(s, step);
    if ws.Some? {
      assert ws.value.BeginRegister?;
      assert W.Apply(s.wheel, ws.value).lost == s.wheel.lost;
    }
    hide Apply, W.WellShaped;
  }

  // ---------- putting runs together ----------

  ghost predicate Reaches(s: System, s': System) {
    exists steps :: Leads(s, steps, s')
  }

  lemma {:induction false} LeadsJoin(s: System, steps: seq<Step>, s1: System, more: seq<Step>, s2: System)
    requires Leads(s, steps, s1) && Leads(s1, more, s2)
    ensures Leads(s, steps + more, s2)
    decreases |steps|
  {
    hide Apply, Enabled;
    if steps == [] {
      assert [] + more == more;
    } else {
      LeadsJoin(Apply(s, steps[0]), steps[1..], s1, more, s2);
      assert (steps + more)[1..] == steps[1..] + more;
    }
  }

  lemma ReachesTransitive(s: System, s1: System, s2: System)
    requires Reaches(s, s1) && Reaches(s1, s2)
    ensures Reaches(s, s2)
  {
    hide Leads;
    var steps :| Leads(s, steps, s1);
    var more :| Leads(s1, more, s2);
    LeadsJoin(s, steps, s1, more, s2);
  }

  lemma ReachesSelf(s: System)
    ensures Reaches(s, s)
  {
    assert Leads(s, [], s);
  }

  lemma ReachesThen(s0: System, s: System, step: Step)
    requires Reaches(s0, s) && Enabled(s, step)
    ensures Reaches(s0, Apply(s, step))
  {
    hide Apply, Enabled;
    assert Leads(Apply(s, step), [], Apply(s, step));
    assert [step][1..] == [];
    assert Leads(s, [step], Apply(s, step));
    ReachesTransitive(s0, s, Apply(s, step));
  }

  /** From s to s' these steps are taken in this order, among any number of steps of others. */
  ghost predicate Performs(s: System, mine: seq<Step>, s': System)
    decreases |mine|
  {
    if mine == [] then Reaches(s, s')
    else
      var last := |mine| - 1;
      exists s1 :: Performs(s, mine[..last], s1) && StepThen(s1, mine[last], s')
  }

  ghost predicate StepThen(s: System, step: Step, s': System) {
    Enabled(s, step) && Reaches(Apply(s, step), s')
  }

  lemma PerformsOn(s: System, mine: seq<Step>, s1: System, s2: System)
    requires Performs(s, mine, s1) && Reaches(s1, s2)
    ensures Performs(s, mine, s2)
  {
    hide Reaches, Enabled, Apply;
    if mine == [] {
      ReachesTransitive(s, s1, s2);
    } else {
      var last := |mine| - 1;
      var k :| Performs(s, mine[..last], k) && StepThen(k, mine[last], s1);
      ReachesTransitive(Apply(k, mine[last]), s1, s2);
      assert StepThen(k, mine[last], s2);
    }
  }

  lemma PerformsThen(s: System, mine: seq<Step>, s1: System, step: Step)
    requires Performs(s, mine, s1) && Enabled(s1, step)
    ensures Performs(s, mine + [step], Apply(s1, step))
  {
    hide Reaches, Enabled, Apply;
    ReachesSelf(Apply(s1, step));
    assert StepThen(s1, step, Apply(s1, step));
    hide StepThen;
    assert (mine + [step])[..|mine|] == mine && (mine + [step])[|mine|] == step;
  }

  lemma PerformsNothing(s: System)
    ensures Performs(s, [], s)
  {
    ReachesSelf(s);
    hide Reaches;
  }
}
