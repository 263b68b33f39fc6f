/** What every step of the framework keeps: the queue, the workers, the wheel and the table of remote
    calls each hold exactly the coroutines whose recorded place they are. */
module FrameworkInvariant {
  import opened Framework
  import opened RpcCall
  import W = TimeWheel
  import T = WheelTiming
  import C = WheelConservation
  import N = NetModel

  // ---------- invariants ----------

  ghost predicate QueueOk(s: System) {
    forall c: nat :: multiset(s.queue)[c] == if PlaceOf(s, c) == Queued then 1 else 0
  }

  predicate WorkerOk(s: System, i: nat)
    requires i < |s.workers|
  {
    match s.workers[i]
    case Holds(c) => PlaceOf(s, c) == Taken(i)
    case Runs(c) => PlaceOf(s, c) == Running(i)
    case _ => true
  }

  predicate HolderOk(s: System, c: nat) {
    match PlaceOf(s, c)
    case Taken(i) => WorkerIs(s, i, Holds(c))
    case Running(i) => WorkerIs(s, i, Runs(c))
    case _ => true
  }

  ghost predicate WorkersOk(s: System) {
    && (forall i :: 0 <= i < |s.workers| ==> WorkerOk(s, i))
    && (forall c: nat :: HolderOk(s, c))
  }

  predicate Ready(p: Place) {
    p.Queued? || p.Taken? || p.Running? || p.Done?
  }

  predicate Started(p: Place) {
    p.Running? || p.Done?
  }

  predicate Fresh(p: Place) {
    p.Unknown? || p.Checked? || p.Admitted?
  }

  /** A coroutine has been put into the queue once more than it has been suspended if it is ready,
      running or done, and exactly as often otherwise; likewise for its resumptions. */
  predicate CountersOk(s: System, c: nat) {
    var p, n := PlaceOf(s, c), Count(s.suspends, c);
    && Count(s.wakes, c) == n + (if Ready(p) then 1 else 0)
    && Count(s.resumes, c) == n + (if Started(p) then 1 else 0)
    && (Fresh(p) ==> n == 0)
  }

  ghost predicate AllCountersOk(s: System) {
    forall c: nat :: CountersOk(s, c)
  }

  predicate Counted(p: Place) {
    !p.Unknown? && !p.Checked? && !p.Done?
  }

  function Live(places: map<nat, Place>): set<nat> {
    set c | c in places && Counted(places[c])
  }

  ghost predicate CountOk(s: System) {
    s.runningCnt == |Live(s.places)|
  }

  predicate FrameOk(s: System, f: W.Frame) {
    && s.wheel.begun[f] == C.Committed(s.wheel.commits, f) + (if PlaceOf(s, f.coro) == Asleep(f) then 1 else 0)
    && s.wheel.begun[f] <= 1
    && (s.wheel.begun[f] > 0 ==> f.suspension < Count(s.suspends, f.coro))
  }

  ghost predicate FramesOk(s: System) {
    && T.Inv(s.wheel)
    && (forall f: W.Frame :: C.Conserved(s.wheel, f))
    && (forall f: W.Frame :: FrameOk(s, f))
  }

  predicate IsCalling(s: System, w: N.Waiter) {
    PlaceOf(s, w.coro) == Calling && w.suspension + 1 == Count(s.suspends, w.coro)
  }

  predicate WaiterOk(s: System, w: N.Waiter) {
    && s.net.begun[w] == s.net.committed[w] + (if IsCalling(s, w) then 1 else 0)
    && s.net.ignored[w] == 0 && s.net.begun[w] <= 1
    && (s.net.begun[w] > 0 ==> w.suspension < Count(s.suspends, w.coro))
  }

  ghost predicate WaitersOk(s: System) {
    && N.KeysOk(s.net)
    && (forall w: N.Waiter :: N.Conserved(s.net, w))
    && (forall w: N.Waiter :: WaiterOk(s, w))
  }

  ghost predicate Inv(s: System) {
    QueueOk(s) && WorkersOk(s) && AllCountersOk(s) && CountOk(s) && FramesOk(s) && WaitersOk(s)
  }

  lemma InvInit(s: System)
    requires Init(s)
    ensures Inv(s)
  {
    forall f: W.Frame ensures C.Conserved(s.wheel, f) {
      C.ConservationInit(s.wheel, f);
    }
    T.InvInit(s.wheel);
    assert Live(s.places) == {};
  }

  /** A step finds the coroutine it moves in the place it expects. */
  lemma FoundWhereExpected(s: System, step: Step)
    requires Inv(s) && Enabled(s, step) && MoveOf(s, step).Some?
    ensures FoundAt(s, step, PlaceOf(s, MoveOf(s, step).value.coro))
  {
    hide Live, C.Committed;
    match step
    case Take(_) =>
      assert s.queue[0] in multiset(s.queue);
    case WheelStep(ws) =>
      var f := Woken(s.wheel, ws).value;
      WokenIsPending(s.wheel, ws);
      assert FrameOk(s, f);
    case NetStep(ns) =>
      assert N.Conserved(s.net, ns.waiter) && WaiterOk(s, ns.waiter);
    case Resume(i) => assert WorkerOk(s, i);
    case Yield(i) => assert WorkerOk(s, i);
    case Sleep(i, _) => assert WorkerOk(s, i);
    case Call(i, _, _) => assert WorkerOk(s, i);
    case Finish(i) => assert WorkerOk(s, i);
    case _ =>
  }

  lemma WokenIsPending(w: W.Wheel, step: W.Step)
    requires W.WellShaped(w) && W.Enabled(w, step) && Woken(w, step).Some?
    requires forall f: W.Frame :: C.Conserved(w, f)
    ensures var f := Woken(w, step).value; w.begun[f] > C.Committed(w.commits, f)
  {
    var f := Woken(w, step).value;
    assert C.Conserved(w, f);
    assert step.LoopStep? ==> multiset(w.ready)[f] >= 1 by { assert step.LoopStep? ==> w.ready[0] in multiset(w.ready); }
    hide C.Committed, C.Waiting;
  }

  /** What one step does to the place and the counters of coroutine c. */
  ghost predicate Moves(s: System, step: Step, s': System, c: nat)
    requires Enabled(s, step)
  {
    var m := MoveOf(s, step);
    var mine := m.Some? && m.value.coro == c;
    && PlaceOf(s', c) == (if mine then m.value.to else PlaceOf(s, c))
    && Count(s'.suspends, c) == Count(s.suspends, c) + (if mine && Suspends(step) then 1 else 0)
    && Count(s'.wakes, c) == Count(s.wakes, c) + (if mine && m.value.to == Queued then 1 else 0)
    && Count(s'.resumes, c) == Count(s.resumes, c) + (if mine && step.Resume? then 1 else 0)
  }

  lemma StepMoves(s: System, step: Step, c: nat)
    requires Enabled(s, step)
    ensures Moves(s, step, Apply(s, step), c)
  {
    PlacesAfter(s, step);
    SuspendsAfter(s, step);
    WakesAfter(s, step);
    ResumesAfter(s, step);
    hide Apply, Enabled, MoveOf, Suspends;
  }

  function One(b: bool): int {
    if b then 1 else 0
  }

  /** What the places a coroutine moves between have to do with the kind of step. */
  predicate Legal(from: Place, to: Place, step: Step) {
    && One(Ready(to)) - One(Ready(from)) == One(to == Queued) - One(Suspends(step))
    && One(Started(to)) - One(Started(from)) == One(step.Resume?) - One(Suspends(step))
    && (Fresh(to) ==> Fresh(from) && !Suspends(step))
    && One(Counted(to)) - One(Counted(from)) == (if step.Admit? then 1 else if step.Finish? then -1 else 0)
    && (to == Queued ==> from != Queued || step.Yield?)
    && (from == Queued <==> step.Take?) && (step.Take? ==> to != Queued)
  }

  lemma MoveIsLegal(s: System, step: Step)
    requires Inv(s) && Enabled(s, step) && MoveOf(s, step).Some?
    ensures var m := MoveOf(s, step).value; Legal(PlaceOf(s, m.coro), m.to, step)
  {
    FoundWhereExpected(s, step);
    hide Inv, PlaceOf, Woken, W.WellShaped, W.Enabled, N.Enabled;
  }

  lemma NoMoveNoCount(s: System, step: Step)
    requires Enabled(s, step) && MoveOf(s, step).None?
    ensures !Suspends(step) && !step.Resume? && !step.Admit? && !step.Finish? && !step.Take?
  {
    hide Woken, W.WellShaped, W.Enabled, N.Enabled;
  }

  lemma CountersMove(from: Place, to: Place, step: Step, n: int, wakes: int, resumes: int)
    requires Legal(from, to, step) && (Fresh(from) ==> n == 0)
    requires wakes == n + One(Ready(from)) && resumes == n + One(Started(from))
    ensures var n' := n + One(Suspends(step));
      && wakes + One(to == Queued) == n' + One(Ready(to))
      && resumes + One(step.Resume?) == n' + One(Started(to))
      && (Fresh(to) ==> n' == 0)
  {
    hide Ready, Started, Fresh, Counted;
  }

  lemma CountersFacts(s: System, c: nat)
    requires Inv(s)
    ensures CountersOk(s, c)
  {
    hide CountersOk, QueueOk, WorkersOk, CountOk, FramesOk, WaitersOk;
  }

  lemma CountersStep(s: System, step: Step, c: nat)
    requires Inv(s) && Enabled(s, step)
    ensures CountersOk(Apply(s, step), c)
  {
    hide Apply, Enabled, Inv, Woken, Count, MoveOf, PlaceOf, Ready, Started, Fresh, Counted, Suspends, Legal;
    hide W.WellShaped;
    CountersFacts(s, c);
    StepMoves(s, step, c);
    var m := MoveOf(s, step);
    if m.Some? && m.value.coro == c {
      MoveIsLegal(s, step);
      CountersMove(PlaceOf(s, c), m.value.to, step, Count(s.suspends, c), Count(s.wakes, c), Count(s.resumes, c));
    }
  }

  lemma QueueCount(q: seq<nat>, c: nat, d: nat)
    ensures multiset(q + [d])[c] == multiset(q)[c] + if c == d then 1 else 0
    ensures q != [] ==> multiset(q[1..])[c] == multiset(q)[c] - if c == q[0] then 1 else 0
  {
    if q != [] { assert q == [q[0]] + q[1..]; }
  }

  lemma TakesFirst(s: System, step: Step)
    requires Enabled(s, step) && step.Take?
    ensures s.queue != [] && MoveOf(s, step).Some? && MoveOf(s, step).value.coro == s.queue[0]
  {
  }

  lemma QueueStep(s: System, step: Step, c: nat)
    requires Inv(s) && Enabled(s, step)
    ensures multiset(Apply(s, step).queue)[c] == if PlaceOf(Apply(s, step), c) == Queued then 1 else 0
  {
    StepMoves(s, step, c);
    QueueAfter(s, step);
    assert QueueOk(s);
    assert multiset(s.queue)[c] == if PlaceOf(s, c) == Queued then 1 else 0;
    var m := MoveOf(s, step);
    if m.Some? {
      MoveIsLegal(s, step);
      QueueCount(s.queue, c, m.value.coro);
      if step.Take? { TakesFirst(s, step); }
    } else {
      NoMoveNoCount(s, step);
    }
    hide Apply, Inv, QueueOk, Woken, MoveOf, Enabled, PlaceOf, Ready, Started, Fresh, Counted, Suspends, Count;
  }

  lemma LiveAfter(places: map<nat, Place>, c: nat, p: Place)
    ensures |Live(places[c := p])| == |Live(places)| + One(Counted(p)) - One(c in places && Counted(places[c]))
  {
    var live := Live(places);
    assert Live(places[c := p]) == if Counted(p) then live + {c} else live - {c};
    assert c in live <==> c in places && Counted(places[c]);
    hide Live, Counted;
  }

  lemma CountStep(s: System, step: Step)
    requires Inv(s) && Enabled(s, step)
    ensures CountOk(Apply(s, step))
  {
    PlacesAfter(s, step);
    CountAfter(s, step);
    var m := MoveOf(s, step);
    assert CountOk(s);
    if m.Some? {
      MoveIsLegal(s, step);
      LiveAfter(s.places, m.value.coro, m.value.to);
      assert m.value.coro !in s.places ==> !Counted(PlaceOf(s, m.value.coro));
    } else {
      NoMoveNoCount(s, step);
    }
    hide Apply, Inv, Woken, Live, MoveOf, Enabled, Ready, Started, Fresh, Counted, Suspends;
  }

  /** Whose worker a step changes. */
  lemma WorkerMoves(s: System, step: Step)
    requires Inv(s) && Enabled(s, step)
    ensures var m, wa := MoveOf(s, step), WorkerAfter(s, step);
      && (wa.Some? && wa.value.1.Holds? ==> m == Some(Move(wa.value.1.coro, Taken(wa.value.0))))
      && (wa.Some? && wa.value.1.Runs? ==> m == Some(Move(wa.value.1.coro, Running(wa.value.0))))
      && (m.Some? && m.value.to.Taken? ==> wa == Some((m.value.to.worker, Holds(m.value.coro))))
      && (m.Some? && m.value.to.Running? ==> wa == Some((m.value.to.worker, Runs(m.value.coro))))
      && (wa.Some? ==> wa.value.0 < |s.workers|)
      && (wa.Some? && s.workers[wa.value.0].Holds? ==> m.Some? && m.value.coro == s.workers[wa.value.0].coro)
      && (wa.Some? && s.workers[wa.value.0].Runs? ==> m.Some? && m.value.coro == s.workers[wa.value.0].coro)
  {
    hide Inv, Woken, W.WellShaped, W.Enabled, N.Enabled, NewFrame, Count;
  }

  /** A coroutine that leaves a worker's hands leaves that worker. */
  lemma MovedFromWorker(s: System, step: Step)
    requires Inv(s) && Enabled(s, step) && MoveOf(s, step).Some?
    ensures var from, wa := PlaceOf(s, MoveOf(s, step).value.coro), WorkerAfter(s, step);
      && (from.Taken? ==> wa.Some? && wa.value.0 == from.worker)
      && (from.Running? ==> wa.Some? && wa.value.0 == from.worker)
  {
    FoundWhereExpected(s, step);
    hide Inv, Woken, PlaceOf, W.WellShaped, W.Enabled, N.Enabled, NewFrame, Count;
  }

  lemma WorkerStep(s: System, step: Step, i: nat)
    requires Inv(s) && Enabled(s, step) && i < |Apply(s, step).workers|
    ensures WorkerOk(Apply(s, step), i)
  {
    var s' := Apply(s, step);
    WorkersAfter(s, step);
    assert i < |s.workers| && WorkerOk(s, i);
    hide Apply, Inv, Enabled, MoveOf, WorkerAfter, PlaceOf, Suspends, Count, Woken, W.WellShaped;
    WorkerMoves(s, step);
    if MoveOf(s, step).Some? { MovedFromWorker(s, step); }
    var worker := s'.workers[i];
    if worker.Holds? || worker.Runs? { StepMoves(s, step, worker.coro); }
  }

  lemma HolderStep(s: System, step: Step, c: nat)
    requires Inv(s) && Enabled(s, step)
    ensures HolderOk(Apply(s, step), c)
  {
    var s' := Apply(s, step);
    StepMoves(s, step, c);
    WorkersAfter(s, step);
    WorkerMoves(s, step);
    assert HolderOk(s, c);
    hide Apply, Inv, Enabled, MoveOf, WorkerAfter, PlaceOf, Suspends, Count;
  }

  lemma WorkersStep(s: System, step: Step)
    requires Inv(s) && Enabled(s, step)
    ensures WorkersOk(Apply(s, step))
  {
    var s' := Apply(s, step);
    forall i: nat | i < |s'.workers| ensures WorkerOk(s', i) { WorkerStep(s, step, i); }
    forall c: nat ensures HolderOk(s', c) { HolderStep(s, step, c); }
    hide Apply, Inv, Enabled, WorkerOk, HolderOk;
  }

  // ---------- the frames in the wheel ----------

  lemma LoopCounts(w: W.Wheel, f: W.Frame)
    requires W.WellShaped(w) && W.Enabled(w, W.LoopStep)
    ensures C.Committed(W.Loop(w).commits, f) == C.Committed(w.commits, f) + One(Woken(w, W.LoopStep) == Some(f))
  {
    W.LoopScans(w);
    hide W.Loop, W.Scanned, W.WellShaped, W.Enabled, C.Committed;
    if W.ScansNow(w) < 0 {
      W.LoopCommits(w);
      if W.CommitsNow(w) { C.CommittedOneMore(w.commits, W.Commit(w.ready[0], w.clock, w.pc.SweepDrain?), f); }
    }
  }

  lemma OtherCounts(w: W.Wheel, step: W.Step, f: W.Frame)
    requires W.WellShaped(w) && W.Enabled(w, step) && !step.LoopStep?
    ensures C.Committed(W.Apply(w, step).commits, f) == C.Committed(w.commits, f) + One(Woken(w, step) == Some(f))
  {
    hide C.Committed, W.Lock, W.WellShaped;
    match step
    case LockRegister(g) => assert W.Lock(w, g).commits == w.commits by { C.LockPlaces(w, g); }
    case CommitMissed(g) => C.CommittedOneMore(w.commits, W.Commit(g, w.clock, false), f);
    case _ =>
  }

  lemma BegunCounts(w: W.Wheel, step: W.Step, f: W.Frame)
    requires W.WellShaped(w) && W.Enabled(w, step)
    ensures W.Apply(w, step).begun[f] == w.begun[f] +
      One(step.BeginRegister? && f == NewFrame(w, step.coro, step.suspension, step.wake))
  {
    hide W.Lock, W.Loop;
    if step.LockRegister? {
      C.LockPlaces(w, step.f);
    } else if step.LoopStep? {
      W.LoopKeeps(w);
    }
    hide W.HasBucket;
  }

  lemma WheelCounts(w: W.Wheel, step: W.Step, f: W.Frame)
    requires W.WellShaped(w) && W.Enabled(w, step)
    ensures var w' := W.Apply(w, step);
      && C.Committed(w'.commits, f) == C.Committed(w.commits, f) + One(Woken(w, step) == Some(f))
      && w'.begun[f] == w.begun[f] +
           One(step.BeginRegister? && f == NewFrame(w, step.coro, step.suspension, step.wake))
  {
    BegunCounts(w, step, f);
    if step.LoopStep? { LoopCounts(w, f); } else { OtherCounts(w, step, f); }
    hide W.Loop, W.Lock, W.WellShaped, C.Committed;
  }

  /** Only the wheel wakes sleepers, and only Sleep makes one; likewise for remote calls. */
  predicate KindsFit(from: Place, to: Place, step: Step) {
    && (from.Asleep? ==> step.WheelStep?) && (to.Asleep? <==> step.Sleep?)
    && (from.Calling? ==> step.NetStep?) && (to.Calling? <==> step.Call?)
    && (Suspends(step) ==> from.Running?)
  }

  lemma MoveKindsFit(s: System, step: Step)
    requires Inv(s) && Enabled(s, step) && MoveOf(s, step).Some?
    ensures var m := MoveOf(s, step).value; KindsFit(PlaceOf(s, m.coro), m.to, step)
  {
    FoundWhereExpected(s, step);
    hide Inv, PlaceOf, Woken, W.WellShaped, W.Enabled, N.Enabled;
  }

  lemma FrameFacts(s: System, f: W.Frame)
    requires Inv(s)
    ensures FrameOk(s, f) && C.Conserved(s.wheel, f)
  {
    hide FrameOk, C.Conserved, WorkersOk, QueueOk, AllCountersOk, CountOk, WaitersOk, T.Inv;
  }

  lemma WaiterFacts(s: System, w: N.Waiter)
    requires Inv(s)
    ensures WaiterOk(s, w) && N.Conserved(s.net, w) && N.KeysOk(s.net)
  {
    hide WaiterOk, N.Conserved, WorkersOk, QueueOk, AllCountersOk, CountOk, FramesOk, N.KeysOk;
  }

  lemma SleepParts(s: System, i: nat, wake: nat)
    requires Enabled(s, Sleep(i, wake))
    ensures W.WellShaped(s.wheel) && i < |s.workers| && s.workers[i].Runs?
    ensures var c := s.workers[i].coro;
      var ws := W.BeginRegister(c, Count(s.suspends, c), wake);
      && WheelStepOf(s, Sleep(i, wake)) == Some(ws) && Woken(s.wheel, ws).None?
      && MoveOf(s, Sleep(i, wake)) == Some(Move(c, Asleep(NewFrame(s.wheel, c, Count(s.suspends, c), wake))))
  {
    hide Count, NewFrame;
  }

  lemma SleepFrame(s: System, i: nat, wake: nat, f: W.Frame)
    requires Inv(s) && Enabled(s, Sleep(i, wake))
    ensures FrameOk(Apply(s, Sleep(i, wake)), f)
  {
    hide Inv, Apply, Enabled, Count, PlaceOf, MoveOf, WheelStepOf, Woken;
    hide W.WellShaped, W.Apply, W.Enabled, C.Committed, C.Conserved;
    var step := Sleep(i, wake);
    FrameFacts(s, f);
    SleepParts(s, i, wake);
    MoveKindsFit(s, step);
    PartsAfter(s, step);
    StepMoves(s, step, f.coro);
    WheelCounts(s.wheel, WheelStepOf(s, step).value, f);
  }

  lemma WheelParts(s: System, ws: W.Step)
    requires Enabled(s, WheelStep(ws))
    ensures W.WellShaped(s.wheel) && WheelStepOf(s, WheelStep(ws)) == Some(ws) && !ws.BeginRegister?
    ensures var woken := Woken(s.wheel, ws);
      MoveOf(s, WheelStep(ws)) == if woken.Some? then Some(Move(woken.value.coro, Queued)) else None
  {
    hide Woken;
  }

  lemma WheelFrame(s: System, ws: W.Step, f: W.Frame)
    requires Inv(s) && Enabled(s, WheelStep(ws))
    ensures FrameOk(Apply(s, WheelStep(ws)), f)
  {
    hide Inv, Apply, Enabled, Count, PlaceOf, MoveOf, WheelStepOf, Woken;
    hide W.WellShaped, W.Apply, W.Enabled, C.Committed, C.Conserved;
    var step := WheelStep(ws);
    FrameFacts(s, f);
    WheelParts(s, ws);
    if MoveOf(s, step).Some? { FoundWhereExpected(s, step); }
    PartsAfter(s, step);
    StepMoves(s, step, f.coro);
    WheelCounts(s.wheel, ws, f);
  }

  /** Steps that are not the wheel's leave sleepers asleep and make none. */
  lemma SleepersKept(s: System, step: Step, c: nat)
    requires Inv(s) && Enabled(s, step) && !step.Sleep? && !step.WheelStep?
    ensures var p, p' := PlaceOf(s, c), PlaceOf(Apply(s, step), c); p' == p || (!p.Asleep? && !p'.Asleep?)
    ensures Count(Apply(s, step).suspends, c) >= Count(s.suspends, c)
  {
    hide Inv, Apply, Enabled, Count, PlaceOf, MoveOf, Suspends, Woken, W.WellShaped;
    StepMoves(s, step, c);
    if MoveOf(s, step).Some? { MoveKindsFit(s, step); }
  }

  lemma OtherFrame(s: System, step: Step, f: W.Frame)
    requires Inv(s) && Enabled(s, step) && !step.Sleep? && !step.WheelStep?
    ensures FrameOk(Apply(s, step), f)
  {
    assert WheelStepOf(s, step).None?;
    hide Inv, Apply, Enabled, Count, PlaceOf, WheelStepOf, Woken;
    hide W.WellShaped, C.Committed, C.Conserved;
    FrameFacts(s, f);
    WheelAfter(s, step);
    SleepersKept(s, step, f.coro);
  }

  lemma FramesStep(s: System, step: Step)
    requires Inv(s) && Enabled(s, step)
    ensures FramesOk(Apply(s, step))
  {
    var s' := Apply(s, step);
    PartsAfter(s, step);
    var ws := WheelStepOf(s, step);
    if ws.Some? { T.InvStep(s.wheel, ws.value); }
    forall f: W.Frame ensures C.Conserved(s'.wheel, f) && FrameOk(s', f) {
      assert C.Conserved(s.wheel, f);
      if ws.Some? { C.ConservedStep(s.wheel, ws.value, f); }
      match step
      case Sleep(i, wake) => SleepFrame(s, i, wake, f);
      case WheelStep(ws) => WheelFrame(s, ws, f);
      case _ => OtherFrame(s, step, f);
    }
    hide *;
  }

  // ---------- the waiters of remote calls ----------

  lemma NetCounts(n: N.Net, step: N.Step, w: N.Waiter)
    requires N.Enabled(n, step)
    ensures var n' := N.Apply(n, step);
      && n'.begun[w] == n.begun[w] + One(step.Insert? && step.waiter == w)
      && n'.committed[w] == n.committed[w] + One(step.CommitWaiter? && step.waiter == w)
      && n'.ignored[w] == n.ignored[w] + One(step.Insert? && step.waiter == w && w.coro in n.waiting)
  {
    hide N.RequestsTo, Begin, IsOver, Respond, Expire;
  }

  lemma CallParts(s: System, i: nat, endPoints: seq<EndPoint>, condition: FinishCondition)
    requires Enabled(s, Step.Call(i, endPoints, condition))
    ensures i < |s.workers| && s.workers[i].Runs?
    ensures var step, c := Step.Call(i, endPoints, condition), s.workers[i].coro;
      && NetStepOf(s, step) == Some(N.Insert(N.Waiter(c, Count(s.suspends, c)), endPoints, condition))
      && MoveOf(s, step) == Some(Move(c, Calling))
  {
    hide Count;
  }

  lemma CallWaiter(s: System, i: nat, endPoints: seq<EndPoint>, condition: FinishCondition, w: N.Waiter)
    requires Inv(s) && Enabled(s, Step.Call(i, endPoints, condition))
    ensures WaiterOk(Apply(s, Step.Call(i, endPoints, condition)), w)
  {
    hide Inv, Apply, Enabled, Count, PlaceOf, MoveOf, NetStepOf, Woken, W.WellShaped, N.Apply, N.Conserved, N.KeysOk;
    var step := Step.Call(i, endPoints, condition);
    WaiterFacts(s, w);
    CallParts(s, i, endPoints, condition);
    NoEntryWhileRunning(s, i);
    MoveKindsFit(s, step);
    PartsAfter(s, step);
    StepMoves(s, step, w.coro);
    NetCounts(s.net, NetStepOf(s, step).value, w);
  }

  /** A coroutine that runs has no entry in the table of remote calls, so that its next insertion
      is not ignored. */
  lemma NoEntryWhileRunning(s: System, i: nat)
    requires Inv(s) && i < |s.workers| && s.workers[i].Runs?
    ensures s.workers[i].coro !in s.net.waiting
  {
    assert WorkerOk(s, i);
    hide Inv, PlaceOf, Count;
    var c := s.workers[i].coro;
    if c in s.net.waiting { WaiterFacts(s, s.net.waiting[c].waiter); }
  }

  lemma NetParts(s: System, ns: N.Step)
    requires Enabled(s, NetStep(ns))
    ensures NetStepOf(s, NetStep(ns)) == Some(ns) && !ns.Insert? && !Suspends(NetStep(ns))
    ensures MoveOf(s, NetStep(ns)) == if ns.CommitWaiter? then Some(Move(ns.waiter.coro, Queued)) else None
    ensures ns.CommitWaiter? ==> s.net.handoff[ns.waiter] > 0
  {
  }

  lemma NetWaiter(s: System, ns: N.Step, w: N.Waiter)
    requires Inv(s) && Enabled(s, NetStep(ns))
    ensures WaiterOk(Apply(s, NetStep(ns)), w)
  {
    hide Inv, Apply, Enabled, Count, PlaceOf, MoveOf, NetStepOf, Woken, W.WellShaped, N.Apply, N.Holds, N.KeysOk, Suspends;
    var step := NetStep(ns);
    WaiterFacts(s, w);
    NetParts(s, ns);
    if ns.CommitWaiter? { WaiterFacts(s, ns.waiter); }
    PartsAfter(s, step);
    StepMoves(s, step, w.coro);
    NetCounts(s.net, ns, w);
  }

  /** Steps that are not the table's leave callers calling and make none. */
  lemma CallersKept(s: System, step: Step, c: nat)
    requires Inv(s) && Enabled(s, step) && !step.Call? && !step.NetStep?
    ensures PlaceOf(Apply(s, step), c) == Calling <==> PlaceOf(s, c) == Calling
    ensures PlaceOf(s, c) == Calling ==> Count(Apply(s, step).suspends, c) == Count(s.suspends, c)
    ensures Count(Apply(s, step).suspends, c) >= Count(s.suspends, c)
  {
    hide Inv, Apply, Enabled, Count, PlaceOf, MoveOf, Suspends, Woken, W.WellShaped;
    StepMoves(s, step, c);
    if MoveOf(s, step).Some? { MoveKindsFit(s, step); }
  }

  lemma OtherWaiter(s: System, step: Step, w: N.Waiter)
    requires Inv(s) && Enabled(s, step) && !step.Call? && !step.NetStep?
    ensures WaiterOk(Apply(s, step), w)
  {
    assert NetStepOf(s, step).None?;
    hide Inv, Apply, Enabled, Count, PlaceOf, NetStepOf, Woken;
    hide W.WellShaped, N.Conserved, N.KeysOk;
    WaiterFacts(s, w);
    NetAfter(s, step);
    CallersKept(s, step, w.coro);
  }

  lemma WaitersStep(s: System, step: Step)
    requires Inv(s) && Enabled(s, step)
    ensures WaitersOk(Apply(s, step))
  {
    var s' := Apply(s, step);
    PartsAfter(s, step);
    var ns := NetStepOf(s, step);
    if ns.Some? { N.KeysStep(s.net, ns.value); }
    forall w: N.Waiter ensures N.Conserved(s'.net, w) && WaiterOk(s', w) {
      assert N.Conserved(s.net, w);
      if ns.Some? { N.ConservedStep(s.net, ns.value, w); }
      match step
      case Call(i, endPoints, condition) => CallWaiter(s, i, endPoints, condition, w);
      case NetStep(ns) => NetWaiter(s, ns, w);
      case _ => OtherWaiter(s, step, w);
    }
    hide *;
  }

  // ---------- runs ----------

  lemma InvStep(s: System, step: Step)
    requires Inv(s) && Enabled(s, step)
    ensures Inv(Apply(s, step))
  {
    var s' := Apply(s, step);
    forall c: nat ensures CountersOk(s', c) { CountersStep(s, step, c); }
    assert AllCountersOk(s');
    forall c: nat ensures multiset(s'.queue)[c] == if PlaceOf(s', c) == Queued then 1 else 0 { QueueStep(s, step, c); }
    assert QueueOk(s');
    WorkersStep(s, step);
    CountStep(s, step);
    FramesStep(s, step);
    WaitersStep(s, step);
    hide Apply, Enabled, QueueOk, WorkersOk, AllCountersOk, CountOk, FramesOk, WaitersOk;
  }

  lemma {:induction false} InvRun(s: System, steps: seq<Step>, s': System)
    requires Inv(s) && Leads(s, steps, s')
    ensures Inv(s')
    decreases |steps|
  {
    hide Inv, Apply, Enabled;
    if steps != [] {
      InvStep(s, steps[0]);
      InvRun(Apply(s, steps[0]), steps[1..], s');
    }
  }
}
