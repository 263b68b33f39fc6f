/** Every run of the framework: single ownership, no double wake-up, and what the parts guarantee
    inside the whole. */
module Ownership {
  import opened Framework
  import opened FrameworkInvariant
  import opened RpcCall
  import W = TimeWheel
  import T = WheelTiming
  import C = WheelConservation
  import N = NetModel

  // ---------- the guarantees ----------

  /** In which of the five kinds of places coroutine c is, and how often: in the queue, with a
      worker, in the wheel as frame f, in the table or between table and queue as waiter w. */
  function InQueue(s: System, c: nat): nat {
    multiset(s.queue)[c]
  }

  predicate WithWorker(s: System, i: nat, c: nat) {
    WorkerIs(s, i, Holds(c)) || WorkerIs(s, i, Runs(c))
  }

  function InWheel(w: W.Wheel, f: W.Frame): nat {
    w.registering[f] + w.missed[f] + C.LostCount(w, f) + C.Waiting(w.buckets, f) + multiset(w.ready)[f]
  }

  function InTable(n: N.Net, w: N.Waiter): nat {
    (if N.Holds(n, w) then 1 else 0) + n.handoff[w]
  }

  /** Single ownership: whatever the interleaving and the number of workers, a coroutine is in the
      one place recorded for it, once, and nowhere else. */
  lemma SingleOwnership(s0: System, steps: seq<Step>, s: System, c: nat, i: nat, f: W.Frame, w: N.Waiter)
    requires Init(s0) && Leads(s0, steps, s) && f.coro == w.coro == c
    ensures InQueue(s, c) == if PlaceOf(s, c) == Queued then 1 else 0
    ensures WithWorker(s, i, c) <==> PlaceOf(s, c) == Taken(i) || PlaceOf(s, c) == Running(i)
    ensures InWheel(s.wheel, f) == if PlaceOf(s, c) == Asleep(f) then 1 else 0
    ensures InTable(s.net, w) ==
            if PlaceOf(s, c) == Calling && w.suspension + 1 == Count(s.suspends, c) then 1 else 0
  {
    InvInit(s0);
    InvRun(s0, steps, s);
    hide Leads, Inv;
    OwnedByQueueOrWorker(s, c, i);
    OwnedByWheel(s, f);
    OwnedByTable(s, w);
    hide *;
  }

  lemma OwnedByQueueOrWorker(s: System, c: nat, i: nat)
    requires Inv(s)
    ensures InQueue(s, c) == if PlaceOf(s, c) == Queued then 1 else 0
    ensures WithWorker(s, i, c) <==> PlaceOf(s, c) == Taken(i) || PlaceOf(s, c) == Running(i)
  {
    assert HolderOk(s, c);
    assert i < |s.workers| ==> WorkerOk(s, i);
    assert multiset(s.queue)[c] == if PlaceOf(s, c) == Queued then 1 else 0;
    hide Inv, PlaceOf;
  }

  lemma OwnedByWheel(s: System, f: W.Frame)
    requires Inv(s)
    ensures InWheel(s.wheel, f) == if PlaceOf(s, f.coro) == Asleep(f) then 1 else 0
  {
    assert FrameOk(s, f) && C.Conserved(s.wheel, f);
    hide Inv, PlaceOf, C.Committed, C.Waiting, Count;
  }

  lemma OwnedByTable(s: System, w: N.Waiter)
    requires Inv(s)
    ensures InTable(s.net, w) ==
            if PlaceOf(s, w.coro) == Calling && w.suspension + 1 == Count(s.suspends, w.coro) then 1 else 0
  {
    assert WaiterOk(s, w) && N.Conserved(s.net, w);
    hide Inv, PlaceOf, Count;
  }

  /** No suspension is ended twice: a coroutine is put into the queue at most once per suspension
      (and once at the start), and is resumed only after that. */
  lemma NeverResumedTwice(s0: System, steps: seq<Step>, s: System, c: nat, f: W.Frame, w: N.Waiter)
    requires Init(s0) && Leads(s0, steps, s)
    ensures Count(s.suspends, c) <= Count(s.resumes, c) <= Count(s.wakes, c) <= Count(s.suspends, c) + 1
    ensures Ready(PlaceOf(s, c)) <==> Count(s.wakes, c) == Count(s.suspends, c) + 1
    ensures C.Committed(s.wheel.commits, f) <= 1 && s.net.committed[w] <= 1
  {
    InvInit(s0);
    InvRun(s0, steps, s);
    assert CountersOk(s, c) && FrameOk(s, f) && WaiterOk(s, w);
    hide Leads, Inv, C.Committed, PlaceOf, Count;
  }

  /** The insertion into the table of remote calls never finds an entry. */
  lemma InsertNeverIgnored(s0: System, steps: seq<Step>, s: System, i: nat, w: N.Waiter)
    requires Init(s0) && Leads(s0, steps, s)
    ensures s.net.ignored[w] == 0
    ensures i < |s.workers| && s.workers[i].Runs? ==> s.workers[i].coro !in s.net.waiting
  {
    InvInit(s0);
    InvRun(s0, steps, s);
    assert WaiterOk(s, w);
    if i < |s.workers| && s.workers[i].Runs? { NoEntryWhileRunning(s, i); }
    hide Leads, Inv;
  }

  /** The count of running coroutines is the number of admitted ones that are not done, so that a
      worker ends only when there are none. */
  lemma WorkersEndLast(s0: System, steps: seq<Step>, s: System, i: nat, c: nat)
    requires Init(s0) && Leads(s0, steps, s)
    ensures s.runningCnt == |Live(s.places)|
    ensures Enabled(s, Exit(i)) ==> PlaceOf(s, c) == Unknown || PlaceOf(s, c) == Checked || PlaceOf(s, c) == Done
  {
    InvInit(s0);
    InvRun(s0, steps, s);
    assert CountOk(s);
    hide Leads, Inv, Init, PlaceOf;
    if Enabled(s, Exit(i)) {
      ExitNeedsZero(s, i);
      assert Live(s.places) == {};
      LiveOrNot(s, c);
    }
    hide Enabled, Live;
  }

  lemma ExitNeedsZero(s: System, i: nat)
    requires Enabled(s, Exit(i))
    ensures s.runningCnt == 0 && s.stopFlag
  {
  }

  lemma LiveOrNot(s: System, c: nat)
    requires Live(s.places) == {}
    ensures PlaceOf(s, c) == Unknown || PlaceOf(s, c) == Checked || PlaceOf(s, c) == Done
  {
    assert c !in Live(s.places);
  }

  /** The guarantees of the wheel hold inside the system: a coroutine is not asleep any more once
      the visit its frame is due at is over, unless the frame has not reached its bucket's lock or
      the commit of a late arrival, or is lost. */
  lemma SleeperWokenWhenDue(s0: System, steps: seq<Step>, s: System, f: W.Frame)
    requires Init(s0) && Leads(s0, steps, s) && W.HasBucket(s.wheel, f) && 2 <= T.Due(s.wheel, f) <= s.wheel.visits
    requires s.wheel.pc != W.Drain && !s.wheel.pc.SweepDrain?
    requires f !in s.wheel.registering && f !in s.wheel.missed && s.wheel.lost != W.Lost(f)
    ensures PlaceOf(s, f.coro) != Asleep(f)
  {
    InvInit(s0);
    InvRun(s0, steps, s);
    WheelPart(s0, steps, s);
    FrameFacts(s, f);
    hide Leads, Inv, T.Due, W.HasBucket, W.WellShaped, C.Committed, PlaceOf, W.Leads, W.Init;
    var wheelSteps :| W.Leads(s0.wheel, wheelSteps, s.wheel);
    C.CommittedWhenDue(s0.wheel, wheelSteps, s.wheel, f);
  }

  /** No sleeper is woken early by the timer, except by the forced scans. */
  lemma SleeperNotWokenEarly(s0: System, steps: seq<Step>, s: System, i: nat)
    requires Init(s0) && Leads(s0, steps, s) && i < |s.wheel.commits| && !s.wheel.commits[i].swept
    ensures s.wheel.commits[i].frame.wake <= s.wheel.commits[i].at <= s.wheel.clock
  {
    WheelPart(s0, steps, s);
    hide Leads, W.WellShaped, W.Leads, W.Init;
    var wheelSteps :| W.Leads(s0.wheel, wheelSteps, s.wheel);
    T.NeverEarly(s0.wheel, wheelSteps, s.wheel, i);
  }

  /** No remote call waits for ever: the own timer of a waiting caller has not fired, and when no
      timer is left, a caller that is still calling is on its way from the table to the queue. */
  lemma NoCallerWaitsForever(s0: System, steps: seq<Step>, s: System, c: nat)
    requires Init(s0) && Leads(s0, steps, s)
    ensures c in s.net.waiting ==> s.net.waiting[c].waiter in s.net.timers
    ensures s.net.timers == multiset{} && PlaceOf(s, c) == Calling && Count(s.suspends, c) > 0 ==>
            s.net.handoff[N.Waiter(c, Count(s.suspends, c) - 1)] == 1
  {
    NetInvHolds(s0, steps, s);
    assert N.TimersCover(s.net);
    hide Init, Leads, N.Inv, PlaceOf, Count;
    if s.net.timers == multiset{} && PlaceOf(s, c) == Calling && Count(s.suspends, c) > 0 {
      var w := N.Waiter(c, Count(s.suspends, c) - 1);
      SingleOwnership(s0, steps, s, c, 0, W.Frame(c, 0, 0, 0), w);
      assert c !in s.net.waiting;
    }
  }

  lemma NetInvHolds(s0: System, steps: seq<Step>, s: System)
    requires Init(s0) && Leads(s0, steps, s)
    ensures N.Inv(s.net)
  {
    NetPart(s0, steps, s);
    hide Leads, N.Inv, N.Leads, W.Init;
    var netSteps :| N.Leads(s0.net, netSteps, s.net);
    N.InvFromInit(s0.net, netSteps, s.net, N.Waiter(0, 0));
  }

  // ---------- what a coroutine asked for ----------

  /** A coroutine that sleeps is in the wheel until the time it named, and a remote call is in the
      table with its own endpoints and condition, no result and a timer. */
  lemma SleepsAsAsked(s: System, i: nat, wake: nat)
    requires Enabled(s, Sleep(i, wake))
    ensures var c, s' := s.workers[i].coro, Apply(s, Sleep(i, wake));
      && PlaceOf(s', c).Asleep? && s'.workers[i] == Idle
      && var f := PlaceOf(s', c).frame;
         && f.coro == c && f.wake == wake && f.suspension == Count(s.suspends, c)
         && s'.wheel.begun == s.wheel.begun + multiset{f}
         && if W.Start(s.wheel) >= wake then f in s'.wheel.missed else f in s'.wheel.registering
  {
    hide W.WellShaped;
  }

  lemma CallsAsAsked(s0: System, steps: seq<Step>, s: System, i: nat, endPoints: seq<EndPoint>, condition: FinishCondition)
    requires Init(s0) && Leads(s0, steps, s) && Enabled(s, Step.Call(i, endPoints, condition))
    ensures var c, s' := s.workers[i].coro, Apply(s, Step.Call(i, endPoints, condition));
      && PlaceOf(s', c) == Calling && s'.workers[i] == Idle && c in s'.net.waiting
      && var info := s'.net.waiting[c];
         && info.waiter == N.Waiter(c, Count(s.suspends, c)) && info.waiter in s'.net.timers
         && info.endPoints == endPoints && info.condition == condition && info.call == Begin(endPoints, condition)
  {
    InsertNeverIgnored(s0, steps, s, i, N.Waiter(0, 0));
    hide Leads, Init, N.RequestsTo, Count, Begin;
    var c := s.workers[i].coro;
    assert c !in s.net.waiting;
    N.InsertEffect(s.net, N.Waiter(c, Count(s.suspends, c)), endPoints, condition);
    hide N.DoInsert;
  }

  // ---------- first queued, first taken ----------

  function Takes(steps: seq<Step>): nat {
    if steps == [] then 0 else (if steps[0].Take? then 1 else 0) + Takes(steps[1..])
  }

  lemma PlaceInQueueAfter(s: System, step: Step, k: nat)
    requires Enabled(s, step) && k < |s.queue| && (step.Take? ==> k > 0)
    ensures var k' := if step.Take? then k - 1 else k;
      k' < |Apply(s, step).queue| && Apply(s, step).queue[k'] == s.queue[k]
  {
    QueueAfter(s, step);
    hide Apply, Enabled, MoveOf;
  }

  /** A coroutine that stands at place k of the queue is at the front after k takes, whatever else
      happens meanwhile. */
  lemma {:induction false} FirstQueuedFirstTaken(s: System, steps: seq<Step>, s': System, k: nat)
    requires Leads(s, steps, s') && k < |s.queue| && Takes(steps) <= k
    ensures k - Takes(steps) < |s'.queue| && s'.queue[k - Takes(steps)] == s.queue[k]
    decreases |steps|
  {
    hide Apply, Enabled;
    if steps != [] {
      var step := steps[0];
      PlaceInQueueAfter(s, step, k);
      FirstQueuedFirstTaken(Apply(s, step), steps[1..], s', if step.Take? then k - 1 else k);
    }
  }
}
