/** The thread pool of the asynchronous logger (spdlog/details/thread_pool-inl.h): producers
    post, workers consume, and the destructor posts one terminate message per worker under the
    block policy and then joins the workers in order. */
module ThreadPool {
  import opened BoundedSequence
  import opened MpmcQueue

  datatype Msg = Log(id: nat) | Flush(id: nat) | Terminate

  datatype OverflowPolicy = Block | OverrunOldest | DiscardNew

  datatype Worker =
    | Waiting              // in dequeue
    | Busy(msg: Msg)       // in the sink
    | Exited               // left the loop after a terminate message

  /** `open` until the destructor starts. */
  datatype Pool = Pool(
    q: State<Msg>, capacity: int,
    open: bool, toPost: nat, joined: nat,
    workers: seq<Worker>, processed: seq<Msg>)

  function PolicyOp(policy: OverflowPolicy, m: Msg): Op<Msg> {
    match policy
    case Block => Op.Enqueue(m)
    case OverrunOldest => Op.EnqueueNowait(m)
    case DiscardNew => Op.EnqueueIfHaveRoom(m)
  }

  // ---------- the methods ----------

  /** What a post leaves behind. With the block policy the message is appended, the room for it
      having been waited for; the overrun policy keeps the newest messages and counts the oldest one
      if it had to go; otherwise the new message is counted instead, if there is no room. A disabled
      queue swallows the message. */
  ghost predicate Posted(s: State<Msg>, capacity: int, policy: OverflowPolicy, m: Msg, s': State<Msg>) {
    var wanted := s.queue + [m];
    if capacity == DISABLED then s' == s
    else if |wanted| <= capacity then s' == s.(queue := wanted)
    else
      && 0 <= capacity
      && match policy
         case Block => false
         case OverrunOldest => s' == s.(queue := wanted[|wanted| - capacity..], overrun := s.overrun + 1)
         case DiscardNew => s' == s.(discarded := s.discarded + 1)
  }

  method PostAsyncMsg(q: MpmcBlockingQueue<Msg>, m: Msg, policy: OverflowPolicy)
    requires q.Valid() && (policy == Block ==> |q.Abstract().queue| != q.q.Capacity())
    modifies q, q.q, q.q.v
    ensures q.Valid() && q.q.v == old(q.q.v) && q.q.Capacity() == old(q.q.Capacity())
    ensures Posted(old(q.Abstract()), q.q.Capacity(), policy, m, q.Abstract())
    ensures q.Abstract() == if policy == DiscardNew then EnqueuedOrDiscarded(old(q.Abstract()), q.q.Capacity(), m)
            else MpmcQueue.Apply(old(q.Abstract()), q.q.Capacity(), PolicyOp(policy, m))
  {
    match policy {
      case Block => q.EnqueueWhenRoom(m);
      case OverrunOldest => q.EnqueueWithoutWaiting(m);
      case DiscardNew => q.EnqueueOrDiscard(m);
    }
  }

  /** One round of a worker whose wait in `dequeue` is over. */
  method ProcessNextMsg(q: MpmcBlockingQueue<Msg>) returns (active: bool, m: Msg)
    requires q.Valid() && q.Abstract().queue != []
    modifies q.q
    ensures q.Valid() && q.q.v == old(q.q.v) && q.q.Capacity() == old(q.q.Capacity())
    ensures old(q.Abstract().queue) == [m] + q.Abstract().queue
    ensures active <==> m != Terminate
  {
    var popped;
    popped, m := q.DequeueFor();
    match m {
      case Log(_) => return true, m;
      case Flush(_) => return true, m;
      case Terminate => return false, m;
    }
  }

  /** A worker that runs alone processes everything in front of the first terminate message, in
      order, and takes exactly that one terminate message. */
  method WorkerLoop(q: MpmcBlockingQueue<Msg>) returns (done: seq<Msg>)
    requires q.Valid() && Terminate in q.Abstract().queue
    modifies q.q
    ensures q.Valid() && Terminate !in done
    ensures old(q.Abstract().queue) == done + [Terminate] + q.Abstract().queue
  {
    hide *;
    done := [];
    var active, m := ProcessNextMsg(q);
    while active
      invariant q.Valid() && q.q.v == old(q.q.v) && q.q.Capacity() == old(q.q.Capacity())
      invariant old(q.Abstract().queue) == done + [m] + q.Abstract().queue
      invariant active <==> m != Terminate
      invariant Terminate !in done && Terminate in done + [m] + q.Abstract().queue
      decreases |q.Abstract().queue|, active
    {
      ghost var left := q.Abstract().queue;
      TerminateLeft(done, m, left);
      done := done + [m];
      active, m := ProcessNextMsg(q);
      assert done + left == done + [m] + q.Abstract().queue;
    }
  }

  lemma TerminateLeft(done: seq<Msg>, m: Msg, left: seq<Msg>)
    requires Terminate in done + [m] + left && Terminate !in done && m != Terminate
    ensures Terminate in left && left != [] && Terminate !in done + [m]
  {
  }

  // ---------- the pool as a step system ----------

  datatype Step =
    | Post(policy: OverflowPolicy, msg: Msg)   // by any producer
    | CountOne                                 // by the producer of a discarded message
    | Destroy                                  // the destructor starts
    | PostTerminate                            // by the destructor, policy block
    | Take(w: nat)                             // worker w completes a dequeue
    | Finish(w: nat)                           // worker w returns from the sink
    | Join                                     // the destructor joins the next worker

  /** The constructor throws for any other number of threads. */
  predicate ValidThreadCount(n: nat) {
    n != 0 && n <= 1000
  }

  ghost predicate Init(p: Pool) {
    && p.q == NewQueue() && p.capacity >= DISABLED
    && p.open && p.toPost == p.joined == 0 && p.processed == []
    && ValidThreadCount(|p.workers|)
    && forall i :: 0 <= i < |p.workers| ==> p.workers[i] == Waiting
  }

  predicate Enabled(p: Pool, step: Step) {
    match step
    case Post(policy, m) => p.open && m != Terminate && MpmcQueue.Enabled(p.q, p.capacity, PolicyOp(policy, m))
    case CountOne => p.q.uncounted > 0
    case Destroy => p.open
    case PostTerminate => !p.open && p.toPost > 0 && MpmcQueue.Enabled(p.q, p.capacity, PolicyOp(Block, Terminate))
    case Take(w) => w < |p.workers| && p.workers[w] == Waiting && p.q.queue != []
    case Finish(w) => w < |p.workers| && p.workers[w].Busy?
    case Join => !p.open && p.toPost == 0 && p.joined < |p.workers| && p.workers[p.joined] == Exited
  }

  function Apply(p: Pool, step: Step): (p': Pool)
    requires Fits(p.q, p.capacity) && Enabled(p, step)
    ensures Fits(p'.q, p.capacity)
  {
    match step
    case Post(policy, m) => p.(q := MpmcQueue.Apply(p.q, p.capacity, PolicyOp(policy, m)))
    case CountOne => p.(q := MpmcQueue.Apply(p.q, p.capacity, CountDiscard))
    case Destroy => p.(open := false, toPost := |p.workers|)
    case PostTerminate =>
      p.(q := MpmcQueue.Apply(p.q, p.capacity, PolicyOp(Block, Terminate)), toPost := p.toPost - 1)
    case Take(w) =>
      var m := p.q.queue[0];
      p.(q := MpmcQueue.Apply(p.q, p.capacity, Dequeue),
         workers := p.workers[w := if m == Terminate then Exited else Busy(m)])
    case Finish(w) => p.(workers := p.workers[w := Waiting], processed := p.processed + [p.workers[w].msg])
    case Join => p.(joined := p.joined + 1)
  }

  predicate Destroyed(p: Pool) {
    !p.open && p.toPost == 0 && p.joined == |p.workers|
  }

  /** p' is where the steps lead from p. */
  ghost predicate Leads(p: Pool, steps: seq<Step>, p': Pool)
    requires Fits(p.q, p.capacity)
    decreases steps
  {
    if steps == [] then p' == p
    else Enabled(p, steps[0]) && Leads(Apply(p, steps[0]), steps[1..], p')
  }

  // ---------- what every step keeps ----------

  ghost function ExitedSet(workers: seq<Worker>): set<nat> {
    set i: nat | i < |workers| && workers[i] == Exited
  }

  ghost function InSinks(workers: seq<Worker>): multiset<Msg> {
    if workers == [] then multiset{}
    else InSink(workers[0]) + InSinks(workers[1..])
  }

  ghost function InSink(worker: Worker): multiset<Msg> {
    if worker.Busy? then multiset{worker.msg} else multiset{}
  }

  /** The queue is messages followed by terminates. */
  ghost predicate TerminatesLast(queue: seq<Msg>) {
    forall i, j :: 0 <= i < j < |queue| && queue[i] == Terminate ==> queue[j] == Terminate
  }

  ghost predicate Inv(p: Pool) {
    && Fits(p.q, p.capacity) && p.capacity >= DISABLED
    && ValidThreadCount(|p.workers|)
    && (forall i :: 0 <= i < |p.workers| && p.workers[i].Busy? ==> p.workers[i].msg != Terminate)
    && TerminatesLast(p.q.queue)
    && (ExitedSet(p.workers) != {} ==> p.q.queue == [] || p.q.queue[0] == Terminate)
    && p.joined <= |p.workers| && (forall i :: 0 <= i < p.joined ==> p.workers[i] == Exited)
    && (p.open ==> p.toPost == p.joined == 0 && Terminate !in p.q.queue && ExitedSet(p.workers) == {})
    && (!p.open && p.capacity >= 0 ==>
          multiset(p.q.queue)[Terminate] + p.toPost + |ExitedSet(p.workers)| == |p.workers|)
    && (p.capacity == 0 && !p.open ==> p.toPost == |p.workers|)
    && (p.capacity == DISABLED ==> ExitedSet(p.workers) == {})
  }

  lemma InitInv(p: Pool)
    requires Init(p)
    ensures Inv(p)
  {
    assert ExitedSet(p.workers) == {};
  }

  lemma ExitedAfter(workers: seq<Worker>, w: nat, x: Worker)
    requires w < |workers| && workers[w] != Exited
    ensures ExitedSet(workers[w := x]) == ExitedSet(workers) + if x == Exited then {w} else {}
    ensures |ExitedSet(workers[w := x])| == |ExitedSet(workers)| + if x == Exited then 1 else 0
  {
    assert ExitedSet(workers[w := x]) == ExitedSet(workers) + if x == Exited then {w} else {};
  }

  lemma FirstLeaves(queue: seq<Msg>)
    requires queue != []
    ensures multiset(queue) == multiset{queue[0]} + multiset(queue[1..])
  {
    assert queue == [queue[0]] + queue[1..];
  }

  lemma StepInv(p: Pool, step: Step)
    requires Inv(p) && Enabled(p, step)
    ensures Inv(Apply(p, step))
  {
    match step
    case Post(policy, m) => PostInv(p, policy, m);
    case PostTerminate => PostTerminateInv(p);
    case Take(w) => TakeInv(p, w);
    case Finish(w) => ExitedAfter(p.workers, w, Waiting);
    case _ =>
  }

  lemma PostInv(p: Pool, policy: OverflowPolicy, m: Msg)
    requires Inv(p) && Enabled(p, Post(policy, m))
    ensures Inv(Apply(p, Post(policy, m)))
  {
    var queue := Apply(p, Post(policy, m)).q.queue;
    assert forall x :: x in queue ==> x in p.q.queue || x == m;
  }

  lemma PostTerminateInv(p: Pool)
    requires Inv(p) && Enabled(p, PostTerminate)
    ensures Inv(Apply(p, PostTerminate))
  {
    if p.capacity != DISABLED {
      assert Apply(p, PostTerminate).q.queue == p.q.queue + [Terminate];
    }
  }

  lemma TakeInv(p: Pool, w: nat)
    requires Inv(p) && Enabled(p, Take(w))
    ensures Inv(Apply(p, Take(w)))
  {
    var queue := p.q.queue;
    var p' := Apply(p, Take(w));
    FirstLeaves(queue);
    ExitedAfter(p.workers, w, p'.workers[w]);
    assert queue[0] in queue;
    assert forall i :: 0 <= i < |queue[1..]| ==> queue[1..][i] == queue[i + 1];
  }

  lemma {:induction false} RunInv(p: Pool, steps: seq<Step>, p': Pool)
    requires Inv(p) && Leads(p, steps, p')
    ensures Inv(p') && p'.capacity == p.capacity
    decreases steps
  {
    if steps != [] {
      StepInv(p, steps[0]);
      RunInv(Apply(p, steps[0]), steps[1..], p');
    }
  }

  // ---------- deadlock freedom ----------

  lemma {:induction false} AllBelow(s: set<nat>, n: nat)
    requires forall i: nat :: i < n <==> i in s
    ensures |s| == n
  {
    if n > 0 {
      AllBelow(s - {n - 1}, n - 1);
    }
  }

  lemma SomeoneStays(workers: seq<Worker>) returns (w: nat)
    requires |ExitedSet(workers)| < |workers|
    ensures w < |workers| && workers[w] != Exited
  {
    if forall i: nat :: i < |workers| ==> workers[i] == Exited {
      AllBelow(ExitedSet(workers), |workers|);
    }
    w :| w < |workers| && workers[w] != Exited;
  }

  /** Some thread can always take a step until the destructor is done. */
  lemma NeverStuck(p: Pool) returns (step: Step)
    requires Inv(p) && !p.open && p.capacity >= 1 && !Destroyed(p)
    ensures Enabled(p, step)
  {
    var w: nat;
    if p.toPost > 0 {
      step := PostTerminate;
      if Enabled(p, step) { return; }
      w := SomeoneStays(p.workers);
    } else if p.workers[p.joined] == Exited {
      return Join;
    } else {
      w := p.joined;
      if |ExitedSet(p.workers)| == |p.workers| {
        AllExited(p.workers, w);
      }
      assert Terminate in p.q.queue;
    }
    step := if p.workers[w].Busy? then Finish(w) else Take(w);
  }

  lemma AllExited(workers: seq<Worker>, w: nat)
    requires |ExitedSet(workers)| == |workers| && w < |workers|
    ensures workers[w] == Exited
  {
    if workers[w] != Exited {
      ExitedAfter(workers, w, Exited);
      ExitedBound(workers[w := Exited]);
    }
  }

  lemma {:induction false} ExitedBound(workers: seq<Worker>)
    ensures |ExitedSet(workers)| <= |workers|
  {
    if workers != [] {
      var n := |workers| - 1;
      ExitedBound(workers[..n]);
      assert ExitedSet(workers) == ExitedSet(workers[..n]) + if workers[n] == Exited then {n} else {};
    }
  }

  // ---------- termination ----------

  ghost function Measure(p: Pool): int {
    3 * p.toPost + 2 * |p.q.queue| + |InSinks(p.workers)| + (|p.workers| - p.joined) + p.q.uncounted
  }

  lemma {:induction false} SinksAfter(workers: seq<Worker>, w: nat, x: Worker)
    requires w < |workers|
    ensures InSinks(workers[w := x]) + InSink(workers[w]) == InSinks(workers) + InSink(x)
    ensures |InSinks(workers[w := x])| + |InSink(workers[w])| == |InSinks(workers)| + |InSink(x)|
  {
    hide InSink;
    var after := workers[w := x];
    if w > 0 {
      SinksAfter(workers[1..], w - 1, x);
      assert after[1..] == workers[1..][w - 1 := x];
      MoveOne(InSink(workers[0]), InSinks(after[1..]), InSink(workers[w]), InSinks(workers[1..]), InSink(x));
    } else {
      assert after[1..] == workers[1..];
      MoveOne(InSinks(workers[1..]), InSink(x), InSink(workers[0]), InSink(workers[0]), InSink(x));
    }
  }

  lemma MoveOne(a: multiset<Msg>, b: multiset<Msg>, c: multiset<Msg>, d: multiset<Msg>, e: multiset<Msg>)
    requires b + c == d + e
    ensures a + b + c == a + d + e && b + a + c == d + a + e
    ensures |a + b| + |c| == |a + d| + |e| && |b + a| + |c| == |d + a| + |e|
  {
    assert |b + c| == |d + e|;
    assert a + b + c == a + (b + c) && a + d + e == a + (d + e);
    assert b + a + c == a + (b + c) && d + a + e == a + (d + e);
  }

  lemma StepDecreases(p: Pool, step: Step)
    requires Inv(p) && !p.open && Enabled(p, step)
    ensures 0 <= Measure(Apply(p, step)) < Measure(p)
  {
    assert p.joined <= |p.workers|;
    hide Inv, InSinks;
    match step
    case Take(w) => TakeDecreases(p, w);
    case Finish(w) => FinishDecreases(p, w);
    case PostTerminate => PostDecreases(p);
    case _ => hide MpmcQueue.Enabled;
  }

  lemma TakeDecreases(p: Pool, w: nat)
    requires Fits(p.q, p.capacity) && p.joined <= |p.workers| && Enabled(p, Take(w))
    ensures 0 <= Measure(Apply(p, Take(w))) < Measure(p)
  {
    SinksAfter(p.workers, w, Apply(p, Take(w)).workers[w]);
    hide InSinks;
  }

  lemma FinishDecreases(p: Pool, w: nat)
    requires Fits(p.q, p.capacity) && p.joined <= |p.workers| && Enabled(p, Finish(w))
    ensures 0 <= Measure(Apply(p, Finish(w))) < Measure(p)
  {
    SinksAfter(p.workers, w, Waiting);
    hide InSinks;
  }

  lemma PostDecreases(p: Pool)
    requires Fits(p.q, p.capacity) && p.joined <= |p.workers| && Enabled(p, PostTerminate)
    ensures 0 <= Measure(Apply(p, PostTerminate)) < Measure(p)
  {
    hide InSinks;
  }

  /** Once the destructor has started, an execution has at most Measure(p) steps. */
  lemma {:induction false} ShutdownBounded(p: Pool, steps: seq<Step>, p': Pool)
    requires Inv(p) && !p.open && Leads(p, steps, p')
    ensures |steps| <= Measure(p) && !p'.open
    decreases steps
  {
    if steps != [] {
      StepInv(p, steps[0]);
      StepDecreases(p, steps[0]);
      ShutdownBounded(Apply(p, steps[0]), steps[1..], p');
    }
  }

  // ---------- nothing queued is lost ----------

  /** The messages, other than terminates, that the pool still has to process. */
  ghost function Owed(p: Pool): multiset<Msg> {
    multiset(p.q.queue)[Terminate := 0] + InSinks(p.workers)
  }

  lemma StepConserves(p: Pool, step: Step)
    requires Inv(p) && !p.open && Enabled(p, step)
    ensures var p' := Apply(p, step);
            Owed(p') + multiset(p'.processed) == Owed(p) + multiset(p.processed)
  {
    var p' := Apply(p, step);
    match step
    case Take(w) => TakeConserves(p, w);
    case Finish(w) => FinishConserves(p, w);
    case _ =>
  }

  lemma FinishConserves(p: Pool, w: nat)
    requires Inv(p) && Enabled(p, Finish(w))
    ensures var p' := Apply(p, Finish(w));
            Owed(p') + multiset(p'.processed) == Owed(p) + multiset(p.processed)
  {
    var m := p.workers[w].msg;
    SinksAfter(p.workers, w, Waiting);
    assert InSinks(p.workers[w := Waiting]) + multiset{m} == InSinks(p.workers);
    hide InSinks, Inv;
    assert multiset(p.processed + [m]) == multiset(p.processed) + multiset{m};
  }

  lemma TakeConserves(p: Pool, w: nat)
    requires Inv(p) && Enabled(p, Take(w))
    ensures Owed(Apply(p, Take(w))) == Owed(p)
  {
    hide InSinks, TerminatesLast, ExitedSet;
    assert InSink(p.workers[w]) == multiset{};
    var queue := p.q.queue;
    var x := if queue[0] == Terminate then Exited else Busy(queue[0]);
    LogsAfter(queue, x);
    SinksAfter(p.workers, w, x);
    var p' := Apply(p, Take(w));
    assert p'.q.queue == queue[1..] && p'.workers == p.workers[w := x];
    Regroup(multiset(queue)[Terminate := 0], multiset(queue[1..])[Terminate := 0], InSink(x),
            InSinks(p.workers), InSinks(p'.workers), InSink(p.workers[w]));
  }

  lemma Regroup(a: multiset<Msg>, b: multiset<Msg>, x: multiset<Msg>,
                s: multiset<Msg>, s': multiset<Msg>, none: multiset<Msg>)
    requires a == b + x && s' + none == s + x && none == multiset{}
    ensures b + s' == a + s
  {
    assert s' == s + x;
    assert b + (s + x) == (b + x) + s;
  }

  /** A message that a worker takes out of the queue is in its sink, unless it is a terminate. */
  lemma LogsAfter(queue: seq<Msg>, x: Worker)
    requires queue != [] && x == if queue[0] == Terminate then Exited else Busy(queue[0])
    ensures multiset(queue)[Terminate := 0] == multiset(queue[1..])[Terminate := 0] + InSink(x)
  {
    FirstLeaves(queue);
  }

  lemma {:induction false} ShutdownConserves(p: Pool, steps: seq<Step>, p': Pool)
    requires Inv(p) && !p.open && Leads(p, steps, p')
    ensures Owed(p') + multiset(p'.processed) == Owed(p) + multiset(p.processed)
    decreases steps
  {
    if steps != [] {
      StepInv(p, steps[0]);
      StepConserves(p, steps[0]);
      ShutdownConserves(Apply(p, steps[0]), steps[1..], p');
    }
  }

  lemma {:induction false} NoneInSinks(workers: seq<Worker>)
    requires forall i :: 0 <= i < |workers| ==> workers[i] == Exited
    ensures InSinks(workers) == multiset{}
  {
    if workers != [] { NoneInSinks(workers[1..]); }
  }

  lemma HeadCounted(queue: seq<Msg>)
    ensures queue != [] && queue[0] == Terminate ==> multiset(queue)[Terminate] > 0
  {
    assert queue != [] ==> queue[0] in multiset(queue);
  }

  /** When the last worker has exited, nothing is owed any more. */
  lemma LastExitDrained(p: Pool)
    requires Inv(p) && p.capacity >= 0 && (forall i :: 0 <= i < |p.workers| ==> p.workers[i] == Exited)
    ensures p.q.queue == [] && p.toPost == 0 && Owed(p) == multiset{}
  {
    NoneInSinks(p.workers);
    assert forall i: nat :: i < |p.workers| <==> i in ExitedSet(p.workers);
    AllBelow(ExitedSet(p.workers), |p.workers|);
    assert 0 in ExitedSet(p.workers);
    HeadCounted(p.q.queue);
  }

  /** Main result. Take any reachable state in which the destructor has started, with room for at
      least one message. Every execution of the shutdown that cannot be continued has finished the
      destructor: every worker has exited, the queue is empty, and what was queued or in a sink
      when the destructor started has been processed, and nothing else. It takes at most
      Measure(p) steps to get there. */
  lemma ShutdownDrains(p0: Pool, before: seq<Step>, p: Pool, steps: seq<Step>, p': Pool)
    requires Init(p0) && Leads(p0, before, p)
    requires !p.open && p.capacity >= 1 && Fits(p.q, p.capacity) && Leads(p, steps, p')
    requires !exists step :: Enabled(p', step)
    ensures Destroyed(p') && |steps| <= Measure(p)
    ensures forall i :: 0 <= i < |p'.workers| ==> p'.workers[i] == Exited
    ensures p'.q.queue == []
    ensures multiset(p'.processed) == multiset(p.processed) + Owed(p)
  {
    InitInv(p0);
    RunInv(p0, before, p);
    RunInv(p, steps, p');
    ShutdownBounded(p, steps, p');
    ShutdownConserves(p, steps, p');
    if !Destroyed(p') {
      var step := NeverStuck(p');
    }
    assert forall i :: 0 <= i < |p'.workers| ==> p'.workers[i] == Exited;
    LastExitDrained(p');
    hide *;
    assert Owed(p') + multiset(p'.processed) == multiset(p'.processed);
  }

  ghost predicate Finishes(p: Pool, steps: seq<Step>, p': Pool)
    requires Fits(p.q, p.capacity)
  {
    Leads(p, steps, p') && Destroyed(p')
  }

  lemma {:induction false} Completes(p: Pool) returns (steps: seq<Step>, p': Pool)
    requires Inv(p) && !p.open && p.capacity >= 1
    ensures Finishes(p, steps, p')
    decreases Measure(p)
  {
    if Destroyed(p) {
      return [], p;
    }
    var step := NeverStuck(p);
    StepInv(p, step);
    StepDecreases(p, step);
    steps, p' := Completes(Apply(p, step));
    assert ([step] + steps)[1..] == steps;
    steps := [step] + steps;
  }

  /** The destructor can finish if and only if the queue has room for a message. With capacity 0
      it waits for room for ever; a disabled queue swallows the terminate messages. */
  lemma DestructorFinishesIff(p0: Pool, before: seq<Step>, p: Pool)
    requires Init(p0) && Leads(p0, before, p) && !p.open
    ensures Fits(p.q, p.capacity)
    ensures p.capacity >= 1 <==> exists steps, p' :: Finishes(p, steps, p')
  {
    InitInv(p0);
    RunInv(p0, before, p);
    if p.capacity >= 1 {
      var steps, p' := Completes(p);
    } else {
      forall steps, p' | Leads(p, steps, p')
        ensures !Destroyed(p')
      {
        RunInv(p, steps, p');
        ShutdownBounded(p, steps, p');
        assert Destroyed(p') ==> 0 in ExitedSet(p'.workers);
      }
    }
  }
}
