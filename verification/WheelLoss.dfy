/** When the wheel loses a frame. The scan of a bucket leaves `tail_` behind if it takes the last
    frame of the queue and leaves an earlier one (see QueueModel.FetchStaysAttachedIff); the next
    frame registered in that bucket is lost. */
module WheelLoss {
  import opened Arith
  import opened QueueModel
  import opened TimeWheel
  import opened WheelTiming

  /** The wake times of a queue never go down, and its tail is where it should be. */
  ghost predicate Ordered(q: Queue<Frame>) {
    q.attached && Ascending(q.chain)
  }

  ghost predicate Ascending(s: seq<Frame>) {
    forall i, j :: 0 <= i < j < |s| ==> s[i].wake <= s[j].wake
  }

  lemma AscendingAppend(s: seq<Frame>, f: Frame)
    requires Ascending(s) && forall g | g in s :: g.wake <= f.wake
    ensures Ascending(s + [f])
  {
  }

  ghost predicate AllOrdered(w: Wheel)
    requires WellShaped(w)
  {
    w.lost == NothingLost && forall k :: 0 <= k < BUCKET_NUM ==> Ordered(w.buckets[k].waiting)
  }

  /** A frame joins its bucket behind frames that wake no later than it does. */
  ghost predicate InOrder(w: Wheel, step: Step)
    requires WellShaped(w) && Enabled(w, step)
  {
    step.LockRegister? ==>
      forall g | g in w.buckets[RealIndex(w, step.f)].waiting.chain :: g.wake <= step.f.wake
  }

  ghost predicate LeadsInOrder(w: Wheel, steps: seq<Step>, w': Wheel)
    requires WellShaped(w)
    decreases steps
  {
    if steps == [] then w' == w
    else
      Enabled(w, steps[0]) && InOrder(w, steps[0]) &&
      (StaysWellShaped(w, steps[0]); LeadsInOrder(Apply(w, steps[0]), steps[1..], w'))
  }

  lemma {:induction false} KeptAscending(s: seq<Frame>, condition: Frame -> bool)
    requires Ascending(s)
    ensures Ascending(Kept(s, condition))
  {
    if s != [] {
      var n := |s| - 1;
      KeptAscending(s[..n], condition);
      KeptMembers(s[..n], condition);
      forall x | x in s[..n] ensures x.wake <= s[n].wake { }
      AscendingAppend(Kept(s[..n], condition), s[n]);
    }
  }

  lemma FetchStaysOrdered(q: Queue<Frame>, clock: nat, force: bool)
    requires q.Valid() && Ordered(q)
    ensures Ordered(Fetch(q, Condition(clock, force)))
  {
    var condition := Condition(clock, force);
    KeptAscending(q.chain, condition);
    if q.chain != [] {
      var last := q.chain[|q.chain| - 1];
      assert forall x | x in q.chain :: x.wake <= last.wake;
      assert condition(last) ==> forall x | x in q.chain :: condition(x);
      FetchStaysAttachedIff(q, condition);
    } else {
      assert q.size == 0;
    }
    assert Fetch(q, condition).chain == Kept(q.chain, condition);
  }

  lemma OrderedStep(w: Wheel, step: Step)
    requires WellShaped(w) && AllOrdered(w) && Enabled(w, step) && InOrder(w, step)
    ensures WellShaped(Apply(w, step)) && AllOrdered(Apply(w, step))
  {
    StaysWellShaped(w, step);
    if step.LockRegister? {
      OrderedLock(w, step.f);
    } else if step.LoopStep? {
      OrderedLoop(w);
    }
    hide WellShaped, RealIndex, HasBucket, Lock, Loop;
  }

  lemma OrderedLock(w: Wheel, f: Frame)
    requires WellShaped(w) && AllOrdered(w) && HasBucket(w, f) && WellShaped(Lock(w, f))
    requires forall g | g in w.buckets[RealIndex(w, f)].waiting.chain :: g.wake <= f.wake
    ensures AllOrdered(Lock(w, f))
  {
    var q := w.buckets[RealIndex(w, f)].waiting;
    assert Ordered(q);
    AscendingAppend(q.chain, f);
    assert Ordered(Append(q, f));
    hide HasBucket, RealIndex, Ordered, Append;
  }

  lemma OrderedLoop(w: Wheel)
    requires WellShaped(w) && AllOrdered(w) && Enabled(w, LoopStep) && WellShaped(Loop(w))
    ensures AllOrdered(Loop(w))
  {
    LoopKeeps(w);
    LoopScans(w);
    var k := ScansNow(w);
    if k >= 0 { FetchStaysOrdered(w.buckets[k].waiting, w.clock, w.pc.Sweep?); }
    assert |w.buckets| == BUCKET_NUM;
    hide Loop, WellShaped, Enabled, ScansNow, Fetch, Fetched, Ordered, Condition;
  }

  lemma {:induction false} OrderedRun(w: Wheel, steps: seq<Step>, w': Wheel)
    requires WellShaped(w) && AllOrdered(w) && LeadsInOrder(w, steps, w')
    ensures WellShaped(w') && AllOrdered(w')
    decreases |steps|
  {
    if steps != [] {
      OrderedStep(w, steps[0]);
      OrderedRun(Apply(w, steps[0]), steps[1..], w');
    }
    hide WellShaped, AllOrdered, Apply, Enabled, InOrder;
  }

  /** If every frame joins its bucket behind frames that wake no later, no frame is ever lost and
      the wheel never comes to a state from which its queues could lose one. */
  lemma InOrderLosesNothing(w0: Wheel, steps: seq<Step>, w: Wheel)
    requires Init(w0) && LeadsInOrder(w0, steps, w)
    ensures WellShaped(w) && w.lost == NothingLost
    ensures forall k :: 0 <= k < BUCKET_NUM ==> w.buckets[k].waiting.attached
  {
    assert AllOrdered(w0);
    OrderedRun(w0, steps, w);
    hide LeadsInOrder, WellShaped;
  }

  /** Out of order it happens: of two frames in bucket 1 the later one is registered first, the
      scan takes the other, and the next frame for bucket 1 is lost. */
  lemma OutOfOrderLosesFrame(w0: Wheel)
    requires Init(w0) && w0.starts[0] == w0.clock
    ensures exists w :: Reaches(w0, w) && w.lost != NothingLost
  {
    var t := w0.clock;
    var late := t + w0.precision * (BUCKET_NUM + 1);
    var first, second, third := Frame(0, 0, late, 0), Frame(1, 0, t + 1, 0), Frame(2, 0, late, 0);
    IndexOfLate(w0, first);
    IndexOfLate(w0, third);
    assert HasBucket(w0, second) && BucketIndex(w0, second) == 1 && RealIndex(w0, second) == 1;
    assert w0.buckets[1] == Bucket(0, EmptyQueue());
    hide BucketIndex, RealIndex, HasBucket, Init;
    var w1 := Registers(w0, first);
    SameIndex(w0, w1, second);
    assert [] + [first] == [first];
    assert w1.buckets[1].waiting == Queue([first], 1, true);
    var w2 := Registers(w1, second);
    assert [first] + [second] == [first, second];
    assert w2.buckets[1].waiting == Queue([first, second], 2, true);
    ReachesTransitive(w0, w1, w2);
    var w3 := Apply(w2, Tick(1));
    ReachesByStep(w2, Tick(1));
    ReachesTransitive(w0, w2, w3);
    var w4 := FirstVisit(w3);
    ReachesTransitive(w0, w3, w4);
    SecondTaken(w3.buckets[1].waiting, first, second, Condition(w3.clock, false));
    SameIndex(w0, w4, third);
    assert !w4.buckets[1].waiting.attached;
    var w5 := Registers(w4, third);
    ReachesTransitive(w0, w4, w5);
    assert w5.lost == Lost(third);
    hide *;
  }

  lemma IndexOfLate(w: Wheel, f: Frame)
    requires WellShaped(w) && f.rev == 0 && f.wake == w.starts[0] + w.precision * (BUCKET_NUM + 1)
    ensures HasBucket(w, f) && RealIndex(w, f) == 1 && f.wake > w.starts[0] + 1
  {
    var p := w.precision;
    assert p * (BUCKET_NUM + 1) - 1 == BUCKET_NUM * p + (p - 1);
    QuotientUnique(p * (BUCKET_NUM + 1) - 1, p, BUCKET_NUM, p - 1);
    assert BucketIndex(w, f) == BUCKET_NUM + 1;
  }

  lemma SecondTaken(q: Queue<Frame>, first: Frame, second: Frame, condition: Frame -> bool)
    requires q == Queue([first, second], 2, true) && !condition(first) && condition(second)
    ensures !Fetch(q, condition).attached
  {
    FetchStaysAttachedIff(q, condition);
    assert first in q.chain;
    hide Fetch;
  }

  // ---------- exactly when ----------

  /** No scan, whenever it happens, leaves the tail behind if and only if the last frame of the queue
      wakes no earlier than the others. */
  lemma SafeQueueIff(q: Queue<Frame>)
    requires q.Valid() && q.attached && q.chain != []
    ensures (forall limit: nat :: Fetch(q, DueBy(limit)).attached)
       <==> forall f | f in q.chain :: f.wake <= q.chain[|q.chain| - 1].wake
  {
    var last := q.chain[|q.chain| - 1];
    forall limit: nat
      ensures Fetch(q, DueBy(limit)).attached <==> (forall f | f in q.chain :: f.wake <= limit) || !(last.wake <= limit)
    {
      FetchStaysAttachedIff(q, DueBy(limit));
      assert forall f | f in q.chain :: DueBy(limit)(f) <==> f.wake <= limit;
    }
    hide Fetch;
    assert Fetch(q, DueBy(last.wake)).attached <==> forall f | f in q.chain :: f.wake <= last.wake;
  }

  ghost predicate AllAttached(w: Wheel)
    requires WellShaped(w)
  {
    w.lost == NothingLost && forall k :: 0 <= k < BUCKET_NUM ==> w.buckets[k].waiting.attached
  }

  /** The step is a scan that takes the last frame of a queue and leaves an earlier one. */
  ghost predicate TakesLast(w: Wheel, step: Step)
    requires WellShaped(w) && Enabled(w, step)
  {
    && step.LoopStep? && 0 <= ScansNow(w) < BUCKET_NUM
    && var chain, condition := w.buckets[ScansNow(w)].waiting.chain, Condition(w.clock, w.pc.Sweep?);
       chain != [] && condition(chain[|chain| - 1]) && exists f | f in chain :: !condition(f)
  }

  lemma AttachedStep(w: Wheel, step: Step)
    requires WellShaped(w) && AllAttached(w) && Enabled(w, step)
    ensures WellShaped(Apply(w, step)) && (AllAttached(Apply(w, step)) <==> !TakesLast(w, step))
  {
    StaysWellShaped(w, step);
    hide Lock, Loop, HasBucket, RealIndex;
    match step
    case LoopStep => AttachedLoop(w);
    case LockRegister(f) => AttachedLock(w, f);
    case _ => hide WellShaped; assert AllAttached(Apply(w, step));
    hide AllAttached, WellShaped;
  }

  lemma AttachedLock(w: Wheel, f: Frame)
    requires WellShaped(w) && AllAttached(w) && HasBucket(w, f) && WellShaped(Lock(w, f))
    ensures AllAttached(Lock(w, f))
  {
    hide HasBucket, RealIndex;
  }

  lemma AttachedLoop(w: Wheel)
    requires WellShaped(w) && AllAttached(w) && Enabled(w, LoopStep) && WellShaped(Loop(w))
    ensures AllAttached(Loop(w)) <==> !TakesLast(w, LoopStep)
  {
    LoopKeeps(w);
    LoopScans(w);
    var k := ScansNow(w);
    assert |w.buckets| == BUCKET_NUM;
    if k >= 0 {
      var q, condition := w.buckets[k].waiting, Condition(w.clock, w.pc.Sweep?);
      if q.chain == [] { EmptyStaysAttached(q, condition); } else { FetchStaysAttachedIff(q, condition); }
      assert Loop(w).buckets[k].waiting == Fetch(q, condition);
    }
    hide Loop, WellShaped, Enabled, ScansNow, Fetch, Fetched, Condition;
  }

  lemma EmptyStaysAttached(q: Queue<Frame>, condition: Frame -> bool)
    requires q.Valid() && q.attached && q.chain == []
    ensures Fetch(q, condition).attached
  {
  }

  /** No tail is stale in any state of the run. */
  ghost predicate StaysWhole(w: Wheel, steps: seq<Step>, w': Wheel)
    requires WellShaped(w) && Leads(w, steps, w')
    decreases |steps|
  {
    AllAttached(w) &&
    (steps == [] || (StaysWellShaped(w, steps[0]); StaysWhole(Apply(w, steps[0]), steps[1..], w')))
  }

  ghost predicate NeverTakesLast(w: Wheel, steps: seq<Step>, w': Wheel)
    requires WellShaped(w) && Leads(w, steps, w')
    decreases |steps|
  {
    steps == [] ||
    (!TakesLast(w, steps[0]) &&
     (StaysWellShaped(w, steps[0]); NeverTakesLast(Apply(w, steps[0]), steps[1..], w')))
  }

  lemma {:induction false} WholeRun(w: Wheel, steps: seq<Step>, w': Wheel)
    requires WellShaped(w) && AllAttached(w) && Leads(w, steps, w')
    ensures StaysWhole(w, steps, w') <==> NeverTakesLast(w, steps, w')
    ensures StaysWhole(w, steps, w') ==> WellShaped(w') && AllAttached(w')
    decreases |steps|
  {
    hide Apply, Enabled, AllAttached, TakesLast, WellShaped;
    if steps != [] {
      AttachedStep(w, steps[0]);
      var w1 := Apply(w, steps[0]);
      if AllAttached(w1) {
        WholeRun(w1, steps[1..], w');
      } else {
        assert !StaysWhole(w1, steps[1..], w');
      }
    }
  }

  /** In every run, every tail is right in every state if and only if no scan of the run takes the
      last frame of a queue and leaves an earlier one. */
  lemma TailsStayRightIff(w0: Wheel, steps: seq<Step>, w: Wheel)
    requires Init(w0) && WellShaped(w0) && Leads(w0, steps, w)
    ensures StaysWhole(w0, steps, w) <==> NeverTakesLast(w0, steps, w)
    ensures NeverTakesLast(w0, steps, w) ==> w.lost == NothingLost
  {
    assert AllAttached(w0);
    hide Init, WellShaped, Leads;
    WholeRun(w0, steps, w);
  }

  /** A registration would lose its frame. */
  ghost predicate CanLoseNow(w: Wheel)
    requires WellShaped(w)
  {
    exists f :: HasBucket(w, f) && Lock(w, f).lost != NothingLost
  }

  /** In a state without a loss, the next registration can lose its frame if and only if some tail is
      stale. */
  lemma CanLoseIff(w: Wheel)
    requires WellShaped(w) && w.lost == NothingLost
    ensures CanLoseNow(w) <==> exists k :: 0 <= k < BUCKET_NUM && !w.buckets[k].waiting.attached
  {
    if k: nat :| k < BUCKET_NUM && !w.buckets[k].waiting.attached {
      var scanOver := w.buckets[k].scanOver;
      var f := FrameFor(w, k, scanOver);
      assert Lock(w, f).lost == Lost(f);
    }
    hide WellShaped, HasBucket;
  }

  /** Some frame belongs in bucket k and wakes after a given time. */
  lemma FrameFor(w: Wheel, k: nat, time: nat) returns (f: Frame)
    requires WellShaped(w) && k < BUCKET_NUM
    ensures HasBucket(w, f) && RealIndex(w, f) == k && f.wake > time
  {
    var p, start := w.precision, Start(w);
    var c := BUCKET_NUM * (time + 1) + k;
    f := Frame(0, 0, start + p * c, |w.starts| - 1);
    MulMono(1, p, c);
    assert p * c - 1 == (c - 1) * p + (p - 1);
    QuotientUnique(p * c - 1, p, c - 1, p - 1);
    assert BucketIndex(w, f) == c;
  }
}
