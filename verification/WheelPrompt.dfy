/** How late the timing wheel can be. A run is prompt if no time passes while the loop thread could
    take its next action. In a prompt run no frame waits longer than one precision after its wake
    time; and the loop can always be prompt. */
module WheelPrompt {
  import Arith
  import opened QueueModel
  import opened TimeWheel
  import opened WheelTiming

  /** The clock does not tick past a moment at which the loop thread could go on. */
  ghost predicate Prompt(w: Wheel, step: Step)
    requires WellShaped(w) && Enabled(w, step)
  {
    step.Tick? ==> forall e: nat :: e < step.d ==> !Enabled(Ticked(w, e), LoopStep)
  }

  function Ticked(w: Wheel, d: nat): Wheel {
    w.(clock := w.clock + d)
  }

  ghost predicate LeadsPromptly(w: Wheel, steps: seq<Step>, w': Wheel)
    requires WellShaped(w)
    decreases |steps|
  {
    if steps == [] then w' == w
    else
      Enabled(w, steps[0]) && Prompt(w, steps[0]) &&
      (StaysWellShaped(w, steps[0]); LeadsPromptly(Apply(w, steps[0]), steps[1..], w'))
  }

  /** The time planned for visit n by the start timestamp of revolution r. */
  function Planned(w: Wheel, r: nat, n: int): int
    requires r < |w.starts|
  {
    w.starts[r] + w.precision * (n - BUCKET_NUM * r)
  }

  /** The visit that the loop thread is at, or comes to next. */
  function NextVisit(w: Wheel): nat {
    if w.pc == Drain then w.visits else w.visits + 1
  }

  /** The loop thread has not been stopped yet. */
  predicate Looping(pc: Pc) {
    !pc.Sweep? && !pc.SweepDrain? && !pc.Halted?
  }

  predicate ClockInPlan(w: Wheel, r: nat, delay: nat)
    requires r < |w.starts|
  {
    Looping(w.pc) ==> w.clock <= Planned(w, r, NextVisit(w)) + delay
  }

  predicate StartInPlan(w: Wheel, r: nat, delay: nat)
    requires r < |w.starts|
  {
    w.starts[|w.starts| - 1] <= Planned(w, r, BUCKET_NUM * (|w.starts| - 1)) + delay
  }

  /** The loop is at most `delay` behind the plan of any revolution. */
  ghost predicate InPlan(w: Wheel, delay: nat) {
    && (forall r: nat :: r < |w.starts| ==> ClockInPlan(w, r, delay))
    && (forall r: nat :: r < |w.starts| ==> StartInPlan(w, r, delay))
    && (w.pc.StoreStart? ==> w.pc.now == w.clock)
  }

  /** The frames that a scan has fetched were not due at an earlier visit. */
  ghost predicate ReadyInTime(w: Wheel)
    requires WellShaped(w)
  {
    w.pc == Drain ==> forall f | f in w.ready :: HasBucket(w, f) && (Due(w, f) == 1 || w.visits <= Due(w, f))
  }

  ghost predicate PromptInv(w: Wheel, delay: nat) {
    Inv(w) && InPlan(w, delay) && ReadyInTime(w)
  }

  // ---------- the plan ----------

  lemma PlannedGrows(w: Wheel, r: nat, m: int, n: int)
    requires r < |w.starts| && m <= n
    ensures Planned(w, r, m) <= Planned(w, r, n)
  {
    Arith.MulMono(m - BUCKET_NUM * r, n - BUCKET_NUM * r, w.precision);
  }

  lemma PlannedAdds(w: Wheel, r: nat, m: int, n: int)
    requires r < |w.starts|
    ensures Planned(w, r, m + n) == Planned(w, r, m) + w.precision * n
  {
    assert w.precision * (m + n - BUCKET_NUM * r) == w.precision * (m - BUCKET_NUM * r) + w.precision * n;
  }

  lemma TickInPlan(w: Wheel, d: nat, delay: nat)
    requires WellShaped(w) && InPlan(w, delay) && Clockwork(w) && w.lost == NothingLost
    requires Prompt(w, Tick(d))
    ensures InPlan(Ticked(w, d), delay)
  {
    var w' := Ticked(w, d);
    PromptTick(w, d);
    forall r: nat | r < |w.starts| ensures ClockInPlan(w', r, delay) && StartInPlan(w', r, delay) {
      assert ClockInPlan(w, r, delay) && StartInPlan(w, r, delay);
      if d > 0 && Looping(w.pc) {
        PlannedAdds(w, r, BUCKET_NUM * (|w.starts| - 1), w.idx + 1);
      }
      hide WellShaped, StartsApart;
    }
    hide WellShaped, Clockwork, Prompt, ClockInPlan, StartInPlan;
  }

  /** The clock only advances while the loop thread waits, and then at most to the next visit. */
  lemma PromptTick(w: Wheel, d: nat)
    requires WellShaped(w) && w.lost == NothingLost && Prompt(w, Tick(d))
    ensures d > 0 && Looping(w.pc) ==> w.pc == Wait && !w.stop && w.clock + d <= NextRun(w)
  {
    if d > 0 {
      assert !Enabled(Ticked(w, 0), LoopStep) && !Enabled(Ticked(w, d - 1), LoopStep);
      SameShape(w, d - 1);
      SameShape(w, 0);
    }
    hide WellShaped;
  }

  lemma SameShape(w: Wheel, d: nat)
    requires WellShaped(w)
    ensures WellShaped(Ticked(w, d)) && Start(Ticked(w, d)) == Start(w) && NextRun(Ticked(w, d)) == NextRun(w)
  {
  }

  lemma SamePlan(w: Wheel, w': Wheel, r: nat, n: int)
    requires r < |w.starts| && w.starts <= w'.starts && w'.precision == w.precision
    ensures Planned(w', r, n) == Planned(w, r, n)
  {
    assert w'.starts[r] == w.starts[r];
  }

  /** A step that stores no start timestamp keeps to the plan. */
  lemma KeepsToPlan(w: Wheel, w': Wheel, delay: nat)
    requires |w.starts| > 0 && InPlan(w, delay)
    requires w'.starts == w.starts && w'.precision == w.precision && w'.clock == w.clock
    requires Looping(w'.pc) ==> Looping(w.pc) && NextVisit(w) <= NextVisit(w')
    requires w'.pc.StoreStart? ==> w'.pc.now == w'.clock
    ensures InPlan(w', delay)
  {
    forall r: nat | r < |w'.starts| ensures ClockInPlan(w', r, delay) && StartInPlan(w', r, delay) {
      assert ClockInPlan(w, r, delay) && StartInPlan(w, r, delay);
      if Looping(w'.pc) {
        PlannedGrows(w, r, NextVisit(w), NextVisit(w'));
        SamePlan(w, w', r, NextVisit(w'));
      }
      SamePlan(w, w', r, BUCKET_NUM * (|w.starts| - 1));
      hide Planned, NextVisit;
    }
    hide ClockInPlan, StartInPlan, Looping, NextVisit;
  }

  lemma StoreInPlan(w: Wheel, delay: nat)
    requires WellShaped(w) && Clockwork(w) && InPlan(w, delay) && Enabled(w, LoopStep) && w.pc.StoreStart?
    ensures InPlan(Loop(w), delay)
  {
    var w' := Loop(w);
    LoopKeeps(w);
    LoopProgress(w);
    LoopMoves(w);
    var rev := |w.starts|;
    assert NextVisit(w) == BUCKET_NUM * rev;
    hide Loop, WellShaped, Enabled, Clockwork;
    forall r: nat | r < |w'.starts| ensures ClockInPlan(w', r, delay) && StartInPlan(w', r, delay) {
      if r < rev {
        assert ClockInPlan(w, r, delay);
        SamePlan(w, w', r, BUCKET_NUM * rev);
      } else {
        assert w'.precision * 0 == 0;
      }
    }
    hide ClockInPlan, StartInPlan;
  }

  lemma LoopInPlan(w: Wheel, delay: nat)
    requires WellShaped(w) && Clockwork(w) && InPlan(w, delay) && Enabled(w, LoopStep)
    ensures InPlan(Loop(w), delay)
  {
    hide Loop, WellShaped, InPlan, Enabled;
    if w.pc.StoreStart? {
      StoreInPlan(w, delay);
    } else {
      LoopKeeps(w);
      LoopProgress(w);
      LoopMoves(w);
      StoresNow(w, delay);
      HasStart(w);
      hide Clockwork;
      KeepsToPlan(w, Loop(w), delay);
    }
  }

  lemma HasStart(w: Wheel)
    requires WellShaped(w)
    ensures |w.starts| > 0
  {
  }

  lemma StoresNow(w: Wheel, delay: nat)
    requires InPlan(w, delay)
    ensures NextPc(w).StoreStart? ==> NextPc(w).now == w.clock
  {
  }

  lemma PlanStep(w: Wheel, step: Step, delay: nat)
    requires Inv(w) && InPlan(w, delay) && Enabled(w, step) && Prompt(w, step)
    ensures InPlan(Apply(w, step), delay)
  {
    hide InPlan, Loop, Lock, Prompt, Inv;
    InvParts(w);
    match step
    case Tick(d) => TickInPlan(w, d, delay);
    case LoopStep => LoopInPlan(w, delay);
    case LockRegister(f) => LockInPlan(w, f, delay);
    case _ => OtherInPlan(w, step, delay);
    hide WellShaped, Enabled, Clockwork;
  }

  lemma InvParts(w: Wheel)
    requires Inv(w)
    ensures WellShaped(w) && Clockwork(w) && BucketsOk(w)
  {
  }

  lemma LockInPlan(w: Wheel, f: Frame, delay: nat)
    requires WellShaped(w) && InPlan(w, delay) && HasBucket(w, f)
    ensures InPlan(Lock(w, f), delay)
  {
    var w' := Lock(w, f);
    assert w'.starts == w.starts && w'.precision == w.precision && w'.clock == w.clock && w'.pc == w.pc && w'.visits == w.visits;
    assert w.pc.StoreStart? ==> w.pc.now == w.clock;
    hide Lock, InPlan, RealIndex, HasBucket;
    KeepsToPlan(w, w', delay);
  }

  lemma OtherInPlan(w: Wheel, step: Step, delay: nat)
    requires WellShaped(w) && InPlan(w, delay) && Enabled(w, step)
    requires step.SetStop? || step.BeginRegister? || step.CommitMissed?
    ensures InPlan(Apply(w, step), delay)
  {
    var w' := Apply(w, step);
    assert w'.starts == w.starts && w'.precision == w.precision && w'.clock == w.clock && w'.pc == w.pc && w'.visits == w.visits;
    assert w.pc.StoreStart? ==> w.pc.now == w.clock;
    hide Apply, InPlan, Enabled;
    KeepsToPlan(w, w', delay);
  }

  // ---------- the frames ----------

  /** A frame that still waits was not due at an earlier visit. */
  lemma WaitsInTime(w: Wheel, k: nat, f: Frame)
    requires Inv(w) && k < BUCKET_NUM && f in w.buckets[k].waiting.chain
    ensures HasBucket(w, f) && RealIndex(w, f) == k && (Due(w, f) == 1 || w.visits < Due(w, f))
  {
    assert BucketOk(w, k);
    hide BucketIndex, RealIndex, WellShaped, Clockwork, Visited, ReadyOk, TransitOk;
    DueIsPositive(w, f);
    if 2 <= Due(w, f) <= w.visits { DueVisitScansAfterWake(w, f); }
  }

  lemma DueIsPositive(w: Wheel, f: Frame)
    requires HasBucket(w, f)
    ensures Due(w, f) >= 1
  {
  }

  lemma ReadyStep(w: Wheel, step: Step)
    requires Inv(w) && ReadyInTime(w) && Enabled(w, step)
    ensures WellShaped(Apply(w, step)) && ReadyInTime(Apply(w, step))
  {
    InvStep(w, step);
    hide Loop, Lock, Inv, WellShaped, Grows;
    if step.LoopStep? {
      ReadyAfterLoop(w);
      assert ReadyInTime(Apply(w, step));
    } else {
      SameReady(w, step);
    }
    hide ReadyInTime, Enabled;
  }

  lemma ReadyAfterLoop(w: Wheel)
    requires Inv(w) && ReadyInTime(w) && Enabled(w, LoopStep) && Inv(Loop(w)) && Grows(w, Loop(w))
    ensures ReadyInTime(Loop(w))
  {
    var w' := Loop(w);
    LoopMoves(w);
    LoopProgress(w);
    LoopScans(w);
    if w'.pc == Drain {
      hide Loop, Due, HasBucket, BucketIndex, RealIndex, WellShaped, Clockwork, Visited, BucketsOk, ReadyOk, TransitOk, Enabled;
      if w.pc == Visit {
        FetchedMembers(w.buckets[w.idx].waiting.chain, Condition(w.clock, false));
        hide Fetched, Scanned;
        forall f | f in w'.ready ensures HasBucket(w', f) && (Due(w', f) == 1 || w'.visits <= Due(w', f)) {
          WaitsInTime(w, w.idx, f);
          SameDueAfter(w, w', f);
        }
      } else {
        LoopCommits(w);
        forall f | f in w'.ready ensures HasBucket(w', f) && (Due(w', f) == 1 || w'.visits <= Due(w', f)) {
          assert f in w.ready;
          SameDueAfter(w, w', f);
        }
      }
    }
    hide *;
  }

  lemma SameDueAfter(w: Wheel, w': Wheel, f: Frame)
    requires HasBucket(w, f) && w'.precision == w.precision && w.starts <= w'.starts
    ensures HasBucket(w', f) && Due(w', f) == Due(w, f)
  {
    SameIndex(w, w', f);
    hide BucketIndex, RealIndex, HasBucket;
  }

  lemma SameReady(w: Wheel, step: Step)
    requires WellShaped(w) && ReadyInTime(w) && Enabled(w, step) && !step.LoopStep?
    requires WellShaped(Apply(w, step))
    ensures ReadyInTime(Apply(w, step))
  {
    var w' := Apply(w, step);
    assert w'.ready == w.ready && w'.pc == w.pc && w'.visits == w.visits && w'.precision == w.precision && w'.starts == w.starts by {
      hide RealIndex, HasBucket, Append;
    }
    hide Apply, Enabled, WellShaped, HasBucket, Due;
    forall f | f in w'.ready && w.pc == Drain ensures HasBucket(w', f) && (Due(w', f) == 1 || w'.visits <= Due(w', f)) {
      SameDueAfter(w, w', f);
    }
  }

  // ---------- prompt runs ----------

  lemma PromptInit(w: Wheel)
    requires Init(w)
    ensures PromptInv(w, w.clock - w.starts[0])
  {
    InvInit(w);
    assert Planned(w, 0, 0) == w.starts[0] by { assert w.precision * 0 == 0; }
    PlannedGrows(w, 0, 0, 1);
    hide Planned, Inv;
  }

  lemma {:induction false} PromptRun(w: Wheel, steps: seq<Step>, w': Wheel, delay: nat)
    requires PromptInv(w, delay) && WellShaped(w) && LeadsPromptly(w, steps, w')
    ensures PromptInv(w', delay)
    decreases |steps|
  {
    hide Inv, InPlan, ReadyInTime, Apply, Enabled, Prompt, WellShaped;
    if steps != [] {
      InvStep(w, steps[0]);
      PlanStep(w, steps[0], delay);
      ReadyStep(w, steps[0]);
      PromptRun(Apply(w, steps[0]), steps[1..], w', delay);
    }
  }

  lemma PromptlyFrom(w0: Wheel, steps: seq<Step>, w: Wheel)
    requires Init(w0) && WellShaped(w0) && LeadsPromptly(w0, steps, w)
    ensures |w0.starts| > 0 && w0.starts[0] <= w0.clock && PromptInv(w, w0.clock - w0.starts[0])
  {
    PromptInit(w0);
    hide LeadsPromptly, PromptInv;
    PromptRun(w0, steps, w, w0.clock - w0.starts[0]);
  }

  /** At a visit no later than the one a frame is due at, its wake time lies less than one precision
      back, but for the delay of the loop. */
  lemma NotLate(w: Wheel, f: Frame, delay: nat)
    requires PromptInv(w, delay) && HasBucket(w, f) && Looping(w.pc) && NextVisit(w) <= Due(w, f)
    ensures w.clock < f.wake + w.precision + delay
  {
    var c := BucketIndex(w, f);
    assert ClockInPlan(w, f.rev, delay);
    PlannedGrows(w, f.rev, NextVisit(w), Due(w, f));
    IndexIsCeiling(w, f);
    assert w.precision * c == w.precision * (c - 1) + w.precision;
    hide Inv, InPlan, ReadyInTime, HasBucket, NextVisit, BucketIndex;
  }

  /** Main result. In every run that is prompt, with the loop starting `delay` after the first start
      timestamp, no frame that is due at visit 2 or later waits in a bucket once the clock has
      reached its wake time plus one precision plus that delay, unless the loop has been stopped. */
  lemma NobodyWaitsLong(w0: Wheel, steps: seq<Step>, w: Wheel, k: nat, f: Frame)
    requires Init(w0) && WellShaped(w0) && LeadsPromptly(w0, steps, w) && WellShaped(w) && Looping(w.pc)
    requires k < BUCKET_NUM && f in w.buckets[k].waiting.chain && HasBucket(w, f) && Due(w, f) >= 2
    ensures w.clock < f.wake + w.precision + (w0.clock - w0.starts[0])
  {
    hide Init, LeadsPromptly, WellShaped, HasBucket, Due, PromptInv;
    PromptlyFrom(w0, steps, w);
    WaiterNotLate(w, k, f, w0.clock - w0.starts[0]);
  }

  lemma WaiterNotLate(w: Wheel, k: nat, f: Frame, delay: nat)
    requires PromptInv(w, delay) && Looping(w.pc) && k < BUCKET_NUM && f in w.buckets[k].waiting.chain
    requires HasBucket(w, f) && Due(w, f) >= 2
    ensures w.clock < f.wake + w.precision + delay
  {
    WaitsInTime(w, k, f);
    hide Inv, HasBucket, Due, InPlan, ReadyInTime;
    NotLate(w, f, delay);
  }

  /** Main result. In every such run, the scans commit a frame that is due at visit 2 or later by the
      visit it is due at, less than one precision plus the delay after its wake time. */
  lemma CommittedPromptly(w0: Wheel, steps: seq<Step>, w: Wheel)
    requires Init(w0) && WellShaped(w0) && LeadsPromptly(w0, steps, w) && WellShaped(w)
    requires w.pc == Drain && w.ready != [] && w.lost == NothingLost
    ensures HasBucket(w, w.ready[0])
    ensures var f := w.ready[0];
      && Loop(w).commits == w.commits + [Commit(f, w.clock, false)]
      && f.wake <= w.clock
      && (Due(w, f) >= 2 ==> w.visits <= Due(w, f) && w.clock < f.wake + w.precision + (w0.clock - w0.starts[0]))
  {
    hide Loop, Init, LeadsPromptly, WellShaped, HasBucket, Due, InPlan, Inv;
    var f := w.ready[0];
    PromptlyFrom(w0, steps, w);
    DrainsFrame(w);
    if Due(w, f) >= 2 { NotLate(w, f, w0.clock - w0.starts[0]); }
  }

  lemma DrainsFrame(w: Wheel)
    requires Inv(w) && ReadyInTime(w) && w.pc == Drain && w.ready != [] && w.lost == NothingLost
    ensures Enabled(w, LoopStep) && HasBucket(w, w.ready[0]) && w.ready[0].wake <= w.clock
    ensures Due(w, w.ready[0]) == 1 || w.visits <= Due(w, w.ready[0])
    ensures Loop(w).commits == w.commits + [Commit(w.ready[0], w.clock, false)]
  {
    assert w.ready[0] in w.ready && ReadyOk(w);
    hide Loop, Clockwork, Visited, BucketsOk, TransitOk, HasBucket, Due;
    LoopCommits(w);
  }

  // ---------- it can be prompt ----------

  /** From every waiting state of a running loop, some run makes the next visit, and scans its bucket
      at exactly the time start + precision * (idx + 1), if that has not passed. */
  lemma VisitOnTime(w: Wheel) returns (w': Wheel)
    requires WellShaped(w) && w.lost == NothingLost && w.pc == Wait && !w.stop
    requires w.clock <= Start(w) + w.precision * (w.idx + 1)
    ensures WellShaped(w') && Reaches(w, w') && w'.visits == w.visits + 1 && w'.pc == Drain
    ensures w'.idx == (w.idx + 1) % BUCKET_NUM
    ensures w'.buckets[w'.idx].scanOver == w'.clock == Start(w) + w.precision * (w.idx + 1)
  {
    var w1 := TicksTo(w, Start(w) + w.precision * (w.idx + 1));
    hide Loop, Reaches, WellShaped, Fetched, Fetch, Condition;
    var w2 := Goes(w, w1);
    var w3 := Goes(w, w2);
    if w3.pc.StoreStart? {
      w3 := Goes(w, w3);
    }
    VisitScans(w3);
    w' := Goes(w, w3);
  }

  lemma TicksTo(w: Wheel, time: nat) returns (w': Wheel)
    requires WellShaped(w) && w.lost == NothingLost && w.pc == Wait && !w.stop && w.clock <= time
    requires time >= NextRun(w)
    ensures w' == w.(clock := time) && WellShaped(w') && Enabled(w', LoopStep) && Reaches(w, w')
  {
    ReachesByStep(w, Tick(time - w.clock));
    w' := Apply(w, Tick(time - w.clock));
    hide Reaches;
  }

  lemma VisitScans(w: Wheel)
    requires WellShaped(w) && Enabled(w, LoopStep) && w.pc == Visit
    ensures w.idx < |Loop(w).buckets| && Loop(w).buckets[w.idx].scanOver == w.clock
  {
    LoopScans(w);
    hide Loop, Fetched;
  }

  /** One action of the loop thread. */
  lemma Goes(w0: Wheel, w: Wheel) returns (w': Wheel)
    requires WellShaped(w0) && Reaches(w0, w) && WellShaped(w) && Enabled(w, LoopStep)
    ensures w' == Loop(w) && WellShaped(w') && Reaches(w0, w') && w'.lost == NothingLost
    ensures w'.pc == NextPc(w) && w'.clock == w.clock && w'.stop == w.stop && w'.precision == w.precision
    ensures w'.visits == (if w.pc.Visit? then w.visits + 1 else w.visits)
    ensures w'.idx == (if w.pc.Advance? then (w.idx + 1) % BUCKET_NUM else w.idx)
  {
    LoopKeeps(w);
    LoopProgress(w);
    LoopMoves(w);
    hide Loop, Reaches, WellShaped;
    ReachesThen(w0, w, LoopStep);
    w' := Loop(w);
  }
}
