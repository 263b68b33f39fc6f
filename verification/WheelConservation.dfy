/** No frame is forgotten or committed twice by the timing wheel, and when its queues lose one. */
module WheelConservation {
  import opened QueueModel
  import opened TimeWheel
  import opened WheelTiming

  function Waiting(buckets: seq<Bucket>, f: Frame): nat {
    if buckets == [] then 0
    else
      var n := |buckets| - 1;
      Waiting(buckets[..n], f) + multiset(buckets[n].waiting.chain)[f]
  }

  function Committed(commits: seq<Commit>, f: Frame): nat {
    if commits == [] then 0
    else
      var n := |commits| - 1;
      Committed(commits[..n], f) + if commits[n].frame == f then 1 else 0
  }

  function LostCount(w: Wheel, f: Frame): nat {
    if w.lost == Lost(f) then 1 else 0
  }

  /** Every registration of f that was begun is in exactly one place. */
  ghost predicate Conserved(w: Wheel, f: Frame) {
    w.begun[f] ==
    w.registering[f] + w.missed[f] + LostCount(w, f) + Waiting(w.buckets, f) + multiset(w.ready)[f] + Committed(w.commits, f)
  }

  lemma {:induction false} WaitingOfUpdate(buckets: seq<Bucket>, k: nat, b: Bucket, f: Frame)
    requires k < |buckets|
    ensures Waiting(buckets[k := b], f) + multiset(buckets[k].waiting.chain)[f]
         == Waiting(buckets, f) + multiset(b.waiting.chain)[f]
  {
    var n := |buckets| - 1;
    var updated := buckets[k := b];
    assert updated[n] == if k < n then buckets[n] else b;
    if k < n {
      WaitingOfUpdate(buckets[..n], k, b, f);
      assert updated[..n] == buckets[..n][k := b];
    } else {
      assert updated[..n] == buckets[..n];
    }
  }

  lemma CommittedOneMore(commits: seq<Commit>, c: Commit, f: Frame)
    ensures Committed(commits + [c], f) == Committed(commits, f) + if c.frame == f then 1 else 0
  {
    assert (commits + [c])[..|commits|] == commits;
  }

  lemma {:induction false} WaitingOfNone(buckets: seq<Bucket>, f: Frame)
    requires forall k :: 0 <= k < |buckets| ==> buckets[k].waiting.chain == []
    ensures Waiting(buckets, f) == 0
  {
    if buckets != [] { WaitingOfNone(buckets[..|buckets| - 1], f); }
  }

  lemma {:induction false} InSomeBucket(buckets: seq<Bucket>, f: Frame)
    requires Waiting(buckets, f) > 0
    ensures exists k :: 0 <= k < |buckets| && f in buckets[k].waiting.chain
  {
    if buckets != [] {
      var n := |buckets| - 1;
      if f !in buckets[n].waiting.chain {
        InSomeBucket(buckets[..n], f);
        var k :| 0 <= k < n && f in buckets[..n][k].waiting.chain;
        assert f in buckets[k].waiting.chain;
      }
    }
  }

  lemma ScanConserves(w: Wheel, k: nat, force: bool, f: Frame)
    requires WellShaped(w) && k < BUCKET_NUM
    ensures Waiting(w.buckets[k := Scanned(w, k, force)], f) +
              multiset(Fetched(w.buckets[k].waiting.chain, Condition(w.clock, force)))[f]
         == Waiting(w.buckets, f)
  {
    var condition := Condition(w.clock, force);
    var chain := w.buckets[k].waiting.chain;
    var b := Scanned(w, k, force);
    FetchPartitions(chain, condition);
    assert multiset(chain)[f] == multiset(b.waiting.chain)[f] + multiset(Fetched(chain, condition))[f];
    hide Kept, Fetched, Waiting, Scanned, WellShaped;
    WaitingOfUpdate(w.buckets, k, b, f);
  }

  /** What the critical section of register_frame does to the places a frame can be in. */
  lemma LockPlaces(w: Wheel, g: Frame)
    requires WellShaped(w) && HasBucket(w, g)
    ensures var w' := Lock(w, g);
      var k := RealIndex(w, g);
      var b := w.buckets[k];
      && w'.begun == w.begun && w'.ready == w.ready && w'.commits == w.commits
      && w'.registering == w.registering - multiset{g}
      && if b.scanOver >= g.wake then
           w'.missed == w.missed + multiset{g} && w'.lost == w.lost && w'.buckets == w.buckets
         else
           && w'.missed == w.missed && w'.lost == (if b.waiting.attached then w.lost else Lost(g))
           && w'.buckets == w.buckets[k := b.(waiting := Append(b.waiting, g))]
  {
    hide HasBucket, RealIndex, Append, WellShaped;
  }

  lemma AppendCounts(buckets: seq<Bucket>, k: nat, g: Frame, f: Frame)
    requires k < |buckets| && buckets[k].waiting.Valid()
    ensures Waiting(buckets[k := buckets[k].(waiting := Append(buckets[k].waiting, g))], f)
         == Waiting(buckets, f) + if f == g && buckets[k].waiting.attached then 1 else 0
  {
    var b := buckets[k];
    var updated := b.(waiting := Append(b.waiting, g));
    assert updated.waiting.chain == b.waiting.chain + if b.waiting.attached then [g] else [];
    WaitingOfUpdate(buckets, k, updated, f);
    hide Waiting, Append;
  }

  lemma LockConserves(w: Wheel, g: Frame, f: Frame)
    requires WellShaped(w) && Conserved(w, f) && HasBucket(w, g) && g in w.registering && w.lost == NothingLost
    ensures Conserved(Lock(w, g), f)
  {
    LockPlaces(w, g);
    var k := RealIndex(w, g);
    var b := w.buckets[k];
    assert b.waiting.Valid();
    hide Lock, RealIndex, HasBucket, WellShaped, Append, Waiting, Committed;
    if b.scanOver < g.wake { AppendCounts(w.buckets, k, g, f); }
  }

  lemma TakeFirst(ready: seq<Frame>, commits: seq<Commit>, c: Commit, f: Frame)
    requires ready != [] && c.frame == ready[0]
    ensures multiset(ready[1..])[f] + Committed(commits + [c], f) == multiset(ready)[f] + Committed(commits, f)
  {
    CommittedOneMore(commits, c, f);
    assert ready == [ready[0]] + ready[1..];
    hide Committed;
  }

  lemma LoopConserves(w: Wheel, f: Frame)
    requires WellShaped(w) && Conserved(w, f) && ReadyOk(w) && Enabled(w, LoopStep)
    ensures Conserved(Loop(w), f)
  {
    hide Loop, WellShaped, Enabled, Conserved;
    if ScansNow(w) >= 0 { ScanningConserves(w, f); } else { CommittingConserves(w, f); }
  }

  lemma ScanningConserves(w: Wheel, f: Frame)
    requires WellShaped(w) && Conserved(w, f) && ReadyOk(w) && Enabled(w, LoopStep) && ScansNow(w) >= 0
    ensures Conserved(Loop(w), f)
  {
    LoopKeeps(w);
    LoopScans(w);
    var k := ScansNow(w);
    hide Loop, WellShaped, Enabled, Scanned, Fetched, Condition, Waiting, Committed;
    ScanConserves(w, k, w.pc.Sweep?, f);
  }

  lemma CommittingConserves(w: Wheel, f: Frame)
    requires WellShaped(w) && Conserved(w, f) && ReadyOk(w) && Enabled(w, LoopStep) && ScansNow(w) < 0
    ensures Conserved(Loop(w), f)
  {
    LoopKeeps(w);
    LoopScans(w);
    hide Loop, WellShaped, Enabled, Scanned, Fetched, Condition, Waiting, Committed;
    LoopCommits(w);
    if CommitsNow(w) {
      TakeFirst(w.ready, w.commits, Commit(w.ready[0], w.clock, w.pc.SweepDrain?), f);
    }
  }

  lemma BeginConserves(w: Wheel, step: Step, f: Frame)
    requires WellShaped(w) && Conserved(w, f) && step.BeginRegister? && Enabled(w, step)
    ensures Conserved(Apply(w, step), f)
  {
    hide Waiting, Committed;
  }

  lemma MissedConserves(w: Wheel, step: Step, f: Frame)
    requires WellShaped(w) && Conserved(w, f) && step.CommitMissed? && Enabled(w, step)
    ensures Conserved(Apply(w, step), f)
  {
    CommittedOneMore(w.commits, Commit(step.f, w.clock, false), f);
    hide Waiting, Committed, WellShaped;
  }

  lemma ConservedStep(w: Wheel, step: Step, f: Frame)
    requires WellShaped(w) && Conserved(w, f) && ReadyOk(w) && Enabled(w, step)
    ensures Conserved(Apply(w, step), f)
  {
    hide Loop, Lock, WellShaped, Waiting, Committed;
    match step
    case LoopStep => LoopConserves(w, f);
    case LockRegister(g) => LockConserves(w, g, f);
    case BeginRegister(_, _, _) => BeginConserves(w, step, f);
    case CommitMissed(_) => MissedConserves(w, step, f);
    case _ => assert Conserved(Apply(w, step), f);
    hide Conserved, Enabled, ReadyOk;
  }

  /** A bucket that has been swept holds only frames that were queued after the sweep. */
  ghost predicate SweptOk(w: Wheel)
    requires WellShaped(w)
  {
    forall k :: 0 <= k < BUCKET_NUM && Swept(w.pc, k) ==> forall f | f in w.buckets[k].waiting.chain :: f in w.late
  }

  lemma SweptLoop(w: Wheel)
    requires WellShaped(w) && SweptOk(w) && Enabled(w, LoopStep) && WellShaped(Loop(w))
    ensures SweptOk(Loop(w))
  {
    LoopKeeps(w);
    LoopMoves(w);
    LoopScans(w);
    assert |w.buckets| == BUCKET_NUM;
    if w.pc.Sweep? && w.pc.k < BUCKET_NUM {
      var chain := w.buckets[w.pc.k].waiting.chain;
      KeptMembers(chain, Any());
      assert Scanned(w, w.pc.k, true).waiting.chain == Kept(chain, Any());
      assert forall f | f in Kept(chain, Any()) :: false;
    }
    hide Loop, Scanned, Kept, Fetched, WellShaped, Enabled;
  }

  lemma SweptLock(w: Wheel, f: Frame)
    requires WellShaped(w) && SweptOk(w) && HasBucket(w, f) && WellShaped(Lock(w, f))
    ensures SweptOk(Lock(w, f))
  {
    hide HasBucket, RealIndex;
  }

  lemma SweptStep(w: Wheel, step: Step)
    requires WellShaped(w) && SweptOk(w) && Enabled(w, step) && WellShaped(Apply(w, step))
    ensures SweptOk(Apply(w, step))
  {
    hide Loop, Lock, WellShaped;
    if step.LoopStep? {
      SweptLoop(w);
    } else if step.LockRegister? {
      SweptLock(w, step.f);
    } else {
      hide Enabled;
      assert SweptOk(Apply(w, step));
    }
    hide SweptOk, Enabled;
  }

  lemma ConservationInit(w: Wheel, f: Frame)
    requires Init(w)
    ensures Inv(w) && Conserved(w, f) && SweptOk(w)
  {
    InvInit(w);
    WaitingOfNone(w.buckets, f);
  }

  lemma {:induction false} ConservationRun(w: Wheel, steps: seq<Step>, w': Wheel, f: Frame)
    requires Inv(w) && Conserved(w, f) && SweptOk(w) && Leads(w, steps, w')
    ensures Inv(w') && Conserved(w', f) && SweptOk(w')
    decreases |steps|
  {
    if steps != [] {
      InvStep(w, steps[0]);
      ConservedStep(w, steps[0], f);
      SweptStep(w, steps[0]);
      ConservationRun(Apply(w, steps[0]), steps[1..], w', f);
    }
    hide Clockwork, Visited, BucketsOk, TransitOk, ReadyOk, Apply, Enabled, SweptOk, Conserved, WellShaped;
  }

  // ---------- the guarantees ----------

  /** In every reachable state, each registration that was begun is in exactly one place: on its
      way to a bucket, missed and about to be committed, waiting, fetched, committed or lost. */
  lemma NothingForgotten(w0: Wheel, steps: seq<Step>, w: Wheel, f: Frame)
    requires Init(w0) && Leads(w0, steps, w)
    ensures Conserved(w, f)
  {
    ConservationInit(w0, f);
    ConservationRun(w0, steps, w, f);
    hide *;
  }

  /** Once the visit a frame is due at is over, the frame has been committed as often as it has
      been registered, unless it has not yet reached the lock or the commit of a late arrival. */
  lemma CommittedWhenDue(w0: Wheel, steps: seq<Step>, w: Wheel, f: Frame)
    requires Init(w0) && Leads(w0, steps, w) && HasBucket(w, f) && 2 <= Due(w, f) <= w.visits
    requires w.pc != Drain && !w.pc.SweepDrain? && f !in w.registering && f !in w.missed && w.lost != Lost(f)
    ensures Committed(w.commits, f) == w.begun[f]
  {
    ConservationInit(w0, f);
    ConservationRun(w0, steps, w, f);
    Punctual(w0, steps, w, f);
    if Waiting(w.buckets, f) > 0 { InSomeBucket(w.buckets, f); }
    hide Leads, Init, WellShaped, Waiting, Committed, HasBucket, Due, Clockwork, Visited, BucketsOk, TransitOk;
  }

  /** A frame that waits although its wake time has passed has been committed as often as it has been
      registered after the next 4096 visits, unless another registration of it is under way. */
  lemma CommittedWithinRevolution(w0: Wheel, steps: seq<Step>, w: Wheel, more: seq<Step>, w': Wheel, k: nat, f: Frame)
    requires Init(w0) && Leads(w0, steps, w) && WellShaped(w) && Leads(w, more, w') && WellShaped(w')
    requires k < BUCKET_NUM && f in w.buckets[k].waiting.chain && f.wake <= w.clock
    requires w'.visits >= w.visits + BUCKET_NUM && w'.pc != Drain && !w'.pc.SweepDrain?
    requires f !in w'.registering && f !in w'.missed && w'.lost != Lost(f)
    ensures Committed(w'.commits, f) == w'.begun[f]
  {
    ConservationInit(w0, f);
    ConservationRun(w0, steps, w, f);
    ConservationRun(w, more, w', f);
    BoundedWakeup(w0, steps, w, more, w', k, f);
    hide Leads, Init, WellShaped, Waiting, Committed, Clockwork, Visited, BucketsOk, TransitOk, SweptOk;
    if Waiting(w'.buckets, f) > 0 { InSomeBucket(w'.buckets, f); }
  }

  /** When the loop thread has ended, every frame that was queued before its bucket was swept has
      been committed exactly as often as it was registered. */
  lemma SweepLeavesNothing(w0: Wheel, steps: seq<Step>, w: Wheel, f: Frame)
    requires Init(w0) && Leads(w0, steps, w) && w.pc == Halted
    requires f !in w.registering && f !in w.missed && w.lost != Lost(f) && f !in w.late
    ensures Committed(w.commits, f) == w.begun[f]
  {
    ConservationInit(w0, f);
    ConservationRun(w0, steps, w, f);
    if Waiting(w.buckets, f) > 0 {
      InSomeBucket(w.buckets, f);
    }
    hide Leads, Init, WellShaped, Waiting, Committed, Clockwork, Visited, BucketsOk, TransitOk;
  }

  // ---------- first fetched, first committed ----------

  predicate Draining(w: Wheel) {
    w.pc == Drain || w.pc.SweepDrain?
  }

  function LoopStepsIn(steps: seq<Step>): nat {
    if steps == [] then 0 else (if steps[0].LoopStep? then 1 else 0) + LoopStepsIn(steps[1..])
  }

  lemma DrainsFirst(w: Wheel, step: Step)
    requires WellShaped(w) && Enabled(w, step) && Draining(w) && w.ready != []
    ensures var w' := Apply(w, step);
      && w'.pc == w.pc
      && if step.LoopStep? then
           w'.ready == w.ready[1..] && w'.commits == w.commits + [Commit(w.ready[0], w.clock, w.pc != Drain)]
         else w'.ready == w.ready
  {
    hide WellShaped, HasBucket, RealIndex, Append, BucketIndex;
  }

  /** The frames of one scan are committed in the order in which they were queued, one at each step of
      the loop thread, whatever the other threads do meanwhile. */
  lemma {:induction false} CommittedInOrder(w: Wheel, steps: seq<Step>, w': Wheel)
    requires WellShaped(w) && Leads(w, steps, w') && Draining(w) && LoopStepsIn(steps) < |w.ready|
    ensures WellShaped(w') && w'.pc == w.pc && w'.ready == w.ready[LoopStepsIn(steps)..]
    ensures w'.lost == NothingLost ==>
      Enabled(w', LoopStep) &&
      Apply(w', LoopStep).commits == w'.commits + [Commit(w.ready[LoopStepsIn(steps)], w'.clock, w.pc != Drain)]
    decreases |steps|
  {
    hide WellShaped, Apply;
    if steps == [] {
      if w.lost == NothingLost {
        assert Enabled(w, LoopStep);
        DrainsFirst(w, LoopStep);
      }
    } else {
      StaysWellShaped(w, steps[0]);
      DrainsFirst(w, steps[0]);
      CommittedInOrder(Apply(w, steps[0]), steps[1..], w');
    }
  }
}
