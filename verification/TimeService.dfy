/** The methods of the time service (src/coroutine_framework/time_module/time_service.cpp) as they
update its fields. The ghost field `wheel` is the step system of module TimeWheel: every store and
every critical section below is one of its steps, and between any two of them the other threads
may take any number of steps of their own. */
module TimeService {
  import opened QueueModel
  import opened TimeWheel

  class TimeService {
    const precision: nat
    var stopFlag: bool
    var startBucketRunTs: nat
    var revolution: nat         // how often the start has been stored: only labels the frames
    var buckets: array<Bucket>
    var clock: nat              // the steady clock
    var commits: seq<Commit>    // what has been handed to the scheduler
    ghost var wheel: Wheel

    ghost predicate Valid()
      reads this, buckets
    {
      && WellShaped(wheel) && precision == wheel.precision && stopFlag == wheel.stop
      && startBucketRunTs == Start(wheel) && revolution == |wheel.starts| - 1
      && buckets[..] == wheel.buckets && clock == wheel.clock && commits == wheel.commits
    }

    constructor (precision: nat, now: nat)
      requires precision > 0
      ensures Valid() && Init(wheel) && fresh(buckets)
      ensures wheel.precision == precision && wheel.starts == [now] && !wheel.stop
    {
      this.precision, stopFlag, startBucketRunTs, revolution := precision, false, now, 0;
      clock, commits := now, [];
      var empty := new Bucket[BUCKET_NUM](_ => Bucket(0, EmptyQueue()));
      buckets := empty;
      wheel := Wheel(precision, now, false, [now], seq(BUCKET_NUM, _ => Bucket(0, EmptyQueue())), Advance, 0, [],
        multiset{}, multiset{}, NothingLost, 0, multiset{}, [], multiset{});
      new;
      assert buckets[..] == wheel.buckets;
    }

    /** The other threads take steps: the clock advances, frames are registered, the service is
        stopped. `mine` are this thread's own frames on their way to a bucket or to a commit. */
    method Others(ghost mine: multiset<Frame>)
      requires Valid() && wheel.lost == NothingLost
      modifies this, buckets
      ensures Valid() && buckets == old(buckets) && wheel.lost == NothingLost
      ensures Reaches(old(wheel), wheel)
      ensures mine <= old(wheel).registering ==> mine <= wheel.registering
      ensures mine <= old(wheel).missed ==> mine <= wheel.missed
      ensures SameLoop(old(wheel), wheel)
    {
      var d: nat :| d >= 0;
      clock := clock + d;
      ReachesByStep(wheel, Tick(d));
      wheel := Apply(wheel, Tick(d));
    }

    /** The wait ends when the service is stopped or the time has come; the thread then runs again at
        most `slack` later. */
    method WaitUntil(time: nat, slack: nat)
      requires Valid() && wheel.lost == NothingLost
      modifies this, buckets
      ensures Valid() && buckets == old(buckets) && wheel.lost == NothingLost
      ensures Reaches(old(wheel), wheel) && SameLoop(old(wheel), wheel)
      ensures stopFlag || time <= clock <= Max(old(clock), time) + slack
    {
      if clock < time {
        var late: nat :| late <= slack;
        ReachesByStep(wheel, Tick(time + late - clock));
        wheel := Apply(wheel, Tick(time + late - clock));
        clock := time + late;
      } else {
        ReachesSelf(wheel);
      }
    }

    /** The critical section of register_frame. */
    method LockBucket(frame: Frame, k: nat) returns (missAwaken: bool)
      requires Valid() && wheel.lost == NothingLost && frame in wheel.registering
      requires HasBucket(wheel, frame) && k == RealIndex(wheel, frame)
      modifies this`wheel, buckets
      ensures Valid() && buckets == old(buckets) && wheel == Lock(old(wheel), frame)
      ensures missAwaken <==> old(wheel).buckets[k].scanOver >= frame.wake
    {
      hide RealIndex, HasBucket;
      LockShape(wheel, frame);
      var bucket := buckets[k];
      assert bucket == wheel.buckets[k];
      missAwaken := bucket.scanOver >= frame.wake;
      if !missAwaken {
        buckets[k] := bucket.(waiting := Append(bucket.waiting, frame));
        assert buckets[..] == wheel.buckets[k := buckets[k]];
      }
      hide Append;
      wheel := Lock(wheel, frame);
    }

    /** The frame is committed at once, or queued in its bucket, or lost there. */
    method RegisterFrame(coro: nat, suspension: nat, wake: nat) returns (ghost missed: bool)
      requires Valid() && wheel.lost == NothingLost
      modifies this, buckets
      ensures Valid() && buckets == old(buckets)
      ensures var frame := Frame(coro, suspension, wake, old(revolution));
        && (old(startBucketRunTs) >= wake ==> missed)
        && Performs(old(wheel), RegisterSteps(frame, old(startBucketRunTs), missed), wheel)
        && (missed ==> wheel.commits != [] && wheel.commits[|wheel.commits| - 1] == Commit(frame, clock, false))
        && (!missed ==> HasBucket(wheel, frame) && wheel.buckets[RealIndex(wheel, frame)].scanOver < wake)
        && (!missed && wheel.lost == NothingLost ==>
              frame in wheel.buckets[RealIndex(wheel, frame)].waiting.chain)
    {
      hide Apply, Enabled, WellShaped, Performs;
      var start := startBucketRunTs;
      var frame := Frame(coro, suspension, wake, revolution);
      ghost var w0, begin := wheel, BeginRegister(coro, suspension, wake);
      BeginStep(wheel, frame);
      PerformsNothing(wheel);
      PerformsThen(w0, [], wheel, begin);
      assert [] + [begin] == [begin];
      wheel := Apply(wheel, begin);
      var missAwaken := false;
      ghost var mine := [begin];
      if start >= wake {
        missAwaken := true;
      } else {
        var calculatedBucketIdx := (wake - start - 1) / precision + 1;
        var realBucketIdx := calculatedBucketIdx % BUCKET_NUM;
        assert RealIndex(wheel, frame) == realBucketIdx;
        hide HasBucket, RealIndex;
        missAwaken := QueueFrame(w0, mine, frame, realBucketIdx);
        mine := mine + [LockRegister(frame)];
      }
      missed := missAwaken;
      hide HasBucket, RealIndex;
      if missAwaken {
        CommitMissedFrame(w0, mine, frame);
        mine := mine + [CommitMissed(frame)];
      }
      assert mine == RegisterSteps(frame, start, missed);
    }

    method QueueFrame(ghost w0: Wheel, ghost mine: seq<Step>, frame: Frame, k: nat) returns (missAwaken: bool)
      requires Valid() && wheel.lost == NothingLost && frame in wheel.registering
      requires HasBucket(wheel, frame) && k == RealIndex(wheel, frame)
      requires WellShaped(w0) && Performs(w0, mine, wheel)
      modifies this, buckets
      ensures Valid() && buckets == old(buckets) && Performs(w0, mine + [LockRegister(frame)], wheel)
      ensures missAwaken ==> wheel.lost == NothingLost && frame in wheel.missed
      ensures !missAwaken ==> HasBucket(wheel, frame) && RealIndex(wheel, frame) == k
      ensures !missAwaken ==> wheel.buckets[k].scanOver < frame.wake
      ensures !missAwaken && wheel.lost == NothingLost ==> frame in wheel.buckets[k].waiting.chain
    {
      hide Lock, WellShaped, Reaches, Performs;
      ghost var w := wheel;
      Others(multiset{frame});
      assert HasBucket(wheel, frame) && RealIndex(wheel, frame) == k;
      hide HasBucket, RealIndex, SameLoop;
      assert Enabled(wheel, LockRegister(frame));
      hide Enabled;
      PerformsOn(w0, mine, w, wheel);
      PerformsThen(w0, mine, wheel, LockRegister(frame));
      LockOutcome(wheel, frame);
      missAwaken := LockBucket(frame, k);
    }

    method CommitMissedFrame(ghost w0: Wheel, ghost mine: seq<Step>, frame: Frame)
      requires Valid() && wheel.lost == NothingLost && frame in wheel.missed
      requires WellShaped(w0) && Performs(w0, mine, wheel)
      modifies this, buckets
      ensures Valid() && buckets == old(buckets) && Performs(w0, mine + [CommitMissed(frame)], wheel)
      ensures wheel.commits != [] && wheel.commits[|wheel.commits| - 1] == Commit(frame, clock, false)
    {
      hide Reaches, WellShaped, Apply, Performs;
      ghost var w := wheel;
      Others(multiset{frame});
      PerformsOn(w0, mine, w, wheel);
      assert frame in wheel.missed;
      assert Enabled(wheel, CommitMissed(frame));
      hide Enabled, SameLoop;
      PerformsThen(w0, mine, wheel, CommitMissed(frame));
      CommitMissedStep(wheel, frame);
      commits := commits + [Commit(frame, clock, false)];
      wheel := Apply(wheel, CommitMissed(frame));
    }

    /** wakeup_frame_on_bucket_: scans one bucket and commits what the scan fetched, one frame a step. */
    method WakeupFrameOnBucket(idx: nat, forceAwake: bool)
      requires Valid() && wheel.lost == NothingLost && idx < BUCKET_NUM
      requires wheel.pc == (if forceAwake then Sweep(idx) else Visit) && (!forceAwake ==> wheel.idx == idx)
      modifies this, buckets
      ensures Valid() && buckets == old(buckets) && wheel.lost == NothingLost
      ensures var fetched := Fetched(old(wheel).buckets[idx].waiting.chain, Condition(old(clock), forceAwake));
        WellShaped(old(wheel)) && LastStepWas(old(wheel), |fetched| + 2, wheel)
      ensures wheel.pc == (if forceAwake then Sweep(idx + 1) else Wait)
      ensures wheel.ready == [] && wheel.starts == old(wheel).starts && wheel.idx == old(wheel).idx
      ensures wheel.visits == old(wheel).visits + if forceAwake then 0 else 1
    {
      ghost var w0 := wheel;
      hide Loop, WellShaped, Performs, LoopSteps;
      var ready := ScanBucket(idx, forceAwake);
      ghost var fetched := ready;
      while ready != []
        invariant Valid() && buckets == old(buckets) && wheel.lost == NothingLost
        invariant |ready| <= |fetched| && Performs(w0, LoopSteps(1 + |fetched| - |ready|), wheel)
        invariant wheel.ready == ready && WellShaped(w0)
        invariant wheel.pc == (if forceAwake then SweepDrain(idx) else Drain)
        invariant wheel.starts == w0.starts && wheel.idx == w0.idx
        invariant wheel.visits == w0.visits + if forceAwake then 0 else 1
        decreases |ready|
      {
        ready := CommitNext(w0, 1 + |fetched| - |ready|, ready, forceAwake);
      }
      DrainOver(wheel);
      OneLoopStep(w0, |fetched| + 1, wheel);
      JustNow(w0, |fetched| + 1, wheel);
      wheel := Loop(wheel);
    }

    method ScanBucket(idx: nat, forceAwake: bool) returns (ready: seq<Frame>)
      requires Valid() && wheel.lost == NothingLost && idx < BUCKET_NUM
      requires wheel.pc == (if forceAwake then Sweep(idx) else Visit) && (!forceAwake ==> wheel.idx == idx)
      modifies this`wheel, buckets
      ensures Valid() && buckets == old(buckets) && wheel.lost == NothingLost
      ensures WellShaped(old(wheel)) && Performs(old(wheel), LoopSteps(1), wheel) && wheel.ready == ready
      ensures ready == Fetched(old(wheel).buckets[idx].waiting.chain, Condition(old(clock), forceAwake))
      ensures wheel.pc == (if forceAwake then SweepDrain(idx) else Drain)
      ensures wheel.starts == old(wheel).starts && wheel.idx == old(wheel).idx
      ensures wheel.visits == old(wheel).visits + if forceAwake then 0 else 1
    {
      hide Loop, Reaches, Fetched, Fetch, Condition, Enabled, Performs;
      ScanStep(wheel, idx, forceAwake);
      PerformsNothing(wheel);
      assert LoopSteps(0) == [];
      OneLoopStep(wheel, 0, wheel);
      hide LoopSteps;
      var bucket := buckets[idx];
      assert bucket == wheel.buckets[idx];
      var scanOver := clock;
      var condition := Condition(scanOver, forceAwake);
      ready := Fetched(bucket.waiting.chain, condition);
      buckets[idx] := Bucket(scanOver, Fetch(bucket.waiting, condition));
      assert buckets[..] == wheel.buckets[idx := buckets[idx]];
      hide WellShaped;
      wheel := Loop(wheel);
    }

    method CommitNext(ghost w0: Wheel, ghost n: nat, ready: seq<Frame>, forceAwake: bool) returns (rest: seq<Frame>)
      requires Valid() && wheel.lost == NothingLost && ready != [] && wheel.ready == ready
      requires wheel.pc == (if forceAwake then SweepDrain(if wheel.pc.SweepDrain? then wheel.pc.k else 0) else Drain)
      requires WellShaped(w0) && Performs(w0, LoopSteps(n), wheel)
      modifies this, buckets
      ensures Valid() && buckets == old(buckets) && wheel.lost == NothingLost
      ensures Performs(w0, LoopSteps(n + 1), wheel) && wheel.ready == rest == ready[1..]
      ensures wheel.pc == old(wheel).pc && wheel.starts == old(wheel).starts && wheel.idx == old(wheel).idx
      ensures wheel.visits == old(wheel).visits
    {
      ghost var w := wheel;
      hide Reaches, Performs, LoopSteps, Loop;
      Others(multiset{});
      PerformsOn(w0, LoopSteps(n), w, wheel);
      var frame := ready[0];
      rest := ready[1..];
      commits := commits + [Commit(frame, clock, forceAwake)];
      CommitsOne(wheel);
      OneLoopStep(w0, n, wheel);
      hide WellShaped, SameLoop;
      wheel := Loop(wheel);
    }

    /** A step that only moves the loop thread on. */
    ghost method MoveOn(w0: Wheel, n: nat)
      requires Valid() && Enabled(wheel, LoopStep) && (wheel.pc == Advance || wheel.pc == Wait)
      requires WellShaped(w0) && Performs(w0, LoopSteps(n), wheel)
      modifies this`wheel
      ensures Valid() && Performs(w0, LoopSteps(n + 1), wheel) && wheel.lost == NothingLost
      ensures clock == old(clock) && startBucketRunTs == old(startBucketRunTs) && wheel.visits == old(wheel).visits
      ensures wheel.pc == NextPc(old(wheel)) && wheel.ready == old(wheel).ready
      ensures wheel.idx == if old(wheel).pc == Advance then NextIdx(old(wheel).idx) else old(wheel).idx
    {
      hide Loop, Performs, LoopSteps, Enabled;
      MovesOn(wheel);
      OneLoopStep(w0, n, wheel);
      hide WellShaped;
      wheel := Loop(wheel);
    }

    /** The top of the loop: the next bucket and, if that is bucket 0, the read of the clock and the
        store of the new start timestamp, with steps of others in between. */
    method NextBucket(idx: nat) returns (idx': nat)
      requires Valid() && wheel.lost == NothingLost && wheel.pc == Advance && wheel.idx == idx
      modifies this, buckets
      ensures Valid() && buckets == old(buckets) && wheel.lost == NothingLost
      ensures wheel.idx == idx' == NextIdx(idx) && wheel.pc == Visit && wheel.ready == old(wheel).ready
      ensures wheel.visits == old(wheel).visits
      ensures idx' != 0 ==> Performs(old(wheel), LoopSteps(1), wheel) && startBucketRunTs == old(startBucketRunTs)
      ensures idx' == 0 ==> Performs(old(wheel), LoopSteps(2), wheel) && startBucketRunTs == old(clock)
    {
      ghost var w0 := wheel;
      StartsWith(w0);
      idx' := NextIdx(idx);
      hide Reaches, Loop, Performs, LoopSteps, WellShaped, Enabled, NextPc, NextIdx;
      var now := clock;
      NextPcAtTop(wheel);
      MoveOn(w0, 0);
      if idx' == 0 { NewRevolution(w0, now); }
    }

    /** The store of the new start timestamp, some time after the clock has been read for it. */
    method NewRevolution(ghost w0: Wheel, now: nat)
      requires Valid() && wheel.lost == NothingLost && wheel.pc == Pc.StoreStart(now)
      requires WellShaped(w0) && Performs(w0, LoopSteps(1), wheel)
      modifies this, buckets
      ensures Valid() && buckets == old(buckets) && wheel.lost == NothingLost
      ensures Performs(w0, LoopSteps(2), wheel)
      ensures wheel.pc == Visit && wheel.idx == old(wheel).idx && wheel.ready == old(wheel).ready
      ensures startBucketRunTs == now && wheel.visits == old(wheel).visits
    {
      hide Reaches, Loop, Performs, LoopSteps, WellShaped, Enabled;
      ghost var w1 := wheel;
      Others(multiset{});
      WellShapedNow();
      PerformsOn(w0, LoopSteps(1), w1, wheel);
      StoreStart(w0, 1, now);
    }

    lemma WellShapedNow()
      requires Valid()
      ensures WellShaped(wheel)
    {
    }

    method StoreStart(ghost w0: Wheel, ghost n: nat, now: nat)
      requires Valid() && wheel.lost == NothingLost && wheel.pc == Pc.StoreStart(now)
      requires WellShaped(w0) && Performs(w0, LoopSteps(n), wheel)
      modifies this`wheel, this`startBucketRunTs, this`revolution
      ensures Valid() && Performs(w0, LoopSteps(n + 1), wheel) && wheel.lost == NothingLost
      ensures wheel.pc == Visit && wheel.idx == old(wheel).idx && wheel.ready == old(wheel).ready
      ensures startBucketRunTs == now && wheel.visits == old(wheel).visits
    {
      hide Loop, Performs, LoopSteps;
      StoresStart(wheel);
      OneLoopStep(w0, n, wheel);
      startBucketRunTs := now;
      revolution := revolution + 1;
      wheel := Loop(wheel);
      hide WellShaped;
    }

    /** The body of the loop up to the test of the stop flag: nothing but steps of the loop thread and
        of others, one visit, and a pause. `visited` is the state that the last step of the visit
        led to. Unless the service is stopped, the round ends as soon as the next bucket's time,
        counted from the start timestamp, has come: not before it, and at most `slack` after it or
        after the visit. */
    method Round(idx: nat, slack: nat) returns (idx': nat, ghost taken: nat, ghost visited: Wheel)
      requires Valid() && wheel.lost == NothingLost && wheel.pc == Advance && wheel.idx == idx
      modifies this, buckets
      ensures Valid() && buckets == old(buckets) && wheel.lost == NothingLost
      ensures WellShaped(old(wheel)) && LastStepWas(old(wheel), taken, visited)
      ensures WellShaped(visited) && visited.pc == Wait && visited.visits == old(wheel).visits + 1
      ensures Performs(visited, LoopSteps(1), wheel) && Performs(old(wheel), LoopSteps(taken + 1), wheel)
      ensures wheel.idx == idx' == NextIdx(idx) && wheel.visits == visited.visits
      ensures wheel.pc == (if stopFlag then Sweep(0) else Advance) && wheel.ready == []
      ensures var next := startBucketRunTs + precision * (idx' + 1);
        stopFlag || next <= clock <= Max(visited.clock, next) + slack
    {
      ghost var w0 := wheel;
      hide Reaches, Performs, LoopSteps, Max, NextIdx, WellShaped, LastStepWas;
      idx', taken := VisitNext(idx);
      visited := wheel;
      LastStepTaken(w0, taken, visited);
      PauseAfter(idx', slack);
      PerformsJoin(w0, LoopSteps(taken), visited, LoopSteps(1), wheel);
      LoopStepsJoin(taken, 1);
    }

    /** The pause after the scan, and the test of the stop flag. */
    method PauseAfter(idx: nat, slack: nat)
      requires Valid() && wheel.lost == NothingLost && wheel.pc == Wait && wheel.idx == idx && wheel.ready == []
      modifies this, buckets
      ensures Valid() && buckets == old(buckets) && wheel.lost == NothingLost
      ensures WellShaped(old(wheel)) && Performs(old(wheel), LoopSteps(1), wheel)
      ensures wheel.idx == idx && wheel.visits == old(wheel).visits
      ensures wheel.pc == (if stopFlag then Sweep(0) else Advance) && wheel.ready == []
      ensures var next := startBucketRunTs + precision * (idx + 1);
        stopFlag || next <= clock <= Max(old(clock), next) + slack
    {
      ghost var w1 := wheel;
      WellShapedNow();
      StartsWith(w1);
      hide Reaches, Performs, LoopSteps, Max, WellShaped;
      Pause(w1, 0, idx, slack);
      MoveOn(w1, 0);
    }

    /** The next bucket and its scan. */
    method VisitNext(idx: nat) returns (idx': nat, ghost taken: nat)
      requires Valid() && wheel.lost == NothingLost && wheel.pc == Advance && wheel.idx == idx
      modifies this, buckets
      ensures Valid() && buckets == old(buckets) && wheel.lost == NothingLost
      ensures WellShaped(old(wheel)) && LastStepWas(old(wheel), taken, wheel)
      ensures wheel.idx == idx' == NextIdx(idx) && wheel.pc == Wait && wheel.ready == []
      ensures wheel.visits == old(wheel).visits + 1
    {
      ghost var w0 := wheel;
      hide Reaches, Performs, LoopSteps, NextIdx;
      idx' := NextBucket(idx);
      ghost var w1, n1 := wheel, if idx' == 0 then 2 else 1;
      ghost var n2 := |Fetched(wheel.buckets[idx'].waiting.chain, Condition(clock, false))| + 2;
      WakeupFrameOnBucket(idx', false);
      assert WellShaped(w0) && WellShaped(w1);
      hide WellShaped, Fetched, LastStepWas;
      LastStepLater(w0, n1, w1, n2, wheel);
      taken := n1 + n2;
    }

    /** Continues at once if the next bucket's time has come, and waits for it otherwise. */
    method Pause(ghost w0: Wheel, ghost n: nat, idx: nat, slack: nat)
      requires Valid() && wheel.lost == NothingLost && wheel.pc == Wait && wheel.idx == idx
      requires WellShaped(w0) && Performs(w0, LoopSteps(n), wheel)
      modifies this, buckets
      ensures Valid() && buckets == old(buckets) && wheel.lost == NothingLost
      ensures Performs(w0, LoopSteps(n), wheel) && SameLoop(old(wheel), wheel) && Enabled(wheel, LoopStep)
      ensures var next := old(startBucketRunTs) + precision * (idx + 1);
        && startBucketRunTs == old(startBucketRunTs)
        && (old(clock) >= next ==> wheel == old(wheel))
        && (stopFlag || next <= clock <= Max(old(clock), next) + slack)
    {
      hide Reaches, Performs, LoopSteps;
      ghost var w1 := wheel;
      var nextRunTs := startBucketRunTs + precision * (idx + 1);
      var now := clock;
      if now < nextRunTs {
        WaitUntil(nextRunTs, slack);
        PerformsOn(w0, LoopSteps(n), w1, wheel);
      }
    }

    /** The forced scans of all buckets, in order. */
    method FinalSweep()
      requires Valid() && wheel.lost == NothingLost && wheel.pc == Sweep(0)
      modifies this, buckets
      ensures Valid() && buckets == old(buckets) && wheel.lost == NothingLost
      ensures Reaches(old(wheel), wheel) && wheel.pc == Halted && wheel.visits == old(wheel).visits
    {
      ghost var w0 := wheel;
      ReachesSelf(w0);
      hide Reaches, Loop, Performs, LoopSteps;
      for idx := 0 to BUCKET_NUM
        invariant Valid() && buckets == old(buckets) && wheel.lost == NothingLost
        invariant Reaches(w0, wheel) && wheel.pc == Sweep(idx) && wheel.visits == w0.visits
      {
        ghost var w1 := wheel;
        ghost var n := |Fetched(wheel.buckets[idx].waiting.chain, Condition(clock, true))| + 2;
        WakeupFrameOnBucket(idx, true);
        LastStepTaken(w1, n, wheel);
        PerformsReaches(w1, LoopSteps(n), wheel);
        ReachesTransitive(w0, w1, wheel);
      }
      LoopMoves(wheel);
      LoopProgress(wheel);
      LoopKeeps(wheel);
      LoopScans(wheel);
      LoopCommits(wheel);
      ReachesThen(w0, wheel, LoopStep);
      wheel := Loop(wheel);
      hide WellShaped;
    }

    /** The loop from its first round until it is stopped, and the forced scans after it. A thread
        that is never stopped is followed for `rounds` rounds; every round makes one visit. */
    method RunLoop(rounds: nat, slack: nat) returns (ended: bool, ghost taken: nat)
      requires Valid() && wheel.lost == NothingLost && wheel.pc == Advance && wheel.idx == 0
      modifies this, buckets
      ensures Valid() && buckets == old(buckets) && wheel.lost == NothingLost
      ensures Reaches(old(wheel), wheel) && wheel.pc == (if ended then Halted else Advance)
      ensures taken <= rounds && (ended || taken == rounds) && wheel.visits == old(wheel).visits + taken
    {
      ghost var w0 := wheel;
      ReachesSelf(w0);
      hide Reaches, Loop, Performs, LoopSteps, Max;
      var idx, n := 0, 0;
      ended := false;
      while n < rounds && !ended
        invariant Valid() && buckets == old(buckets) && wheel.lost == NothingLost
        invariant Reaches(w0, wheel) && wheel.pc == (if ended then Sweep(0) else Advance) && wheel.idx == idx
        invariant n <= rounds && wheel.visits == w0.visits + n
        decreases rounds - n
      {
        ghost var w1, steps, visited := wheel, 0, wheel;
        idx, steps, visited := Round(idx, slack);
        PerformsReaches(w1, LoopSteps(steps + 1), wheel);
        ReachesTransitive(w0, w1, wheel);
        ended := stopFlag;
        n := n + 1;
      }
      taken := n;
      if ended {
        ghost var w1 := wheel;
        FinalSweep();
        ReachesTransitive(w0, w1, wheel);
      }
    }
  }

  /** From w0 to w the loop thread takes n steps, among any number of steps of others, and nothing
      happens after the last of them. */
  ghost predicate LastStepWas(w0: Wheel, n: nat, w: Wheel)
    requires WellShaped(w0)
  {
    n > 0 && exists v :: Performs(w0, LoopSteps(n - 1), v) && WellShaped(v) && Enabled(v, LoopStep) && w == Loop(v)
  }

  lemma JustNow(w0: Wheel, n: nat, w: Wheel)
    requires WellShaped(w0) && Performs(w0, LoopSteps(n), w) && WellShaped(w) && Enabled(w, LoopStep)
    ensures LastStepWas(w0, n + 1, Loop(w))
  {
    hide Performs, LoopSteps, Loop, Enabled, WellShaped;
  }

  lemma StateBefore(w0: Wheel, n: nat, w: Wheel) returns (v: Wheel)
    requires WellShaped(w0) && LastStepWas(w0, n, w)
    ensures n > 0 && Performs(w0, LoopSteps(n - 1), v) && WellShaped(v) && Enabled(v, LoopStep) && w == Loop(v)
  {
    v :| Performs(w0, LoopSteps(n - 1), v) && WellShaped(v) && Enabled(v, LoopStep) && w == Loop(v);
    hide *;
  }

  lemma LastStepTaken(w0: Wheel, n: nat, w: Wheel)
    requires WellShaped(w0) && LastStepWas(w0, n, w)
    ensures WellShaped(w) && Performs(w0, LoopSteps(n), w)
  {
    hide *;
    var v := StateBefore(w0, n, w);
    OneLoopStep(w0, n - 1, v);
  }

  lemma LastStepLater(w0: Wheel, n1: nat, w1: Wheel, n2: nat, w2: Wheel)
    requires WellShaped(w0) && Performs(w0, LoopSteps(n1), w1) && WellShaped(w1) && LastStepWas(w1, n2, w2)
    ensures LastStepWas(w0, n1 + n2, w2)
  {
    hide *;
    var v := StateBefore(w1, n2, w2);
    PerformsJoin(w0, LoopSteps(n1), w1, LoopSteps(n2 - 1), v);
    LoopStepsJoin(n1, n2 - 1);
    JustNow(w0, n1 + n2 - 1, v);
  }

  function Max(a: int, b: int): int {
    if a < b then b else a
  }

  lemma NextPcAtTop(w: Wheel)
    requires w.pc == Advance
    ensures NextPc(w) == if NextIdx(w.idx) == 0 then Pc.StoreStart(w.clock) else Visit
  {
  }

  lemma StartsWith(w: Wheel)
    requires WellShaped(w)
    ensures Performs(w, LoopSteps(0), w)
    ensures w.lost == NothingLost && w.pc == Advance ==> Enabled(w, LoopStep)
  {
    PerformsNothing(w);
    hide Performs;
  }

  /** Round-robin. */
  function NextIdx(idx: nat): (idx': nat)
    ensures idx' < BUCKET_NUM
  {
    (idx + 1) % BUCKET_NUM
  }

  /** The steps of a registration. */
  function RegisterSteps(frame: Frame, start: nat, missed: bool): seq<Step> {
    [BeginRegister(frame.coro, frame.suspension, frame.wake)] +
    (if start >= frame.wake then [] else [LockRegister(frame)]) +
    (if missed then [CommitMissed(frame)] else [])
  }

  lemma OneLoopStep(w0: Wheel, n: nat, w: Wheel)
    requires WellShaped(w0) && Performs(w0, LoopSteps(n), w) && WellShaped(w) && Enabled(w, LoopStep)
    ensures WellShaped(Loop(w)) && Performs(w0, LoopSteps(n + 1), Loop(w))
  {
    PerformsThen(w0, LoopSteps(n), w, LoopStep);
    assert LoopSteps(n + 1) == LoopSteps(n) + [LoopStep];
    hide Performs, LoopSteps, WellShaped, Loop;
  }

  /** At the top of the loop and at the test of the stop flag nothing but the place changes. */
  lemma MovesOn(w: Wheel)
    requires WellShaped(w) && Enabled(w, LoopStep) && (w.pc == Advance || w.pc == Wait)
    ensures var w' := Loop(w);
      && w'.precision == w.precision && w'.stop == w.stop && w'.starts == w.starts && w'.clock == w.clock
      && w'.commits == w.commits && w'.lost == NothingLost && w'.buckets == w.buckets
      && w'.pc == NextPc(w) && w'.ready == w.ready && w'.visits == w.visits
      && w'.idx == if w.pc == Advance then (w.idx + 1) % BUCKET_NUM else w.idx
  {
    LoopMoves(w);
    LoopProgress(w);
    LoopKeeps(w);
    LoopScans(w);
    LoopCommits(w);
    hide Loop, WellShaped;
  }

  lemma StoresStart(w: Wheel)
    requires WellShaped(w) && w.lost == NothingLost && w.pc.StoreStart?
    ensures Enabled(w, LoopStep)
    ensures var w' := Loop(w);
      && w'.precision == w.precision && w'.stop == w.stop && w'.starts == w.starts + [w.pc.now] && w'.clock == w.clock
      && w'.commits == w.commits && w'.lost == NothingLost && w'.buckets == w.buckets
      && w'.pc == Visit && w'.ready == w.ready && w'.idx == w.idx && w'.visits == w.visits
  {
    LoopMoves(w);
    LoopProgress(w);
    LoopKeeps(w);
    LoopScans(w);
    LoopCommits(w);
    hide Loop, WellShaped;
  }

  /** The end of a drain. */
  lemma DrainOver(w: Wheel)
    requires WellShaped(w) && w.lost == NothingLost && (w.pc.Drain? || w.pc.SweepDrain?) && w.ready == []
    ensures Enabled(w, LoopStep)
    ensures var w' := Loop(w);
      && w'.precision == w.precision && w'.stop == w.stop && w'.starts == w.starts && w'.clock == w.clock
      && w'.commits == w.commits && w'.lost == NothingLost && w'.idx == w.idx && w'.buckets == w.buckets
      && w'.pc == (if w.pc.Drain? then Wait else Sweep(w.pc.k + 1)) && w'.ready == [] && w'.visits == w.visits
  {
    LoopMoves(w);
    LoopProgress(w);
    LoopKeeps(w);
    LoopScans(w);
    LoopCommits(w);
    hide Loop, WellShaped;
  }

  /** One commit of a drain. */
  lemma CommitsOne(w: Wheel)
    requires WellShaped(w) && w.lost == NothingLost && (w.pc.Drain? || w.pc.SweepDrain?) && w.ready != []
    ensures Enabled(w, LoopStep)
    ensures var w' := Loop(w);
      && w'.precision == w.precision && w'.stop == w.stop && w'.starts == w.starts && w'.clock == w.clock
      && w'.commits == w.commits + [Commit(w.ready[0], w.clock, w.pc.SweepDrain?)]
      && w'.lost == NothingLost && w'.idx == w.idx && w'.buckets == w.buckets
      && w'.pc == w.pc && w'.ready == w.ready[1..] && w'.visits == w.visits
  {
    LoopMoves(w);
    LoopProgress(w);
    LoopKeeps(w);
    LoopScans(w);
    LoopCommits(w);
    hide Loop, WellShaped;
  }

  /** The fields that only the loop thread changes. */
  ghost predicate SameLoop(w: Wheel, w': Wheel) {
    && w'.precision == w.precision && w'.starts == w.starts && w'.pc == w.pc && w'.idx == w.idx
    && w'.ready == w.ready && w'.visits == w.visits && w.clock <= w'.clock
  }

  lemma BeginStep(w: Wheel, f: Frame)
    requires WellShaped(w) && w.lost == NothingLost && f.rev == |w.starts| - 1
    ensures w.precision > 0 && Enabled(w, BeginRegister(f.coro, f.suspension, f.wake))
    ensures var step := BeginRegister(f.coro, f.suspension, f.wake);
      var w' := Apply(w, step);
      && w'.precision == w.precision && w'.stop == w.stop && w'.starts == w.starts && w'.buckets == w.buckets
      && w'.clock == w.clock && w'.commits == w.commits && w'.lost == NothingLost
      && if Start(w) >= f.wake then f in w'.missed else f in w'.registering && HasBucket(w', f)
  {
    assert w.precision > 0;
    hide WellShaped;
  }

  lemma ScanStep(w: Wheel, idx: nat, force: bool)
    requires WellShaped(w) && w.lost == NothingLost && idx < BUCKET_NUM
    requires w.pc == (if force then Sweep(idx) else Visit) && (!force ==> w.idx == idx)
    ensures Enabled(w, LoopStep) && WellShaped(Loop(w)) && Reaches(w, Loop(w))
    ensures var w', condition := Loop(w), Condition(w.clock, force);
      && w'.precision == w.precision && w'.stop == w.stop && w'.starts == w.starts && w'.clock == w.clock
      && w'.commits == w.commits && w'.lost == NothingLost && w'.idx == w.idx
      && w'.visits == w.visits + (if force then 0 else 1)
      && w'.pc == (if force then SweepDrain(idx) else Drain)
      && w'.buckets == w.buckets[idx := Bucket(w.clock, Fetch(w.buckets[idx].waiting, condition))]
      && w'.ready == Fetched(w.buckets[idx].waiting.chain, condition)
  {
    ReachesByStep(w, LoopStep);
    LoopMoves(w);
    LoopProgress(w);
    LoopKeeps(w);
    LoopScans(w);
    hide Loop, Reaches, Fetched, Fetch, Condition;
  }

  lemma LockOutcome(w: Wheel, f: Frame)
    requires WellShaped(w) && w.lost == NothingLost && HasBucket(w, f)
    ensures var w' := Lock(w, f);
      var k := RealIndex(w, f);
      && HasBucket(w', f) && RealIndex(w', f) == k
      && if w.buckets[k].scanOver >= f.wake then w'.lost == NothingLost && f in w'.missed
         else k < |w'.buckets| && w'.buckets[k].scanOver < f.wake &&
              (w'.lost == NothingLost ==> f in w'.buckets[k].waiting.chain)
  {
  }

  lemma CommitMissedStep(w: Wheel, f: Frame)
    requires WellShaped(w) && w.lost == NothingLost && f in w.missed
    ensures var w' := Apply(w, CommitMissed(f));
      && w'.precision == w.precision && w'.stop == w.stop && w'.starts == w.starts && w'.buckets == w.buckets
      && w'.clock == w.clock && w'.commits == w.commits + [Commit(f, w.clock, false)]
  {
    hide WellShaped;
  }
}
