/** When the timing wheel wakes its frames: never too early, not after the visit it computed, and
    within one revolution once the time has come. */
module WheelTiming {
  import opened Arith
  import opened QueueModel
  import opened TimeWheel

  /** Visit number n of the loop scans bucket n % 4096 in revolution n / 4096. */
  function VisitNumber(r: nat, k: nat): nat {
    BUCKET_NUM * r + k
  }

  lemma VisitNumberUnique(r: nat, k: nat, r': nat, k': nat)
    requires VisitNumber(r, k) == VisitNumber(r', k') && k < BUCKET_NUM && k' < BUCKET_NUM
    ensures r == r' && k == k'
  {
  }

  // ---------- the loop never runs fast ----------

  ghost predicate StartsApart(w: Wheel)
    requires WellShaped(w)
  {
    && (forall j :: 0 <= j < |w.starts| ==> w.starts[j] <= w.clock)
    && (forall j :: 0 < j < |w.starts| ==> w.starts[j - 1] + w.precision * BUCKET_NUM <= w.starts[j])
  }

  ghost predicate LoopInTime(w: Wheel)
    requires WellShaped(w)
  {
    var rev := |w.starts| - 1;
    match w.pc
    case Advance => w.visits == VisitNumber(rev, w.idx) && (w.visits == 0 || w.clock >= NextRun(w))
    case StoreStart(now) =>
      w.idx == 0 && w.visits + 1 == VisitNumber(rev + 1, 0) &&
      Start(w) + w.precision * BUCKET_NUM <= now <= w.clock
    case Visit =>
      w.visits + 1 == VisitNumber(rev, w.idx) && (w.visits == 0 || w.clock >= Start(w) + w.precision * w.idx)
    case Drain => w.visits == VisitNumber(rev, w.idx)
    case Wait => w.visits == VisitNumber(rev, w.idx)
    case _ => true
  }

  ghost predicate Clockwork(w: Wheel)
    requires WellShaped(w)
  {
    StartsApart(w) && LoopInTime(w)
  }

  lemma SameClockwork(w: Wheel, w': Wheel)
    requires WellShaped(w) && WellShaped(w') && Clockwork(w)
    requires w'.precision == w.precision && w'.starts == w.starts && w'.clock >= w.clock
    requires w'.pc == w.pc && w'.idx == w.idx && w'.visits == w.visits
    ensures Clockwork(w')
  {
    hide WellShaped;
  }

  lemma ClockworkStep(w: Wheel, step: Step)
    requires WellShaped(w) && Enabled(w, step) && Clockwork(w)
    ensures WellShaped(Apply(w, step)) && Clockwork(Apply(w, step))
  {
    StaysWellShaped(w, step);
    if step.LoopStep? {
      ClockworkLoop(w);
    } else {
      hide Clockwork, RealIndex, BucketIndex, WellShaped, HasBucket;
      SameClockwork(w, Apply(w, step));
    }
  }

  lemma ClockworkLoop(w: Wheel)
    requires WellShaped(w) && Enabled(w, LoopStep) && Clockwork(w) && WellShaped(Loop(w))
    ensures Clockwork(Loop(w))
  {
    StartsLoop(w);
    InTimeLoop(w);
    hide *;
  }

  lemma StartsLoop(w: Wheel)
    requires WellShaped(w) && Enabled(w, LoopStep) && Clockwork(w) && WellShaped(Loop(w))
    ensures StartsApart(Loop(w))
  {
    LoopKeeps(w);
    LoopProgress(w);
    hide Loop, WellShaped, Enabled;
    var w' := Loop(w);
    if w.pc.StoreStart? {
      assert forall j | 0 <= j < |w'.starts| :: w'.starts[j] == if j < |w.starts| then w.starts[j] else w.pc.now;
    }
  }

  lemma InTimeLoop(w: Wheel)
    requires WellShaped(w) && Enabled(w, LoopStep) && Clockwork(w) && WellShaped(Loop(w))
    ensures LoopInTime(Loop(w))
  {
    LoopKeeps(w);
    LoopProgress(w);
    LoopMoves(w);
    var w' := Loop(w);
    var idx := w.idx;
    assert w.pc.Advance? ==> w'.idx == if idx + 1 == BUCKET_NUM then 0 else idx + 1;
    assert w'.precision * 0 == 0;
    hide Loop, WellShaped, Enabled, StartsApart;
  }

  lemma {:induction false} StartsFarApart(w: Wheel, r: nat, q: nat)
    requires WellShaped(w) && StartsApart(w) && r + q < |w.starts|
    ensures w.starts[r + q] >= w.starts[r] + w.precision * (BUCKET_NUM * q)
  {
    if q > 0 {
      StartsFarApart(w, r, q - 1);
      var p := w.precision;
      assert p * (BUCKET_NUM * q) == p * (BUCKET_NUM * (q - 1)) + p * BUCKET_NUM;
    }
  }

  // ---------- what the visits leave in the buckets ----------

  /** Every visit but the very first one, which the loop does not wait for, scanned its bucket at
      or after the time planned for it. */
  ghost predicate Visited(w: Wheel)
    requires WellShaped(w)
  {
    forall r: nat, k: nat :: k < BUCKET_NUM && 2 <= VisitNumber(r, k) <= w.visits ==>
      r < |w.starts| && w.buckets[k].scanOver >= w.starts[r] + w.precision * k
  }

  ghost predicate BucketOk(w: Wheel, k: nat)
    requires WellShaped(w) && k < BUCKET_NUM
  {
    && w.buckets[k].scanOver <= w.clock
    && forall f | f in w.buckets[k].waiting.chain ::
         HasBucket(w, f) && RealIndex(w, f) == k && w.buckets[k].scanOver < f.wake
  }

  ghost predicate BucketsOk(w: Wheel)
    requires WellShaped(w)
  {
    forall k :: 0 <= k < BUCKET_NUM ==> BucketOk(w, k)
  }

  /** Frames that are about to be committed are due, except in the forced scans. */
  ghost predicate ReadyOk(w: Wheel)
    requires WellShaped(w)
  {
    && (w.ready != [] ==> w.pc.Drain? || w.pc.SweepDrain?)
    && (w.pc.Drain? ==> forall f | f in w.ready :: f.wake <= w.clock)
  }

  ghost predicate TransitOk(w: Wheel)
    requires WellShaped(w)
  {
    InFlightOk(w) && CommitsOk(w)
  }

  ghost predicate InFlightOk(w: Wheel) {
    && (forall f | f in w.registering :: HasBucket(w, f))
    && (forall f | f in w.missed :: f.wake <= w.clock)
  }

  ghost predicate CommitsOk(w: Wheel) {
    (forall i :: 0 <= i < |w.commits| ==>
          w.commits[i].at <= w.clock && (w.commits[i].swept || w.commits[i].frame.wake <= w.commits[i].at))
  }

  ghost predicate Inv(w: Wheel) {
    WellShaped(w) && Clockwork(w) && Visited(w) && BucketsOk(w) && ReadyOk(w) && TransitOk(w)
  }

  lemma SameIndex(w: Wheel, w': Wheel, f: Frame)
    requires HasBucket(w, f) && w.precision == w'.precision && w.starts <= w'.starts
    ensures HasBucket(w', f) && RealIndex(w', f) == RealIndex(w, f) && BucketIndex(w', f) == BucketIndex(w, f)
  {
    assert w'.starts[f.rev] == w.starts[f.rev];
  }

  /** What no step takes back. */
  ghost predicate Grows(w: Wheel, w': Wheel)
    requires WellShaped(w) && WellShaped(w')
  {
    && w'.precision == w.precision && w.starts <= w'.starts && w.clock <= w'.clock && w.visits <= w'.visits
    && forall k :: 0 <= k < BUCKET_NUM ==> w.buckets[k].scanOver <= w'.buckets[k].scanOver
  }

  lemma LockGrows(w: Wheel, f: Frame)
    requires WellShaped(w) && HasBucket(w, f) && WellShaped(Lock(w, f))
    ensures Grows(w, Lock(w, f))
  {
    var k := RealIndex(w, f);
    hide HasBucket, RealIndex, Append;
  }

  lemma LoopGrows(w: Wheel)
    requires WellShaped(w) && BucketsOk(w) && Enabled(w, LoopStep) && WellShaped(Loop(w))
    ensures Grows(w, Loop(w))
  {
    LoopKeeps(w);
    LoopProgress(w);
    LoopScans(w);
    var k := ScansNow(w);
    if k >= 0 {
      assert BucketOk(w, k);
      assert Scanned(w, k, w.pc.Sweep?).scanOver == w.clock;
    }
    assert |w.buckets| == BUCKET_NUM;
    hide Loop, WellShaped, Enabled, Scanned, Fetched, ScansNow, BucketsOk, BucketOk;
  }

  lemma StepGrows(w: Wheel, step: Step)
    requires WellShaped(w) && BucketsOk(w) && Enabled(w, step)
    ensures WellShaped(Apply(w, step)) && Grows(w, Apply(w, step))
  {
    StaysWellShaped(w, step);
    if step.LoopStep? {
      LoopGrows(w);
    } else if step.LockRegister? {
      LockGrows(w, step.f);
    } else {
      hide BucketsOk, WellShaped;
    }
  }

  lemma SameBucketOk(w: Wheel, w': Wheel, k: nat)
    requires WellShaped(w) && WellShaped(w') && Grows(w, w') && k < BUCKET_NUM && BucketOk(w, k)
    requires w'.buckets[k] == w.buckets[k]
    ensures BucketOk(w', k)
  {
    forall f | f in w.buckets[k].waiting.chain
      ensures HasBucket(w', f) && RealIndex(w', f) == k
    {
      SameIndex(w, w', f);
    }
    hide HasBucket, RealIndex, WellShaped;
  }

  lemma ScannedFrames(w: Wheel, k: nat, force: bool)
    requires WellShaped(w) && k < BUCKET_NUM
    ensures forall f | f in Scanned(w, k, force).waiting.chain :: f in w.buckets[k].waiting.chain && w.clock < f.wake
    ensures !force ==> forall f | f in Fetched(w.buckets[k].waiting.chain, Condition(w.clock, force)) :: f.wake <= w.clock
  {
    var chain, condition := w.buckets[k].waiting.chain, Condition(w.clock, force);
    KeptMembers(chain, condition);
    FetchedMembers(chain, condition);
    hide Kept, Fetched, WellShaped;
  }

  lemma ScannedBucketOk(w: Wheel, w': Wheel, k: nat, force: bool)
    requires WellShaped(w) && WellShaped(w') && k < BUCKET_NUM && BucketOk(w, k) && Grows(w, w')
    requires w'.buckets[k] == Scanned(w, k, force)
    ensures BucketOk(w', k)
  {
    ScannedFrames(w, k, force);
    assert w'.buckets[k].scanOver == w.clock;
    hide Scanned, WellShaped;
    forall f | f in w'.buckets[k].waiting.chain
      ensures HasBucket(w', f) && RealIndex(w', f) == k && w.clock < f.wake
    {
      SameIndex(w, w', f);
    }
    hide HasBucket, RealIndex;
  }

  lemma LockedBucketOk(w: Wheel, f: Frame)
    requires WellShaped(w) && HasBucket(w, f) && BucketOk(w, RealIndex(w, f))
    ensures var w' := Lock(w, f); WellShaped(w') && BucketOk(w', RealIndex(w, f))
    ensures forall k :: 0 <= k < BUCKET_NUM && k != RealIndex(w, f) ==> Lock(w, f).buckets[k] == w.buckets[k]
  {
    var w' := Lock(w, f);
    var k := RealIndex(w, f);
    var b := w.buckets[k];
    ShapeOfSetBucket(w, k, b.(waiting := Append(b.waiting, f)));
    forall g | HasBucket(w, g) ensures HasBucket(w', g) && RealIndex(w', g) == RealIndex(w, g) {
      SameIndex(w, w', g);
    }
    hide HasBucket, RealIndex;
  }

  /** Whenever a bucket's lock is free, every frame waiting in it wakes after its last scan. */
  lemma BucketsStep(w: Wheel, step: Step)
    requires WellShaped(w) && BucketsOk(w) && TransitOk(w) && Enabled(w, step)
    ensures WellShaped(Apply(w, step)) && BucketsOk(Apply(w, step))
  {
    StepGrows(w, step);
    var w' := Apply(w, step);
    forall k: nat | k < BUCKET_NUM ensures BucketOk(w', k) {
      BucketStep(w, step, k);
    }
    hide *;
  }

  lemma LoopBucketStep(w: Wheel, k: nat)
    requires WellShaped(w) && k < BUCKET_NUM && BucketOk(w, k) && Enabled(w, LoopStep)
    requires WellShaped(Loop(w)) && Grows(w, Loop(w))
    ensures BucketOk(Loop(w), k)
  {
    LoopScans(w);
    var w' := Loop(w);
    var j := ScansNow(w);
    hide Loop, Enabled, ScansNow;
    if j == k {
      ScannedBucketOk(w, w', k, w.pc.Sweep?);
    } else {
      assert |w.buckets| == BUCKET_NUM;
      SameBucketOk(w, w', k);
    }
    hide *;
  }

  lemma BucketStep(w: Wheel, step: Step, k: nat)
    requires WellShaped(w) && k < BUCKET_NUM && BucketOk(w, k) && Enabled(w, step)
    requires WellShaped(Apply(w, step)) && Grows(w, Apply(w, step))
    ensures BucketOk(Apply(w, step), k)
  {
    var w' := Apply(w, step);
    if step.LockRegister? {
      if RealIndex(w, step.f) == k {
        LockedBucketOk(w, step.f);
      } else {
        assert w'.buckets[k] == w.buckets[k] by { hide BucketOk, WellShaped, Append, RealIndex; }
        SameBucketOk(w, w', k);
      }
    } else if step.LoopStep? {
      LoopBucketStep(w, k);
    } else {
      assert w'.buckets[k] == w.buckets[k] by { hide BucketOk, WellShaped; }
      SameBucketOk(w, w', k);
    }
    hide *;
  }

  lemma VisitedLoop(w: Wheel)
    requires WellShaped(w) && Clockwork(w) && Visited(w) && Enabled(w, LoopStep)
    requires WellShaped(Loop(w)) && Grows(w, Loop(w))
    ensures Visited(Loop(w))
  {
    var w' := Loop(w);
    LoopProgress(w);
    LoopScans(w);
    assert |w.buckets| == BUCKET_NUM;
    hide Loop, WellShaped, Fetched, VisitNumber, Enabled;
    if w.pc.Visit? {
      var rev := |w.starts| - 1;
      assert w.visits + 1 == VisitNumber(rev, w.idx) && w'.buckets[w.idx].scanOver == w.clock;
      hide Scanned, Clockwork;
      forall r: nat, k: nat | k < BUCKET_NUM && 2 <= VisitNumber(r, k) <= w'.visits
        ensures r < |w.starts| && w'.buckets[k].scanOver >= w.starts[r] + w.precision * k
      {
        if VisitNumber(r, k) > w.visits { VisitNumberUnique(r, k, rev, w.idx); }
      }
    }
    hide Clockwork, Scanned;
  }

  lemma VisitedStep(w: Wheel, step: Step)
    requires WellShaped(w) && Clockwork(w) && Visited(w) && Enabled(w, step)
    requires WellShaped(Apply(w, step)) && Grows(w, Apply(w, step))
    ensures Visited(Apply(w, step))
  {
    hide Loop, WellShaped, Clockwork;
    if step.LoopStep? {
      hide Visited, Grows;
      VisitedLoop(w);
      assert Visited(Apply(w, step));
    } else {
      var w' := Apply(w, step);
      assert w'.visits == w.visits && w'.starts == w.starts by { hide RealIndex, Append, HasBucket, Visited, Grows; }
      hide Apply;
      assert Visited(w');
    }
    hide *;
  }

  lemma ReadyLoop(w: Wheel)
    requires WellShaped(w) && BucketsOk(w) && ReadyOk(w) && Enabled(w, LoopStep) && WellShaped(Loop(w))
    ensures ReadyOk(Loop(w))
  {
    LoopMoves(w);
    LoopKeeps(w);
    LoopScans(w);
    if ScansNow(w) < 0 { LoopCommits(w); } else { ScannedFrames(w, ScansNow(w), w.pc.Sweep?); }
    hide Loop, WellShaped, Enabled, BucketsOk, Scanned, Fetched, Condition;
  }

  lemma ReadyStep(w: Wheel, step: Step)
    requires WellShaped(w) && BucketsOk(w) && ReadyOk(w) && Enabled(w, step) && WellShaped(Apply(w, step))
    ensures ReadyOk(Apply(w, step))
  {
    hide Loop, WellShaped, BucketsOk;
    if step.LoopStep? {
      ReadyLoop(w);
      hide ReadyOk, Enabled;
      assert ReadyOk(Apply(w, step));
    } else {
      hide RealIndex, HasBucket, Append;
      assert ReadyOk(Apply(w, step));
    }
    hide *;
  }

  lemma InFlightKept(w: Wheel, w': Wheel)
    requires WellShaped(w) && WellShaped(w') && Grows(w, w') && InFlightOk(w)
    requires w'.registering <= w.registering && w'.missed <= w.missed
    ensures InFlightOk(w')
  {
    hide HasBucket, WellShaped, BucketIndex, RealIndex;
    forall f | f in w'.registering ensures HasBucket(w', f) {
      assert f in w.registering;
      SameIndex(w, w', f);
    }
    forall f | f in w'.missed ensures f.wake <= w'.clock { assert f in w.missed; }
  }

  lemma CommitsGrow(w: Wheel, w': Wheel, c: Commit)
    requires CommitsOk(w) && w.clock <= w'.clock && w'.commits == w.commits + [c]
    requires c.at == w.clock && (c.swept || c.frame.wake <= c.at)
    ensures CommitsOk(w')
  {
  }

  lemma CommitsStay(w: Wheel, w': Wheel)
    requires CommitsOk(w) && w.clock <= w'.clock && w'.commits == w.commits
    ensures CommitsOk(w')
  {
  }

  lemma TransitLoop(w: Wheel)
    requires WellShaped(w) && ReadyOk(w) && TransitOk(w) && Enabled(w, LoopStep)
    requires WellShaped(Loop(w)) && Grows(w, Loop(w))
    ensures TransitOk(Loop(w))
  {
    var w' := Loop(w);
    LoopKeeps(w);
    LoopScans(w);
    InFlightKept(w, w');
    if ScansNow(w) < 0 { LoopCommits(w); }
    hide Loop, Enabled, WellShaped, InFlightOk, CommitsOk, Scanned, Fetched, Grows;
    if CommitsNow(w) {
      assert w.ready[0] in w.ready;
      CommitsGrow(w, w', Commit(w.ready[0], w.clock, w.pc.SweepDrain?));
    } else {
      CommitsStay(w, w');
    }
  }

  lemma TransitLock(w: Wheel, f: Frame)
    requires WellShaped(w) && BucketsOk(w) && TransitOk(w) && HasBucket(w, f)
    requires WellShaped(Lock(w, f))
    ensures TransitOk(Lock(w, f))
  {
    var w' := Lock(w, f);
    var k := RealIndex(w, f);
    assert BucketOk(w, k);
    forall g | g in w.registering ensures HasBucket(w', g) { SameIndex(w, w', g); }
    hide WellShaped, HasBucket, RealIndex, Append, BucketsOk;
  }

  lemma BeginTransit(w: Wheel, step: Step)
    requires WellShaped(w) && Clockwork(w) && InFlightOk(w) && Enabled(w, step) && step.BeginRegister?
    ensures InFlightOk(Apply(w, step))
  {
    var w' := Apply(w, step);
    assert Start(w) <= w.clock;
    hide Clockwork;
    var f := Frame(step.coro, step.suspension, step.wake, |w.starts| - 1);
    if Start(w) < step.wake {
      assert HasBucket(w, f);
      assert w'.registering == w.registering + multiset{f} && w'.missed == w.missed;
    } else {
      assert w'.registering == w.registering && w'.missed == w.missed + multiset{f};
    }
    assert w'.starts == w.starts && w'.precision == w.precision && w'.clock == w.clock;
    hide Apply, WellShaped, Enabled;
    forall g | HasBucket(w, g) ensures HasBucket(w', g) { }
    hide HasBucket;
  }

  lemma TransitOther(w: Wheel, step: Step)
    requires WellShaped(w) && Clockwork(w) && TransitOk(w) && Enabled(w, step)
    requires WellShaped(Apply(w, step)) && Grows(w, Apply(w, step))
    requires !step.LoopStep? && !step.LockRegister?
    ensures TransitOk(Apply(w, step))
  {
    var w' := Apply(w, step);
    hide WellShaped, Clockwork, Grows;
    if step.BeginRegister? {
      BeginTransit(w, step);
      CommitsStay(w, w');
    } else {
      InFlightKept(w, w');
      if step.CommitMissed? {
        CommitsGrow(w, w', Commit(step.f, w.clock, false));
      } else {
        CommitsStay(w, w');
      }
    }
    hide CommitsOk, InFlightOk, Enabled;
  }

  lemma TransitStep(w: Wheel, step: Step)
    requires WellShaped(w) && Clockwork(w) && BucketsOk(w) && ReadyOk(w) && TransitOk(w) && Enabled(w, step)
    requires WellShaped(Apply(w, step)) && Grows(w, Apply(w, step))
    ensures TransitOk(Apply(w, step))
  {
    hide Loop, Lock, WellShaped, TransitOk, BucketsOk, ReadyOk, Clockwork, Grows;
    if step.LoopStep? {
      TransitLoop(w);
    } else if step.LockRegister? {
      TransitLock(w, step.f);
    } else {
      TransitOther(w, step);
    }
  }

  lemma InvInit(w: Wheel)
    requires Init(w)
    ensures Inv(w)
  {
  }

  lemma InvStep(w: Wheel, step: Step)
    requires Inv(w) && Enabled(w, step)
    ensures Inv(Apply(w, step)) && Grows(w, Apply(w, step))
  {
    StepGrows(w, step);
    ClockworkStep(w, step);
    VisitedStep(w, step);
    BucketsStep(w, step);
    ReadyStep(w, step);
    TransitStep(w, step);
    hide WellShaped, Clockwork, Visited, BucketsOk, ReadyOk, TransitOk, Apply, Enabled, Grows;
  }

  lemma {:induction false} InvRun(w: Wheel, steps: seq<Step>, w': Wheel)
    requires Inv(w) && Leads(w, steps, w')
    ensures Inv(w') && Grows(w, w')
    decreases |steps|
  {
    if steps != [] {
      InvStep(w, steps[0]);
      InvRun(Apply(w, steps[0]), steps[1..], w');
    }
    hide Inv, Apply, Enabled;
  }

  // ---------- the guarantees ----------

  /** In every run, a frame is committed by the timer, at registration or by a scan, only when the
      clock has reached its wake time. Only the forced scans after the stop may be early. */
  lemma NeverEarly(w0: Wheel, steps: seq<Step>, w: Wheel, i: nat)
    requires Init(w0) && Leads(w0, steps, w) && i < |w.commits| && !w.commits[i].swept
    ensures w.commits[i].frame.wake <= w.commits[i].at <= w.clock
  {
    InvInit(w0);
    InvRun(w0, steps, w);
    hide Leads, Init, WellShaped, Clockwork, Visited, BucketsOk, ReadyOk;
  }

  /** Each frame waiting in a bucket is in the bucket of its index and wakes after the bucket's
      last scan. */
  lemma BucketInvariant(w0: Wheel, steps: seq<Step>, w: Wheel, k: nat, f: Frame)
    requires Init(w0) && Leads(w0, steps, w) && k < BUCKET_NUM
    requires WellShaped(w) && f in w.buckets[k].waiting.chain
    ensures HasBucket(w, f) && RealIndex(w, f) == k
    ensures w.buckets[k].scanOver < f.wake && w.buckets[k].scanOver <= w.clock
  {
    InvInit(w0);
    InvRun(w0, steps, w);
    assert BucketOk(w, k);
    hide Leads, Init, WellShaped, Clockwork, Visited, TransitOk, ReadyOk, HasBucket, RealIndex;
  }

  /** The visit a frame is due at: c places after the first place of the revolution whose start
      timestamp it read, even if that timestamp has been replaced since. */
  function Due(w: Wheel, f: Frame): nat
    requires HasBucket(w, f)
  {
    VisitNumber(f.rev, 0) + BucketIndex(w, f)
  }

  /** The index is the ceiling of the distance over the precision. */
  lemma IndexIsCeiling(w: Wheel, f: Frame)
    requires HasBucket(w, f)
    ensures var c := BucketIndex(w, f);
      w.starts[f.rev] + w.precision * (c - 1) < f.wake <= w.starts[f.rev] + w.precision * c
  {
    var d, p := f.wake - w.starts[f.rev] - 1, w.precision;
    assert d == p * (d / p) + d % p;
    assert p * (d / p + 1) == p * (d / p) + p;
  }

  /** A visit at number n >= 2 scanned the bucket no earlier than planned, so the visit a frame is
      due at saw its wake time pass. */
  lemma DueVisitScansAfterWake(w: Wheel, f: Frame)
    requires Inv(w) && HasBucket(w, f) && 2 <= Due(w, f) <= w.visits
    ensures f.wake <= w.buckets[RealIndex(w, f)].scanOver
  {
    var c, k := BucketIndex(w, f), RealIndex(w, f);
    var q := c / BUCKET_NUM;
    assert VisitNumber(f.rev + q, k) == Due(w, f);
    IndexIsCeiling(w, f);
    StartsFarApart(w, f.rev, q);
    hide BucketIndex, HasBucket, WellShaped, RealIndex, Due, VisitNumber, StartsApart, LoopInTime;
    hide BucketsOk, ReadyOk, TransitOk;
    TimesAddUp(w.starts[f.rev], w.starts[f.rev + q], w.precision, c, q, k, w.buckets[k].scanOver);
  }

  lemma TimesAddUp(start: nat, later: nat, p: nat, c: nat, q: nat, k: nat, scan: nat)
    requires c == BUCKET_NUM * q + k && later >= start + p * (BUCKET_NUM * q) && scan >= later + p * k
    ensures scan >= start + p * c
  {
    assert p * c == p * (BUCKET_NUM * q) + p * k;
  }

  /** Once the visit that a frame is due at has happened, no bucket holds the frame, and a
      registration that is still on its way to the lock finds that it is late. */
  ghost predicate IsPunctual(w: Wheel, f: Frame)
    requires WellShaped(w) && HasBucket(w, f)
  {
    w.visits >= Due(w, f) ==>
      && (forall k :: 0 <= k < BUCKET_NUM ==> f !in w.buckets[k].waiting.chain)
      && Lock(w, f).missed == w.missed + multiset{f}
  }

  /** Punctuality of every frame that is not due at the very first visit, which the loop does not
      wait for. WheelPunctual.PunctualIff says what happens to those that are. */
  lemma Punctual(w0: Wheel, steps: seq<Step>, w: Wheel, f: Frame)
    requires Init(w0) && Leads(w0, steps, w) && WellShaped(w) && HasBucket(w, f) && 2 <= Due(w, f)
    ensures IsPunctual(w, f)
  {
    InvInit(w0);
    InvRun(w0, steps, w);
    if w.visits >= Due(w, f) {
      DueVisitScansAfterWake(w, f);
      NotInAnyBucket(w, f);
    }
    hide Leads, Init, WellShaped, HasBucket, BucketIndex, Due, Inv;
  }

  lemma NotInAnyBucket(w: Wheel, f: Frame)
    requires Inv(w) && HasBucket(w, f) && f.wake <= w.buckets[RealIndex(w, f)].scanOver
    ensures forall k :: 0 <= k < BUCKET_NUM ==> f !in w.buckets[k].waiting.chain
  {
    forall k: nat | k < BUCKET_NUM ensures f !in w.buckets[k].waiting.chain {
      assert BucketOk(w, k);
      hide WellShaped, HasBucket, RealIndex, Clockwork, Visited, TransitOk, ReadyOk;
    }
    hide *;
  }

  // ---------- bounded wake-up ----------

  /** Of any 4096 visit numbers in a row, one belongs to each bucket. */
  lemma VisitOfBucket(v: nat, k: nat)
    requires k < BUCKET_NUM
    ensures exists r: nat :: v < VisitNumber(r, k) <= v + BUCKET_NUM
  {
    var r := if v % BUCKET_NUM < k then v / BUCKET_NUM else v / BUCKET_NUM + 1;
    assert v < VisitNumber(r, k) <= v + BUCKET_NUM;
  }

  /** Every visit after visit v scanned its bucket when the clock had reached c. */
  ghost predicate ScannedSince(w: Wheel, v: nat, c: nat)
    requires WellShaped(w)
  {
    forall r: nat, k: nat :: k < BUCKET_NUM && v < VisitNumber(r, k) <= w.visits ==> w.buckets[k].scanOver >= c
  }

  lemma ScannedSinceVisit(w: Wheel, v: nat, c: nat)
    requires Inv(w) && Enabled(w, LoopStep) && w.pc.Visit? && ScannedSince(w, v, c) && c <= w.clock
    requires WellShaped(Loop(w)) && Grows(w, Loop(w))
    ensures ScannedSince(Loop(w), v, c)
  {
    var w' := Loop(w);
    LoopScans(w);
    LoopProgress(w);
    var rev := |w.starts| - 1;
    hide Loop, WellShaped, Visited, BucketsOk, ReadyOk, TransitOk, Fetched, Enabled;
    assert w.visits + 1 == VisitNumber(rev, w.idx) && w'.buckets[w.idx].scanOver == w.clock;
    hide VisitNumber, Clockwork, Scanned;
    forall r: nat, k: nat | k < BUCKET_NUM && v < VisitNumber(r, k) <= w'.visits
      ensures w'.buckets[k].scanOver >= c
    {
      if VisitNumber(r, k) > w.visits { VisitNumberUnique(r, k, rev, w.idx); }
    }
  }

  /** Only a visit counts as one. */
  lemma OnlyVisitsCount(w: Wheel, step: Step)
    requires WellShaped(w) && Enabled(w, step)
    ensures Apply(w, step).visits == w.visits + if step.LoopStep? && w.pc.Visit? then 1 else 0
  {
    hide Loop, WellShaped, HasBucket, RealIndex, Append;
    if step.LoopStep? { LoopProgress(w); }
  }

  lemma ScannedSinceStep(w: Wheel, step: Step, v: nat, c: nat)
    requires Inv(w) && Enabled(w, step) && ScannedSince(w, v, c) && c <= w.clock
    requires Inv(Apply(w, step)) && Grows(w, Apply(w, step))
    ensures ScannedSince(Apply(w, step), v, c)
  {
    if step.LoopStep? && w.pc.Visit? {
      ScannedSinceVisit(w, v, c);
    } else {
      OnlyVisitsCount(w, step);
      hide Apply, Clockwork, Visited, BucketsOk, ReadyOk, TransitOk, Enabled;
    }
  }

  lemma {:induction false} ScannedSinceRun(w: Wheel, steps: seq<Step>, w': Wheel, v: nat, c: nat)
    requires Inv(w) && Leads(w, steps, w') && ScannedSince(w, v, c) && c <= w.clock
    ensures Inv(w') && ScannedSince(w', v, c)
    decreases |steps|
  {
    if steps != [] {
      InvStep(w, steps[0]);
      ScannedSinceStep(w, steps[0], v, c);
      ScannedSinceRun(Apply(w, steps[0]), steps[1..], w', v, c);
    }
    hide Inv, Apply, Enabled, ScannedSince;
  }

  /** A frame that is still waiting when the clock has passed its wake time has left its bucket
      after the next 4096 visits, however they are timed. */
  lemma BoundedWakeup(w0: Wheel, steps: seq<Step>, w: Wheel, more: seq<Step>, w': Wheel, k: nat, f: Frame)
    requires Init(w0) && Leads(w0, steps, w) && WellShaped(w) && Leads(w, more, w') && WellShaped(w')
    requires k < BUCKET_NUM && f in w.buckets[k].waiting.chain && f.wake <= w.clock
    requires w'.visits >= w.visits + BUCKET_NUM
    ensures forall j :: 0 <= j < BUCKET_NUM ==> f !in w'.buckets[j].waiting.chain
  {
    InvInit(w0);
    InvRun(w0, steps, w);
    BucketInvariant(w0, steps, w, k, f);
    ScannedSinceRun(w, more, w', w.visits, w.clock);
    InvRun(w, more, w');
    SameIndex(w, w', f);
    VisitOfBucket(w.visits, k);
    hide Inv, Leads, Init, HasBucket, RealIndex, WellShaped, VisitNumber;
    var r: nat :| w.visits < VisitNumber(r, k) <= w.visits + BUCKET_NUM;
    assert w'.buckets[k].scanOver >= w.clock;
    NotInAnyBucket(w', f);
  }

  // ---------- the visit nobody waits for ----------

  lemma LoopTakesOnlyByScan(w: Wheel, k: nat)
    requires WellShaped(w) && Enabled(w, LoopStep) && k < BUCKET_NUM && WellShaped(Loop(w))
    requires w.pc != Sweep(k) && !(w.pc == Visit && w.idx == k)
    ensures Loop(w).buckets[k] == w.buckets[k]
  {
    LoopScans(w);
    hide Loop, Scanned, Fetched, Enabled;
  }

  /** Only the scans of a bucket take frames out of it. */
  lemma OnlyScansTake(w: Wheel, step: Step, k: nat)
    requires WellShaped(w) && Enabled(w, step) && k < BUCKET_NUM && WellShaped(Apply(w, step))
    requires !(step.LoopStep? && (w.pc == Sweep(k) || (w.pc == Visit && w.idx == k)))
    ensures w.buckets[k].waiting.chain <= Apply(w, step).buckets[k].waiting.chain
  {
    if step.LockRegister? {
      hide HasBucket, RealIndex;
    } else if step.LoopStep? {
      LoopTakesOnlyByScan(w, k);
      hide *;
    } else {
      hide WellShaped;
    }
  }

  lemma SweepMarks(w: Wheel, k: nat)
    requires WellShaped(w) && Enabled(w, LoopStep) && w.pc == Sweep(k)
    ensures Swept(Loop(w).pc, k)
  {
    LoopMoves(w);
    hide Loop, WellShaped, Enabled;
  }

  lemma KeptInBucketOne(w: Wheel, step: Step, f: Frame)
    requires Inv(w) && Enabled(w, step) && f in w.buckets[1].waiting.chain && 1 <= w.visits
    requires Inv(Apply(w, step)) && Apply(w, step).visits <= BUCKET_NUM && !Swept(Apply(w, step).pc, 1)
    ensures f in Apply(w, step).buckets[1].waiting.chain
  {
    OnlyVisitsCount(w, step);
    assert step.LoopStep? && w.pc.Visit? ==> w.visits + 1 == VisitNumber(|w.starts| - 1, w.idx);
    hide Inv, Enabled, Apply, Loop, WellShaped, Swept, Clockwork;
    if step.LoopStep? && w.pc == Sweep(1) { ScanMarks(w, step); }
    OnlyScansTake(w, step, 1);
  }

  lemma ScanMarks(w: Wheel, step: Step)
    requires WellShaped(w) && Enabled(w, step) && step.LoopStep? && w.pc == Sweep(1)
    ensures Swept(Apply(w, step).pc, 1)
  {
    SweepMarks(w, 1);
    hide Loop, WellShaped, Swept;
  }

  lemma {:induction false} LastsUntilSecondVisit(w: Wheel, steps: seq<Step>, w': Wheel, f: Frame)
    requires Inv(w) && Leads(w, steps, w') && f in w.buckets[1].waiting.chain && 1 <= w.visits
    requires w'.visits <= BUCKET_NUM && !Swept(w'.pc, 1)
    ensures WellShaped(w') && f in w'.buckets[1].waiting.chain
    decreases |steps|
  {
    if steps != [] {
      var w1 := Apply(w, steps[0]);
      InvStep(w, steps[0]);
      InvRun(w1, steps[1..], w');
      if Swept(w1.pc, 1) { SweptStays(w1, steps[1..], w', 1); }
      KeptInBucketOne(w, steps[0], f);
      LastsUntilSecondVisit(w1, steps[1..], w', f);
    }
    hide Inv, Apply, Enabled, Swept;
  }

  lemma SweptStaysStep(w: Wheel, step: Step, k: nat)
    requires WellShaped(w) && Enabled(w, step) && Swept(w.pc, k)
    ensures Swept(Apply(w, step).pc, k)
  {
    hide Loop, WellShaped, HasBucket, RealIndex, Append;
    if step.LoopStep? { LoopMoves(w); }
  }

  lemma {:induction false} SweptStays(w: Wheel, steps: seq<Step>, w': Wheel, k: nat)
    requires WellShaped(w) && Leads(w, steps, w') && Swept(w.pc, k)
    ensures Swept(w'.pc, k)
    decreases |steps|
  {
    hide Apply, Enabled, WellShaped, Swept;
    if steps != [] {
      StaysWellShaped(w, steps[0]);
      SweptStaysStep(w, steps[0], k);
      SweptStays(Apply(w, steps[0]), steps[1..], w', k);
    }
  }

  /** The first visit to bucket 1 happens right after the start, whatever the clock says. A frame
      due at it that has to wait longer stays in the bucket until the next revolution: as long as
      the loop has not come to visit 4097, which is no earlier than one full revolution after the
      start, and bucket 1 has not been swept. */
  lemma FirstVisitIsTooEarly(w0: Wheel, before: seq<Step>, w: Wheel, steps: seq<Step>, w': Wheel, f: Frame)
    requires Init(w0) && Leads(w0, before, w) && WellShaped(w) && Leads(w, steps, w') && WellShaped(w')
    requires 1 <= w.visits && f in w.buckets[1].waiting.chain
    ensures w'.visits <= BUCKET_NUM && !Swept(w'.pc, 1) ==> f in w'.buckets[1].waiting.chain
    ensures w'.visits > BUCKET_NUM ==> w'.clock >= w0.starts[0] + w.precision * BUCKET_NUM
  {
    InvInit(w0);
    InvRun(w0, before, w);
    InvRun(w, steps, w');
    assert w0.starts[0] == w'.starts[0];
    if w'.visits <= BUCKET_NUM && !Swept(w'.pc, 1) {
      LastsUntilSecondVisit(w, steps, w', f);
    } else if w'.visits > BUCKET_NUM {
      assert 2 <= VisitNumber(1, 0) <= w'.visits;
      assert w'.precision * 0 == 0;
      assert BucketOk(w', 0);
    }
    hide Leads, Init, WellShaped, BucketOk;
  }

  /** It does happen, to every frame due at visit 1 whose wake time lies after the start of the loop:
      a run in which the frame still waits after that visit. */
  lemma FirstVisitMissesFrame(w0: Wheel, f: Frame) returns (w: Wheel)
    requires Init(w0) && HasBucket(w0, f) && Due(w0, f) == 1 && w0.clock < f.wake
    ensures Reaches(w0, w) && WellShaped(w) && w.visits == 1 && w.pc == Drain && w.ready == []
    ensures HasBucket(w, f) && Due(w, f) == 1 && f in w.buckets[1].waiting.chain
  {
    assert f.rev == 0 && RealIndex(w0, f) == 1;
    assert w0.buckets[1] == Bucket(0, EmptyQueue());
    var w1 := Registers(w0, f);
    assert [] + [f] == [f];
    assert w1.buckets[1].waiting.chain == [f];
    w := FirstVisit(w1);
    KeptMembers([f], Condition(w1.clock, false));
    OneStays(f, Condition(w1.clock, false));
    ReachesTransitive(w0, w1, w);
    SameIndex(w0, w, f);
    assert Due(w, f) == 1;
    hide *;
  }

  lemma FirstVisit(w: Wheel) returns (w': Wheel)
    requires WellShaped(w) && w.pc == Advance && w.idx == 0 && w.visits == 0 && w.lost == NothingLost
    ensures WellShaped(w') && Reaches(w, w') && w'.visits == 1 && w'.pc == Drain && w'.idx == 1
    ensures w'.precision == w.precision && w'.starts == w.starts && w'.clock == w.clock && w'.lost == NothingLost
    ensures var condition, queue := Condition(w.clock, false), w.buckets[1].waiting;
      w'.ready == Fetched(queue.chain, condition) && w'.buckets[1] == Bucket(w.clock, Fetch(queue, condition))
  {
    ReachesByStep(w, LoopStep);
    var w1 := Apply(w, LoopStep);
    assert w1 == w.(idx := 1, pc := Visit);
    ReachesByStep(w1, LoopStep);
    w' := Loop(w1);
    LoopKeeps(w1);
    LoopProgress(w1);
    LoopMoves(w1);
    LoopScans(w1);
    assert |w.buckets| == BUCKET_NUM;
    hide Loop, WellShaped, Enabled, Fetched, Fetch, Reaches;
    ReachesTransitive(w, w1, w');
  }

  lemma OneStays(f: Frame, condition: Frame -> bool)
    requires !condition(f)
    ensures Kept([f], condition) == [f] && Fetched([f], condition) == []
  {
    assert [f][..0] == [];
  }
}
