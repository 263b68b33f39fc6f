/** The timing wheel (src/coroutine_framework/time_module/time_service.cpp) as a step system.

Any number of threads register frames while one thread runs the loop. Each step is one atomic
action of the code: a read or a store of the start timestamp, a critical section under a bucket
lock, or a commit to the scheduler. The clock moves between any two steps. Timestamps are
unbounded naturals. */
module TimeWheel {
  import opened Arith
  import opened QueueModel

  const BUCKET_NUM: nat := 4096

  /** A suspended coroutine on its way through the wheel. `rev` records which start timestamp
      register_frame read: the one of revolution `rev`. */
  datatype Frame = Frame(coro: nat, suspension: nat, wake: nat, rev: nat)

  datatype Bucket = Bucket(scanOver: nat, waiting: Queue<Frame>)

  /** Where the loop thread is. */
  datatype Pc =
    | Advance                  // at the top of the loop
    | StoreStart(now: nat)     // has read the clock for a new start timestamp
    | Visit                    // before the scan of bucket idx
    | Drain                    // committing what the scan fetched
    | Wait                     // before or in wait_for
    | Sweep(k: nat)            // stopped, before the forced scan of bucket k
    | SweepDrain(k: nat)
    | Halted

  datatype Commit = Commit(frame: Frame, at: nat, swept: bool)

  datatype Loss = NothingLost | Lost(frame: Frame)

  /** starts: every value that start_bukcet_run_ts_ has had, the last one being its value now.
      visits: the number of scans the loop has finished, not counting forced ones.
      begun, commits, late: what has been registered and committed so far, and which frames were
      queued only after the forced scan of their bucket. */
  datatype Wheel = Wheel(
    precision: nat, clock: nat, stop: bool,
    starts: seq<nat>, buckets: seq<Bucket>, pc: Pc, idx: nat, ready: seq<Frame>,
    registering: multiset<Frame>, missed: multiset<Frame>, lost: Loss,
    visits: nat, begun: multiset<Frame>, commits: seq<Commit>, late: multiset<Frame>)

  datatype Step =
    | Tick(d: nat)
    | SetStop
    | BeginRegister(coro: nat, suspension: nat, wake: nat)   // reads the start timestamp
    | LockRegister(f: Frame)                                 // the critical section
    | CommitMissed(f: Frame)
    | LoopStep                                               // the next action of the loop thread

  predicate WellShaped(w: Wheel) {
    w.precision > 0 && |w.starts| > 0 && |w.buckets| == BUCKET_NUM && w.idx < BUCKET_NUM &&
    forall k :: 0 <= k < BUCKET_NUM ==> w.buckets[k].waiting.Valid()
  }

  function Start(w: Wheel): nat
    requires WellShaped(w)
  {
    w.starts[|w.starts| - 1]
  }

  ghost predicate Init(w: Wheel) {
    && WellShaped(w) && |w.starts| == 1 && w.starts[0] <= w.clock
    && (forall k :: 0 <= k < BUCKET_NUM ==> w.buckets[k] == Bucket(0, EmptyQueue()))
    && w.pc == Advance && w.idx == 0 && w.ready == [] && w.visits == 0
    && w.registering == w.missed == w.begun == w.late == multiset{} && w.lost == NothingLost && w.commits == []
  }

  // ---------- register_frame ----------

  /** The frame has a bucket only if its wake time lies after the start timestamp it read. */
  predicate HasBucket(w: Wheel, f: Frame) {
    w.precision > 0 && f.rev < |w.starts| && w.starts[f.rev] < f.wake
  }

  /** ceil((wake - start) / precision), as the code computes it. */
  function BucketIndex(w: Wheel, f: Frame): (c: nat)
    requires HasBucket(w, f)
    ensures c > 0
  {
    (f.wake - w.starts[f.rev] - 1) / w.precision + 1
  }

  function RealIndex(w: Wheel, f: Frame): (k: nat)
    requires HasBucket(w, f)
    ensures k < BUCKET_NUM
  {
    BucketIndex(w, f) % BUCKET_NUM
  }

  /** The forced scans go through the buckets in order. */
  predicate Swept(pc: Pc, k: nat) {
    match pc
    case Sweep(j) => k < j
    case SweepDrain(j) => k <= j
    case Halted => true
    case _ => false
  }

  function SetBucket(w: Wheel, k: nat, b: Bucket): Wheel
    requires k < |w.buckets|
  {
    w.(buckets := w.buckets[k := b])
  }

  /** The critical section of register_frame. A frame that is appended to a queue whose tail is
      detached is not reachable from the bucket any more. */
  function Lock(w: Wheel, f: Frame): Wheel
    requires WellShaped(w) && HasBucket(w, f)
  {
    var k := RealIndex(w, f);
    var b := w.buckets[k];
    var w1 := w.(registering := w.registering - multiset{f});
    if b.scanOver >= f.wake then w1.(missed := w.missed + multiset{f})
    else
      var w2 := SetBucket(w1, k, b.(waiting := Append(b.waiting, f)));
      if !b.waiting.attached then w2.(lost := Lost(f))
      else w2.(late := if Swept(w.pc, k) then w.late + multiset{f} else w.late)
  }

  // ---------- the loop ----------

  function DueBy(limit: nat): Frame -> bool {
    (f: Frame) => f.wake <= limit
  }

  function Any(): Frame -> bool {
    (f: Frame) => true
  }

  function Condition(limit: nat, force: bool): Frame -> bool {
    if force then Any() else DueBy(limit)
  }

  function Scanned(w: Wheel, k: nat, force: bool): Bucket
    requires WellShaped(w) && k < BUCKET_NUM
  {
    Bucket(w.clock, Fetch(w.buckets[k].waiting, Condition(w.clock, force)))
  }

  /** wakeup_frame_on_bucket_ up to the release of the lock. */
  function Scan(w: Wheel, k: nat, force: bool, pc: Pc): Wheel
    requires WellShaped(w) && k < BUCKET_NUM
  {
    SetBucket(w, k, Scanned(w, k, force))
      .(ready := Fetched(w.buckets[k].waiting.chain, Condition(w.clock, force)), pc := pc)
  }

  function CommitFirst(w: Wheel, swept: bool): Wheel
    requires w.ready != []
  {
    w.(ready := w.ready[1..], commits := w.commits + [Commit(w.ready[0], w.clock, swept)])
  }

  function NextRun(w: Wheel): nat
    requires WellShaped(w)
  {
    Start(w) + w.precision * (w.idx + 1)
  }

  function Loop(w: Wheel): Wheel
    requires WellShaped(w) && Enabled(w, LoopStep)
  {
    match w.pc
    case Advance =>
      var idx := (w.idx + 1) % BUCKET_NUM;
      w.(idx := idx, pc := if idx == 0 then StoreStart(w.clock) else Visit)
    case StoreStart(now) => w.(starts := w.starts + [now], pc := Visit)
    case Visit => Scan(w, w.idx, false, Drain).(visits := w.visits + 1)
    case Drain => if w.ready == [] then w.(pc := Wait) else CommitFirst(w, false)
    case Wait => w.(pc := if w.stop then Sweep(0) else Advance)
    case Sweep(k) => if k < BUCKET_NUM then Scan(w, k, true, SweepDrain(k)) else w.(pc := Halted)
    case SweepDrain(k) => if w.ready == [] then w.(pc := Sweep(k + 1)) else CommitFirst(w, true)
    case Halted => w
  }

  /** An execution ends when a frame is lost: the links it left behind belong to other queues. */
  predicate Enabled(w: Wheel, step: Step) {
    && w.lost.NothingLost?
    && match step
       case LockRegister(f) => f in w.registering && HasBucket(w, f)
       case CommitMissed(f) => f in w.missed
       // wait_for returns when it is told to stop or when the time has come
       case LoopStep => WellShaped(w) && w.pc != Halted && (w.pc == Wait ==> w.stop || w.clock >= NextRun(w))
       case _ => true
  }

  function Apply(w: Wheel, step: Step): Wheel
    requires WellShaped(w) && Enabled(w, step)
  {
    match step
    case Tick(d) => w.(clock := w.clock + d)
    case SetStop => w.(stop := true)
    case BeginRegister(coro, suspension, wake) =>
      var f := Frame(coro, suspension, wake, |w.starts| - 1);
      var w1 := w.(begun := w.begun + multiset{f});
      if Start(w) >= wake then w1.(missed := w.missed + multiset{f})
      else w1.(registering := w.registering + multiset{f})
    case LockRegister(f) => Lock(w, f)
    case CommitMissed(f) =>
      w.(missed := w.missed - multiset{f}, commits := w.commits + [Commit(f, w.clock, false)])
    case LoopStep => Loop(w)
  }

  lemma ShapeOfSetBucket(w: Wheel, k: nat, b: Bucket)
    requires WellShaped(w) && k < BUCKET_NUM && b.waiting.Valid()
    ensures WellShaped(SetBucket(w, k, b))
  {
  }

  lemma LockShape(w: Wheel, f: Frame)
    requires WellShaped(w) && HasBucket(w, f)
    ensures WellShaped(Lock(w, f))
  {
    var k := RealIndex(w, f);
    var b := w.buckets[k];
    hide RealIndex, HasBucket, Append;
    ShapeOfSetBucket(w, k, b.(waiting := Append(b.waiting, f)));
  }

  lemma LoopShape(w: Wheel)
    requires WellShaped(w) && Enabled(w, LoopStep)
    ensures WellShaped(Loop(w))
  {
    if w.pc.Visit? {
      ScanShape(w, w.idx, false, Drain);
    } else if w.pc.Sweep? && w.pc.k < BUCKET_NUM {
      ScanShape(w, w.pc.k, true, SweepDrain(w.pc.k));
    }
    hide Scan;
  }

  lemma StaysWellShaped(w: Wheel, step: Step)
    requires WellShaped(w) && Enabled(w, step)
    ensures WellShaped(Apply(w, step))
  {
    hide Lock, Loop, HasBucket;
    if step.LockRegister? {
      LockShape(w, step.f);
    } else if step.LoopStep? {
      LoopShape(w);
    }
  }

  lemma ScanShape(w: Wheel, k: nat, force: bool, pc: Pc)
    requires WellShaped(w) && k < BUCKET_NUM
    ensures WellShaped(Scan(w, k, force, pc))
  {
    var b := Scanned(w, k, force);
    assert b.waiting.Valid() by { hide Condition, WellShaped; assert w.buckets[k].waiting.Valid(); }
    hide Scanned;
    ShapeOfSetBucket(w, k, b);
  }

  ghost predicate Leads(w: Wheel, steps: seq<Step>, w': Wheel)
    requires WellShaped(w)
    decreases steps
  {
    if steps == [] then w' == w
    else
      Enabled(w, steps[0]) && (StaysWellShaped(w, steps[0]); Leads(Apply(w, steps[0]), steps[1..], w'))
  }

  // ---------- what one action of the loop thread changes ----------

  lemma LoopKeeps(w: Wheel)
    requires WellShaped(w) && Enabled(w, LoopStep)
    ensures var w' := Loop(w);
      && w'.precision == w.precision && w'.clock == w.clock && w'.stop == w.stop
      && w'.registering == w.registering && w'.missed == w.missed && w'.lost == w.lost
      && w'.begun == w.begun && w'.late == w.late
  {
    hide WellShaped, Scanned, Fetched;
  }

  lemma LoopProgress(w: Wheel)
    requires WellShaped(w) && Enabled(w, LoopStep)
    ensures var w' := Loop(w);
      && w'.starts == (if w.pc.StoreStart? then w.starts + [w.pc.now] else w.starts)
      && w'.visits == (if w.pc.Visit? then w.visits + 1 else w.visits)
      && w'.idx == (if w.pc.Advance? then (w.idx + 1) % BUCKET_NUM else w.idx)
  {
    hide WellShaped, Scanned, Fetched;
  }

  function NextPc(w: Wheel): Pc {
    match w.pc
    case Advance => if (w.idx + 1) % BUCKET_NUM == 0 then StoreStart(w.clock) else Visit
    case StoreStart(_) => Visit
    case Visit => Drain
    case Drain => if w.ready == [] then Wait else Drain
    case Wait => if w.stop then Sweep(0) else Advance
    case Sweep(k) => if k < BUCKET_NUM then SweepDrain(k) else Halted
    case SweepDrain(k) => if w.ready == [] then Sweep(k + 1) else SweepDrain(k)
    case Halted => Halted
  }

  lemma LoopMoves(w: Wheel)
    requires WellShaped(w) && Enabled(w, LoopStep)
    ensures Loop(w).pc == NextPc(w)
  {
    hide WellShaped, Scanned, Fetched;
  }

  /** The bucket that the next action of the loop thread scans, or -1. */
  function ScansNow(w: Wheel): int {
    match w.pc
    case Visit => w.idx
    case Sweep(k) => if k < BUCKET_NUM then k else -1
    case _ => -1
  }

  lemma LoopScans(w: Wheel)
    requires WellShaped(w) && Enabled(w, LoopStep)
    ensures var k := ScansNow(w);
      k < BUCKET_NUM &&
      if k < 0 then Loop(w).buckets == w.buckets
      else
        && Loop(w).buckets == w.buckets[k := Scanned(w, k, w.pc.Sweep?)]
        && Loop(w).ready == Fetched(w.buckets[k].waiting.chain, Condition(w.clock, w.pc.Sweep?))
        && Loop(w).commits == w.commits
  {
    assert |w.buckets| == BUCKET_NUM && w.idx < BUCKET_NUM;
    hide WellShaped, Scanned, Fetched;
  }

  predicate CommitsNow(w: Wheel) {
    (w.pc.Drain? || w.pc.SweepDrain?) && w.ready != []
  }

  lemma LoopCommits(w: Wheel)
    requires WellShaped(w) && Enabled(w, LoopStep) && ScansNow(w) < 0
    ensures var w' := Loop(w);
      if CommitsNow(w) then
        w'.ready == w.ready[1..] && w'.commits == w.commits + [Commit(w.ready[0], w.clock, w.pc.SweepDrain?)]
      else w'.ready == w.ready && w'.commits == w.commits
  {
    hide WellShaped, Scanned, Fetched;
  }

  lemma {:induction false} LeadsJoin(w: Wheel, steps: seq<Step>, w1: Wheel, more: seq<Step>, w2: Wheel)
    requires WellShaped(w) && Leads(w, steps, w1) && WellShaped(w1) && Leads(w1, more, w2)
    ensures Leads(w, steps + more, w2)
    decreases |steps|
  {
    hide Apply, Enabled, WellShaped;
    if steps == [] {
      assert [] + more == more;
    } else {
      StaysWellShaped(w, steps[0]);
      LeadsJoin(Apply(w, steps[0]), steps[1..], w1, more, w2);
      assert (steps + more)[1..] == steps[1..] + more;
    }
  }

  ghost predicate Reaches(w: Wheel, w': Wheel)
    requires WellShaped(w)
  {
    exists steps :: Leads(w, steps, w')
  }

  lemma ReachesTransitive(w: Wheel, w1: Wheel, w2: Wheel)
    requires WellShaped(w) && WellShaped(w1) && Reaches(w, w1) && Reaches(w1, w2)
    ensures Reaches(w, w2)
  {
    var steps :| Leads(w, steps, w1);
    var more :| Leads(w1, more, w2);
    LeadsJoin(w, steps, w1, more, w2);
    hide Leads, WellShaped;
  }

  lemma ReachesByStep(w: Wheel, step: Step)
    requires WellShaped(w) && Enabled(w, step)
    ensures WellShaped(Apply(w, step)) && Reaches(w, Apply(w, step))
  {
    StaysWellShaped(w, step);
    assert Leads(Apply(w, step), [], Apply(w, step));
    assert [step][1..] == [];
    assert Leads(w, [step], Apply(w, step));
    hide *;
  }

  lemma ReachesThen(w0: Wheel, w: Wheel, step: Step)
    requires WellShaped(w0) && WellShaped(w) && Reaches(w0, w) && Enabled(w, step)
    ensures WellShaped(Apply(w, step)) && Reaches(w0, Apply(w, step))
  {
    ReachesByStep(w, step);
    ReachesTransitive(w0, w, Apply(w, step));
    hide *;
  }

  lemma ReachesSelf(w: Wheel)
    requires WellShaped(w)
    ensures Reaches(w, w)
  {
    assert Leads(w, [], w);
    hide *;
  }

  /** From w to w' these steps are taken in this order, among any number of steps of others. */
  ghost predicate Performs(w: Wheel, mine: seq<Step>, w': Wheel)
    requires WellShaped(w)
    decreases |mine|
  {
    if mine == [] then Reaches(w, w')
    else
      var last := |mine| - 1;
      exists w1 :: Performs(w, mine[..last], w1) && StepThen(w1, mine[last], w')
  }

  ghost predicate StepThen(w: Wheel, step: Step, w': Wheel) {
    WellShaped(w) && Enabled(w, step) && WellShaped(Apply(w, step)) && Reaches(Apply(w, step), w')
  }

  lemma PerformsOn(w: Wheel, mine: seq<Step>, w1: Wheel, w2: Wheel)
    requires WellShaped(w) && Performs(w, mine, w1) && WellShaped(w1) && Reaches(w1, w2)
    ensures Performs(w, mine, w2)
  {
    hide Reaches, Enabled, Apply, WellShaped;
    if mine == [] {
      ReachesTransitive(w, w1, w2);
    } else {
      var last := |mine| - 1;
      var k :| Performs(w, mine[..last], k) && StepThen(k, mine[last], w1);
      ReachesTransitive(Apply(k, mine[last]), w1, w2);
      assert StepThen(k, mine[last], w2);
    }
  }

  lemma PerformsThen(w: Wheel, mine: seq<Step>, w1: Wheel, step: Step)
    requires WellShaped(w) && Performs(w, mine, w1) && WellShaped(w1) && Enabled(w1, step)
    ensures WellShaped(Apply(w1, step)) && Performs(w, mine + [step], Apply(w1, step))
  {
    hide Reaches, Enabled, Apply, WellShaped;
    StaysWellShaped(w1, step);
    ReachesSelf(Apply(w1, step));
    assert StepThen(w1, step, Apply(w1, step));
    hide StepThen;
    assert (mine + [step])[..|mine|] == mine && (mine + [step])[|mine|] == step;
  }

  lemma PerformsNothing(w: Wheel)
    requires WellShaped(w)
    ensures Performs(w, [], w)
  {
    ReachesSelf(w);
    hide Reaches, WellShaped;
  }

  lemma {:induction false} PerformsJoin(w: Wheel, mine: seq<Step>, w1: Wheel, more: seq<Step>, w2: Wheel)
    requires WellShaped(w) && Performs(w, mine, w1) && WellShaped(w1) && Performs(w1, more, w2)
    ensures Performs(w, mine + more, w2)
    decreases |more|
  {
    hide Reaches, WellShaped, StepThen;
    if more == [] {
      PerformsOn(w, mine, w1, w2);
      assert mine + [] == mine;
    } else {
      var last := |more| - 1;
      var k :| Performs(w1, more[..last], k) && StepThen(k, more[last], w2);
      PerformsJoin(w, mine, w1, more[..last], k);
      assert (mine + more)[..|mine + more| - 1] == mine + more[..last];
    }
  }

  lemma {:induction false} PerformsReaches(w: Wheel, mine: seq<Step>, w': Wheel)
    requires WellShaped(w) && Performs(w, mine, w')
    ensures Reaches(w, w')
    decreases |mine|
  {
    hide Reaches, WellShaped, Enabled, Apply;
    if mine != [] {
      var last := |mine| - 1;
      var k :| Performs(w, mine[..last], k) && StepThen(k, mine[last], w');
      PerformsReaches(w, mine[..last], k);
      ReachesThen(w, k, mine[last]);
      ReachesTransitive(w, Apply(k, mine[last]), w');
    }
  }

  function LoopSteps(n: nat): seq<Step> {
    if n == 0 then [] else LoopSteps(n - 1) + [LoopStep]
  }

  lemma {:induction false} LoopStepsJoin(m: nat, n: nat)
    ensures LoopSteps(m) + LoopSteps(n) == LoopSteps(m + n)
  {
    if n > 0 {
      LoopStepsJoin(m, n - 1);
      assert LoopSteps(m) + (LoopSteps(n - 1) + [LoopStep]) == (LoopSteps(m) + LoopSteps(n - 1)) + [LoopStep];
    } else {
      assert LoopSteps(m) + [] == LoopSteps(m);
    }
  }

  /** What a registration does when no step comes in between. */
  lemma Registers(w: Wheel, f: Frame) returns (w': Wheel)
    requires WellShaped(w) && w.lost == NothingLost && f.rev == |w.starts| - 1 && HasBucket(w, f)
    requires w.buckets[RealIndex(w, f)].scanOver < f.wake
    ensures WellShaped(w') && Reaches(w, w')
    ensures var k := RealIndex(w, f);
      var b := w.buckets[k];
      && w'.lost == (if b.waiting.attached then NothingLost else Lost(f))
      && w'.buckets == w.buckets[k := b.(waiting := Append(b.waiting, f))]
    ensures w'.precision == w.precision && w'.starts == w.starts && w'.clock == w.clock
    ensures w'.pc == w.pc && w'.idx == w.idx && w'.ready == w.ready && w'.visits == w.visits
  {
    var first, second := BeginRegister(f.coro, f.suspension, f.wake), LockRegister(f);
    ReachesByStep(w, first);
    var w1 := Apply(w, first);
    assert w1 == w.(begun := w.begun + multiset{f}, registering := w.registering + multiset{f});
    assert HasBucket(w1, f) && RealIndex(w1, f) == RealIndex(w, f);
    hide HasBucket, RealIndex, WellShaped, Append;
    ReachesByStep(w1, second);
    w' := Apply(w1, second);
    ReachesTransitive(w, w1, w');
    hide Reaches;
  }
}
