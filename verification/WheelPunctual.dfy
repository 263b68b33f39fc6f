/** Exactly which frames the timing wheel wakes on time, and how its scans go round. */
module WheelPunctual {
  import opened QueueModel
  import opened TimeWheel
  import opened WheelTiming

  /** In every run from w0 the frame is punctual, whenever it has a bucket. */
  ghost predicate AlwaysPunctual(w0: Wheel, f: Frame)
    requires WellShaped(w0)
  {
    forall w :: Reaches(w0, w) && WellShaped(w) && HasBucket(w, f) ==> IsPunctual(w, f)
  }

  /** Main result. Every run is punctual for a frame if and only if the frame read a later start
      timestamp than the first, or has no bucket, or is not due at the very first visit, or its wake
      time has come when the loop starts. */
  lemma PunctualIff(w0: Wheel, f: Frame)
    requires Init(w0)
    ensures AlwaysPunctual(w0, f) <==>
            f.rev > 0 || !HasBucket(w0, f) || 2 <= Due(w0, f) || f.wake <= w0.clock
  {
    assert WellShaped(w0);
    hide IsPunctual, Reaches, WellShaped, HasBucket, Init, Due;
    if f.rev > 0 || !HasBucket(w0, f) || 2 <= Due(w0, f) || f.wake <= w0.clock {
      forall w | Reaches(w0, w) && WellShaped(w) && HasBucket(w, f) ensures IsPunctual(w, f) {
        PunctualThen(w0, w, f);
      }
    } else {
      BucketIsPositive(w0, f);
      var w := FirstVisitMissesFrame(w0, f);
      NotPunctual(w, f);
    }
  }

  lemma BucketIsPositive(w: Wheel, f: Frame)
    requires HasBucket(w, f)
    ensures Due(w, f) >= 1 && (f.rev > 0 ==> Due(w, f) >= 2)
  {
    hide BucketIndex;
  }

  lemma NotPunctual(w: Wheel, f: Frame)
    requires WellShaped(w) && HasBucket(w, f) && w.visits >= Due(w, f) && f in w.buckets[1].waiting.chain
    ensures !IsPunctual(w, f)
  {
    hide HasBucket, Due, Lock, WellShaped;
  }

  lemma PunctualThen(w0: Wheel, w: Wheel, f: Frame)
    requires Init(w0) && Reaches(w0, w) && WellShaped(w) && HasBucket(w, f)
    requires f.rev > 0 || !HasBucket(w0, f) || 2 <= Due(w0, f) || f.wake <= w0.clock
    ensures IsPunctual(w, f)
  {
    hide IsPunctual, Leads, WellShaped;
    var steps :| Leads(w0, steps, w);
    BucketIsPositive(w, f);
    if Due(w, f) >= 2 {
      Punctual(w0, steps, w, f);
    } else {
      InvInit(w0);
      InvRun(w0, steps, w);
      hide Inv, Init;
      SameDue(w0, w, f);
      DueAtTheStart(w0, steps, w, f);
    }
  }

  lemma SameDue(w0: Wheel, w: Wheel, f: Frame)
    requires w.precision == w0.precision && w0.starts <= w.starts && |w0.starts| > 0 && f.rev == 0 && HasBucket(w, f)
    ensures HasBucket(w0, f) && Due(w0, f) == Due(w, f)
  {
    assert w.starts[0] == w0.starts[0];
  }

  /** A frame whose wake time has come when the loop starts is taken by the first visit. */
  lemma DueAtTheStart(w0: Wheel, steps: seq<Step>, w: Wheel, f: Frame)
    requires Init(w0) && Leads(w0, steps, w) && WellShaped(w) && HasBucket(w, f)
    requires Due(w, f) == 1 && f.wake <= w0.clock
    ensures IsPunctual(w, f)
  {
    InvInit(w0);
    assert ScannedSince(w0, 0, w0.clock);
    hide Leads, Init, Inv, WellShaped, HasBucket;
    ScannedSinceRun(w0, steps, w, 0, w0.clock);
    if w.visits >= 1 {
      IndexOfFirst(w, f);
      assert VisitNumber(0, 1) == 1;
      assert w.buckets[1].scanOver >= w0.clock;
      NotInAnyBucket(w, f);
    }
    hide RealIndex, Due, BucketIndex;
  }

  lemma IndexOfFirst(w: Wheel, f: Frame)
    requires HasBucket(w, f) && Due(w, f) == 1
    ensures RealIndex(w, f) == 1
  {
  }

  // ---------- round and round ----------

  /** How many of these steps are ordinary scans of bucket k. */
  ghost function Scans(w: Wheel, steps: seq<Step>, w': Wheel, k: nat): nat
    requires WellShaped(w) && Leads(w, steps, w')
    decreases |steps|
  {
    if steps == [] then 0
    else
      StaysWellShaped(w, steps[0]);
      (if steps[0].LoopStep? && w.pc == Visit && w.idx == k then 1 else 0) +
      Scans(Apply(w, steps[0]), steps[1..], w', k)
  }

  /** How many of the visits 1 to v go to bucket k, and one more if k is 0. */
  function VisitsTo(v: nat, k: nat): nat
    requires k < BUCKET_NUM
  {
    (v + BUCKET_NUM - k) / BUCKET_NUM
  }

  lemma OneMoreVisit(v: nat, k: nat, rev: nat, idx: nat)
    requires k < BUCKET_NUM && idx < BUCKET_NUM && v + 1 == VisitNumber(rev, idx)
    ensures VisitsTo(v + 1, k) == VisitsTo(v, k) + if idx == k then 1 else 0
  {
  }

  lemma {:induction false} ScansCount(w: Wheel, steps: seq<Step>, w': Wheel, k: nat)
    requires Inv(w) && Leads(w, steps, w') && k < BUCKET_NUM
    ensures VisitsTo(w'.visits, k) == VisitsTo(w.visits, k) + Scans(w, steps, w', k)
    decreases |steps|
  {
    assert WellShaped(w);
    hide Apply, Enabled, Inv, VisitsTo, WellShaped;
    if steps != [] {
      StaysWellShaped(w, steps[0]);
      InvStep(w, steps[0]);
      OneScan(w, steps[0], k);
      ScansCount(Apply(w, steps[0]), steps[1..], w', k);
    }
  }

  lemma OneScan(w: Wheel, step: Step, k: nat)
    requires Inv(w) && Enabled(w, step) && k < BUCKET_NUM
    ensures VisitsTo(Apply(w, step).visits, k)
         == VisitsTo(w.visits, k) + if step.LoopStep? && w.pc == Visit && w.idx == k then 1 else 0
  {
    OnlyVisitsCount(w, step);
    if step.LoopStep? && w.pc == Visit {
      OneMoreVisit(w.visits, k, |w.starts| - 1, w.idx);
    }
    hide Apply, Enabled, VisitsTo, Visited, BucketsOk, ReadyOk, TransitOk, StartsApart;
  }

  /** In every run, 4096 visits in a row scan each bucket exactly once, whether the loop had to wait
      before them or not. */
  lemma EachBucketOnce(w0: Wheel, before: seq<Step>, w: Wheel, steps: seq<Step>, w': Wheel, k: nat)
    requires Init(w0) && Leads(w0, before, w) && WellShaped(w) && Leads(w, steps, w') && k < BUCKET_NUM
    requires w'.visits == w.visits + BUCKET_NUM
    ensures Scans(w, steps, w', k) == 1
  {
    InvInit(w0);
    InvRun(w0, before, w);
    hide Inv, Init, WellShaped, Scans;
    ScansCount(w, steps, w', k);
    assert VisitsTo(w.visits + BUCKET_NUM, k) == VisitsTo(w.visits, k) + 1;
  }
}
