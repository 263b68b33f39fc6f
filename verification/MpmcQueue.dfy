/** The multi-producer, multi-consumer queue of the asynchronous logger
    (spdlog/details/mpmc_blocking_q.h). The ring is only touched under the queue's mutex, but a
    discarded item is counted after the mutex has been released. An execution with any number of
    producers and consumers is therefore a sequence of the operations below, and the theorems are
    about every such sequence. */
module MpmcQueue {
  import opened BoundedSequence
  import Ring = CircularQ

  datatype Op<T> =
    | Enqueue(item: T)             // blocks while the queue is full
    | EnqueueNowait(item: T)       // overruns the oldest item
    | EnqueueIfHaveRoom(item: T)   // discards the new item, still uncounted
    | CountDiscard                 // by the producer of a discarded item
    | Dequeue                      // blocks while the queue is empty

  /** uncounted: the discards that their producers have still to count. */
  datatype State<T> = State(queue: seq<T>, overrun: nat, discarded: nat, uncounted: nat)

  function NewQueue<T>(): State<T> {
    State([], 0, 0, 0)
  }

  /** A blocking operation can be performed when the predicate it waits for holds. */
  predicate Enabled<T>(s: State<T>, capacity: int, op: Op<T>) {
    match op
    case Enqueue(_) => !IsFull(s.queue, capacity)
    case Dequeue => s.queue != []
    case CountDiscard => s.uncounted > 0
    case _ => true
  }

  predicate Fits<T>(s: State<T>, capacity: int) {
    |s.queue| <= capacity || (capacity == DISABLED && s.queue == [])
  }

  function Apply<T>(s: State<T>, capacity: int, op: Op<T>): (s': State<T>)
    requires Fits(s, capacity) && Enabled(s, capacity, op)
    ensures Fits(s', capacity)
  {
    var full := IsFull(s.queue, capacity);
    match op
    case Enqueue(item) => s.(queue := PushBack(s.queue, capacity, item))
    case EnqueueNowait(item) =>
      s.(queue := PushBack(s.queue, capacity, item), overrun := s.overrun + if full then 1 else 0)
    case EnqueueIfHaveRoom(item) =>
      if full then s.(uncounted := s.uncounted + 1)
      else s.(queue := PushBack(s.queue, capacity, item))
    case CountDiscard => s.(discarded := s.discarded + 1, uncounted := s.uncounted - 1)
    case Dequeue => s.(queue := s.queue[1..])
  }

  class MpmcBlockingQueue<T(0)> {
    const q: Ring.CircularQ<T>
    var discardCounter: nat
    ghost var uncounted: nat

    ghost predicate Valid()
      reads this, q
    {
      q.Valid()
    }

    ghost function Abstract(): (s: State<T>)
      reads this, q, q.v
      requires Valid()
      ensures Fits(s, q.Capacity())
    {
      State(q.Contents(), q.overrunCounter, discardCounter, uncounted)
    }

    constructor (maxItems: nat)
      requires maxItems < Ring.SIZE_T_RANGE
      ensures Valid() && fresh(q) && fresh(q.v) && Abstract() == NewQueue()
      ensures q.Capacity() == if maxItems + 1 < Ring.SIZE_T_RANGE then maxItems else DISABLED
    {
      q := new Ring.CircularQ(maxItems);
      discardCounter, uncounted := 0, 0;
    }

    /** The critical section of `enqueue`, entered once the wait for room is over. */
    method EnqueueWhenRoom(item: T)
      requires Valid() && Enabled(Abstract(), q.Capacity(), Enqueue(item))
      modifies q, q.v
      ensures Valid() && q.v == old(q.v) && q.Capacity() == old(q.Capacity())
      ensures Abstract() == Apply(old(Abstract()), q.Capacity(), Enqueue(item))
    {
      q.PushBack(item);
    }

    method EnqueueWithoutWaiting(item: T)
      requires Valid()
      modifies q, q.v
      ensures Valid() && q.v == old(q.v) && q.Capacity() == old(q.Capacity())
      ensures Abstract() == Apply(old(Abstract()), q.Capacity(), EnqueueNowait(item))
    {
      q.PushBack(item);
    }

    /** The critical section of `enqueue_if_have_room`. */
    method EnqueueIfRoom(item: T) returns (pushed: bool)
      requires Valid()
      modifies this`uncounted, q, q.v
      ensures Valid() && q.v == old(q.v) && q.Capacity() == old(q.Capacity())
      ensures Abstract() == Apply(old(Abstract()), q.Capacity(), EnqueueIfHaveRoom(item))
      ensures pushed <==> !IsFull(old(Abstract()).queue, q.Capacity())
    {
      pushed := false;
      var full := q.Full();
      if !full {
        q.PushBack(item);
        pushed := true;
      } else {
        uncounted := uncounted + 1;
      }
    }

    /** A discard is counted outside the critical section. */
    method Discard()
      requires Valid() && Enabled(Abstract(), q.Capacity(), CountDiscard)
      modifies this`uncounted, this`discardCounter
      ensures Valid() && Abstract() == Apply(old(Abstract()), q.Capacity(), CountDiscard)
    {
      discardCounter := discardCounter + 1;
      uncounted := uncounted - 1;
    }

    /** Both, when nobody comes in between. */
    method EnqueueOrDiscard(item: T)
      requires Valid()
      modifies this, q, q.v
      ensures Valid() && q.v == old(q.v) && q.Capacity() == old(q.Capacity())
      ensures Abstract() == EnqueuedOrDiscarded(old(Abstract()), q.Capacity(), item)
    {
      var pushed := EnqueueIfRoom(item);
      if !pushed { Discard(); }
    }

    /** `dequeue_for`: false is returned only when the wait ended with an empty queue.
        `dequeue` is the case in which it never does. */
    method DequeueFor() returns (popped: bool, item: T)
      requires Valid()
      modifies q
      ensures Valid() && q.v == old(q.v) && q.Capacity() == old(q.Capacity())
      ensures popped <==> old(Abstract()).queue != []
      ensures if popped then
                && item == old(Abstract()).queue[0]
                && Abstract() == Apply(old(Abstract()), q.Capacity(), Dequeue)
              else Abstract() == old(Abstract())
    {
      item := *;
      var empty := q.Empty();
      if empty { return false, item; }
      item := q.Front();
      q.PopFront();
      return true, item;
    }
  }

  function EnqueuedOrDiscarded<T>(s: State<T>, capacity: int, item: T): State<T>
    requires Fits(s, capacity)
  {
    var s1 := Apply(s, capacity, EnqueueIfHaveRoom(item));
    if IsFull(s.queue, capacity) then Apply(s1, capacity, CountDiscard) else s1
  }

  // ---------- whole executions ----------

  datatype Exit = Delivered | Overrun

  /** What happened so far: the items that entered the queue and the items that left it, each
      in order, and the items that were turned away. */
  datatype History<T> = History(entered: seq<T>, left: seq<(T, Exit)>, turnedAway: seq<T>)

  ghost function Record<T>(h: History<T>, s: State<T>, capacity: int, op: Op<T>): History<T>
    requires Fits(s, capacity) && Enabled(s, capacity, op)
  {
    var full := IsFull(s.queue, capacity);
    match op
    case Enqueue(item) => h.(entered := h.entered + [item])
    case EnqueueNowait(item) =>
      h.(entered := h.entered + [item],
         left := h.left + if full then [((s.queue + [item])[0], Overrun)] else [])
    case EnqueueIfHaveRoom(item) =>
      if full then h.(turnedAway := h.turnedAway + [item]) else h.(entered := h.entered + [item])
    case CountDiscard => h
    case Dequeue => h.(left := h.left + [(s.queue[0], Delivered)])
  }

  datatype Execution<T> =
    | Impossible     // some operation was performed although it had to wait
    | Run(state: State<T>, history: History<T>)

  /** The state and the history after performing the operations on a new queue. */
  ghost function After<T>(ops: seq<Op<T>>, capacity: int): (r: Execution<T>)
    requires capacity >= DISABLED
    ensures r.Run? ==> Fits(r.state, capacity)
  {
    if ops == [] then Run(NewQueue(), History([], [], []))
    else
      var op := ops[|ops| - 1];
      match After(ops[..|ops| - 1], capacity)
      case Impossible => Impossible
      case Run(s, h) =>
        if Enabled(s, capacity, op) then Run(Apply(s, capacity, op), Record(h, s, capacity, op)) else Impossible
  }

  ghost predicate Possible<T>(ops: seq<Op<T>>, capacity: int)
    requires capacity >= DISABLED
  {
    After(ops, capacity).Run?
  }

  ghost function AttemptedBy<T>(op: Op<T>): seq<T> {
    if op.Dequeue? || op.CountDiscard? then [] else [op.item]
  }

  /** The items that the operations try to enqueue, in order. */
  ghost function Attempted<T>(ops: seq<Op<T>>): seq<T> {
    if ops == [] then [] else Attempted(ops[..|ops| - 1]) + AttemptedBy(ops[|ops| - 1])
  }

  ghost function Items<T>(left: seq<(T, Exit)>): (items: seq<T>)
    ensures |items| == |left|
  {
    seq(|left|, i requires 0 <= i < |left| => left[i].0)
  }

  ghost function Count<T>(left: seq<(T, Exit)>, exit: Exit): nat {
    if left == [] then 0
    else Count(left[..|left| - 1], exit) + if left[|left| - 1].1 == exit then 1 else 0
  }

  lemma CountAppend<T>(left: seq<(T, Exit)>, x: (T, Exit), exit: Exit)
    ensures Count(left + [x], exit) == Count(left, exit) + if x.1 == exit then 1 else 0
  {
    assert (left + [x])[..|left|] == left;
  }

  lemma {:induction false} CountsAddUp<T>(left: seq<(T, Exit)>)
    ensures Count(left, Delivered) + Count(left, Overrun) == |left|
  {
    if left != [] { CountsAddUp(left[..|left| - 1]); }
  }

  /** The history explains the state: what entered is what left, in the same order, followed by
      what is still queued, and the counters count what they name. */
  ghost predicate Accounted<T>(s: State<T>, h: History<T>, attempted: seq<T>, capacity: int) {
    && |s.queue| <= capacity
    && h.entered == Items(h.left) + s.queue
    && multiset(attempted) == multiset(h.entered) + multiset(h.turnedAway)
    && s.overrun == Count(h.left, Overrun)
    && s.discarded + s.uncounted == |h.turnedAway|
  }

  /** One item more may be queued for a moment, before a full queue drops its oldest one. */
  lemma Enters<T>(s: State<T>, h: History<T>, attempted: seq<T>, capacity: int, item: T)
    requires Accounted(s, h, attempted, capacity)
    ensures Accounted(s.(queue := s.queue + [item]), h.(entered := h.entered + [item]), attempted + [item], capacity + 1)
    ensures |s.queue| < capacity ==>
              Accounted(s.(queue := s.queue + [item]), h.(entered := h.entered + [item]), attempted + [item], capacity)
  {
    hide Items, Count;
    assert h.entered + [item] == Items(h.left) + (s.queue + [item]);
  }

  lemma Leaves<T>(s: State<T>, h: History<T>, attempted: seq<T>, capacity: int, exit: Exit)
    requires Accounted(s, h, attempted, capacity) && s.queue != []
    ensures Accounted(s.(queue := s.queue[1..], overrun := s.overrun + if exit == Overrun then 1 else 0),
                      h.(left := h.left + [(s.queue[0], exit)]), attempted, capacity - 1)
  {
    CountAppend(h.left, (s.queue[0], exit), Overrun);
    assert Items(h.left + [(s.queue[0], exit)]) == Items(h.left) + [s.queue[0]];
    hide Items, Count;
    assert s.queue == [s.queue[0]] + s.queue[1..];
  }

  lemma StepAccounted<T>(s: State<T>, h: History<T>, attempted: seq<T>, capacity: int, op: Op<T>)
    requires capacity >= 0 && Accounted(s, h, attempted, capacity) && Enabled(s, capacity, op)
    ensures Accounted(Apply(s, capacity, op), Record(h, s, capacity, op), attempted + AttemptedBy(op), capacity)
  {
    hide Items, Count;
    if op.Dequeue? {
      Leaves(s, h, attempted, capacity, Delivered);
      assert attempted + [] == attempted;
    } else if op.CountDiscard? {
      assert attempted + [] == attempted;
    } else {
      Enters(s, h, attempted, capacity, op.item);
      if op.EnqueueNowait? {
        var s1, h1 := s.(queue := s.queue + [op.item]), h.(entered := h.entered + [op.item]);
        if IsFull(s.queue, capacity) {
          Leaves(s1, h1, attempted + [op.item], capacity + 1, Overrun);
        } else {
          assert h.left + [] == h.left;
        }
      }
    }
  }

  /** Main result. Items leave in the order in which they entered, whichever way they leave;
      what entered is exactly what left followed by what is still queued; what was attempted is
      what entered and what was turned away; and the two counters count what they name. */
  lemma {:induction false} FirstInFirstOut<T>(ops: seq<Op<T>>, capacity: int)
    requires capacity >= 0 && Possible(ops, capacity)
    ensures var r := After(ops, capacity);
            Accounted(r.state, r.history, Attempted(ops), capacity)
  {
    if ops != [] {
      var before := ops[..|ops| - 1];
      FirstInFirstOut(before, capacity);
      var r := After(before, capacity);
      StepAccounted(r.state, r.history, Attempted(before), capacity, ops[|ops| - 1]);
    }
  }

  /** Conservation in the numbers an observer can see: it is exact, except that a discard is missing
      between the moment its producer releases the mutex and the moment it counts it. */
  lemma Conservation<T>(ops: seq<Op<T>>, capacity: int)
    requires capacity >= 0 && Possible(ops, capacity)
    ensures var r := After(ops, capacity);
            var seen := |r.state.queue| + Count(r.history.left, Delivered) + r.state.overrun + r.state.discarded;
            && |Attempted(ops)| == seen + r.state.uncounted
            && (|Attempted(ops)| == seen <==> r.state.uncounted == 0)
  {
    FirstInFirstOut(ops, capacity);
    var r := After(ops, capacity);
    CountsAddUp(r.history.left);
    assert |multiset(Attempted(ops))| == |multiset(r.history.entered) + multiset(r.history.turnedAway)|;
  }

  ghost predicate BlockOnly<T>(ops: seq<Op<T>>) {
    forall i :: 0 <= i < |ops| ==> ops[i].Enqueue? || ops[i].Dequeue?
  }

  /** With the block policy alone nothing is lost: the attempted items, in their order, are the
      delivered ones followed by the queued ones. */
  lemma BlockingLosesNothing<T>(ops: seq<Op<T>>, capacity: int)
    requires capacity >= 0 && Possible(ops, capacity) && BlockOnly(ops)
    ensures var r := After(ops, capacity);
            && r.state.overrun == 0 && r.state.discarded == 0 && r.state.uncounted == 0
            && Attempted(ops) == Items(r.history.left) + r.state.queue
            && Count(r.history.left, Delivered) == |r.history.left|
  {
    FirstInFirstOut(ops, capacity);
    BlockingTurnsNothingAway(ops, capacity);
    CountsAddUp(After(ops, capacity).history.left);
  }

  lemma {:induction false} BlockingTurnsNothingAway<T>(ops: seq<Op<T>>, capacity: int)
    requires capacity >= 0 && Possible(ops, capacity) && BlockOnly(ops)
    ensures var r := After(ops, capacity);
            r.state.overrun == 0 && r.history.turnedAway == [] && r.history.entered == Attempted(ops)
  {
    hide Items, Count;
    if ops != [] {
      var op := ops[|ops| - 1];
      assert op.Enqueue? || op.Dequeue?;
      BlockingTurnsNothingAway(ops[..|ops| - 1], capacity);
      assert Attempted(ops[..|ops| - 1]) + [] == Attempted(ops[..|ops| - 1]);
    }
  }

  /** A queue built with the largest size_t is disabled. It swallows every item and counts none,
      so conservation holds for exactly those arguments of the constructor whose successor is a
      size_t. */
  lemma ConservationIff(maxItems: nat)
    requires maxItems < Ring.SIZE_T_RANGE
    ensures var capacity := if maxItems + 1 < Ring.SIZE_T_RANGE then maxItems else DISABLED;
            maxItems + 1 < Ring.SIZE_T_RANGE <==>
            forall ops: seq<Op<int>> | Possible(ops, capacity) ::
              var r := After(ops, capacity);
              |Attempted(ops)| == |r.state.queue| + Count(r.history.left, Delivered) + r.state.overrun + r.state.discarded + r.state.uncounted
  {
    if maxItems + 1 < Ring.SIZE_T_RANGE {
      forall ops: seq<Op<int>> | Possible(ops, maxItems)
        ensures var r := After(ops, maxItems);
                |Attempted(ops)| == |r.state.queue| + Count(r.history.left, Delivered) + r.state.overrun + r.state.discarded + r.state.uncounted
      {
        Conservation(ops, maxItems);
      }
    } else {
      var ops := [Enqueue(0)];
      assert ops[..0] == [];
      assert Possible(ops, DISABLED);
      assert Attempted(ops) == [0];
      assert After(ops, DISABLED).state == NewQueue();
    }
  }
}
