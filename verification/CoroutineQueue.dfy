/** The intrusive queue of coroutines (src/coroutine_framework/queue.ipp): what its three
    operations do to the links, and what that means for the frames in it.

`fetch_nodes` unlinks nodes but moves `tail_` only when the queue becomes empty. When it takes the
last node and leaves another one behind, `tail_` keeps pointing to a node of another queue; the
next frame appended is linked behind that node and is lost to this queue. */
module QueueModel {

  /** chain: the frames that the links from `head_` lead to. size: the field `size_`.
      attached: `tail_` is the last node of the chain (or the queue counts as empty, in which case
      `tail_` is not looked at). */
  datatype Queue<T> = Queue(chain: seq<T>, size: nat, attached: bool) {
    predicate Valid() {
      && |chain| <= size
      && (attached ==> size == |chain|)
      && (size == 0 ==> attached)
    }
  }

  function EmptyQueue<T>(): Queue<T> {
    Queue([], 0, true)
  }

  function Append<T>(q: Queue<T>, x: T): (q': Queue<T>)
    requires q.Valid()
    ensures q'.Valid()
  {
    if q.attached then Queue(q.chain + [x], q.size + 1, true) else q.(size := q.size + 1)
  }

  function Pop<T>(q: Queue<T>): (q': Queue<T>)
    requires q.Valid() && q.chain != []
    ensures q'.Valid()
  {
    Queue(q.chain[1..], q.size - 1, q.size == 1 || q.attached)
  }

  function Kept<T>(s: seq<T>, condition: T -> bool): seq<T> {
    if s == [] then []
    else
      var n := |s| - 1;
      Kept(s[..n], condition) + if condition(s[n]) then [] else [s[n]]
  }

  function Fetched<T>(s: seq<T>, condition: T -> bool): (r: seq<T>)
    ensures |r| + |Kept(s, condition)| == |s|
  {
    if s == [] then []
    else
      var n := |s| - 1;
      Fetched(s[..n], condition) + if condition(s[n]) then [s[n]] else []
  }

  lemma {:induction false} KeptMembers<T>(s: seq<T>, condition: T -> bool)
    ensures forall x | x in s :: x in Kept(s, condition) <==> !condition(x)
    ensures forall x | x in Kept(s, condition) :: x in s
  {
    if s != [] { KeptMembers(s[..|s| - 1], condition); }
  }

  lemma {:induction false} FetchedMembers<T>(s: seq<T>, condition: T -> bool)
    ensures forall x | x in s :: x in Fetched(s, condition) <==> condition(x)
    ensures forall x | x in Fetched(s, condition) :: x in s
  {
    if s != [] { FetchedMembers(s[..|s| - 1], condition); }
  }

  /** What stays in the queue after `fetch_nodes`; Fetched(q.chain, condition) moves on. */
  function Fetch<T>(q: Queue<T>, condition: T -> bool): (q': Queue<T>)
    requires q.Valid()
    ensures q'.Valid()
  {
    var kept := Kept(q.chain, condition);
    var size := q.size - |Fetched(q.chain, condition)|;
    Queue(kept, size, size == 0 || (q.attached && !condition(q.chain[|q.chain| - 1])))
  }

  // ---------- when the queue stays whole ----------

  /** `fetch_nodes` leaves the queue whole if and only if it takes every node or not the last. */
  lemma FetchStaysAttachedIff<T>(q: Queue<T>, condition: T -> bool)
    requires q.Valid() && q.attached && q.chain != []
    ensures Fetch(q, condition).attached <==>
            (forall x | x in q.chain :: condition(x)) || !condition(q.chain[|q.chain| - 1])
  {
    KeptEmptyIff(q.chain, condition);
    hide Kept, Fetched;
  }

  lemma KeptEmptyIff<T>(s: seq<T>, condition: T -> bool)
    ensures Kept(s, condition) == [] <==> forall x | x in s :: condition(x)
  {
    var kept := Kept(s, condition);
    KeptMembers(s, condition);
    hide Kept;
    assert kept != [] ==> kept[0] in kept;
  }

  lemma OneMoreNode<T>(s: seq<T>, condition: T -> bool)
    requires s != []
    ensures var front, x := s[..|s| - 1], s[|s| - 1];
      && Fetched(s, condition) == Fetched(front, condition) + (if condition(x) then [x] else [])
      && Kept(s, condition) == Kept(front, condition) + if condition(x) then [] else [x]
  {
  }

  /** Nothing is lost or duplicated by fetching: the chain is split in two. */
  lemma {:induction false} FetchPartitions<T>(s: seq<T>, condition: T -> bool)
    ensures multiset(s) == multiset(Kept(s, condition)) + multiset(Fetched(s, condition))
  {
    if s != [] {
      var n := |s| - 1;
      FetchPartitions(s[..n], condition);
      assert s == s[..n] + [s[n]];
      OneMoreNode(s, condition);
      hide Kept, Fetched;
    }
  }

  /** Whatever is fetched, and whatever stays, keeps its order. */
  lemma {:induction false} FetchInOrder<T>(a: seq<T>, b: seq<T>, condition: T -> bool)
    ensures Fetched(a + b, condition) == Fetched(a, condition) + Fetched(b, condition)
    ensures Kept(a + b, condition) == Kept(a, condition) + Kept(b, condition)
    decreases |b|
  {
    if b == [] {
      assert a + b == a;
    } else {
      var n := |b| - 1;
      assert (a + b)[..|a + b| - 1] == a + b[..n] && (a + b)[|a + b| - 1] == b[n];
      FetchInOrder(a, b[..n], condition);
      OneMoreNode(a + b, condition);
      OneMoreNode(b, condition);
      hide Kept, Fetched;
    }
  }

  datatype Op<!T> = DoAppend(x: T) | DoFetch(condition: T -> bool) | DoPop

  function Perform<T>(q: Queue<T>, op: Op<T>): (q': Queue<T>)
    requires q.Valid()
    ensures q'.Valid()
  {
    match op
    case DoAppend(x) => Append(q, x)
    case DoFetch(condition) => Fetch(q, condition)
    // a pop needs a node to start from
    case DoPop => if q.chain == [] then q else Pop(q)
  }

  function PerformAll<T>(q: Queue<T>, ops: seq<Op<T>>): (q': Queue<T>)
    requires q.Valid()
    ensures q'.Valid()
    decreases |ops|
  {
    if ops == [] then q else PerformAll(Perform(q, ops[0]), ops[1..])
  }

  /** A frame appended to a queue whose tail is detached is lost, and so is every frame appended
      later: the count never returns to zero, so the tail is never reset and the chain never
      grows again. */
  lemma {:induction false} LostForGood<T>(q: Queue<T>, ops: seq<Op<T>>)
    requires q.Valid() && q.size > |q.chain|
    ensures var q' := PerformAll(q, ops);
            q'.size > |q'.chain| && !q'.attached && forall x | x in q'.chain :: x in q.chain
    decreases |ops|
  {
    if ops != [] {
      if ops[0].DoFetch? { KeptMembers(q.chain, ops[0].condition); }
      hide Kept, Fetched;
      LostForGood(Perform(q, ops[0]), ops[1..]);
    }
  }

  predicate Early(x: int) { x <= 5 }

  predicate Forced(x: int) { true }

  /** The smallest history that loses a frame: of two frames the later one is fetched first, then
      a third one arrives. Not even fetching everything brings it back. */
  lemma DetachedTailLosesFrame()
    ensures var ops := [DoAppend(10), DoAppend(1), DoFetch(Early), DoAppend(3)];
            var q := PerformAll(EmptyQueue(), ops);
            && q == Queue([10], 2, false)
            && Fetched(q.chain, Forced) == [10]
            && Fetch(q, Forced) == Queue([], 1, false)
  {
    PartsOfTwo();
    hide Kept, Fetched;
    var q1 := Append(EmptyQueue(), 10);
    var q2 := Append(q1, 1);
    var q3 := Fetch(q2, Early);
    assert q1 == Queue([10], 1, true) && q2 == Queue([10, 1], 2, true) && q3 == Queue([10], 1, false);
    var q4 := Append(q3, 3);
    var o1, o2, o3, o4 := DoAppend(10), DoAppend(1), DoFetch(Early), DoAppend(3);
    PerformFirst(q3, o4, []);
    PerformFirst(q2, o3, [o4]);
    PerformFirst(q1, o2, [o3, o4]);
    PerformFirst(EmptyQueue(), o1, [o2, o3, o4]);
    hide PerformAll;
    assert [o1, o2, o3, o4] == [o1] + [o2, o3, o4] && [o2, o3, o4] == [o2] + [o3, o4] && [o3, o4] == [o3] + [o4];
  }

  lemma PartsOfTwo()
    ensures Kept([10, 1], Early) == [10] && Fetched([10, 1], Early) == [1]
    ensures Kept([10], Forced) == [] && Fetched([10], Forced) == [10]
  {
    assert [10, 1][..1] == [10] && [10][..0] == [];
    assert Kept([10], Early) == [10] && Fetched([10], Early) == [];
  }

  lemma PerformFirst<T>(q: Queue<T>, op: Op<T>, ops: seq<Op<T>>)
    requires q.Valid()
    ensures PerformAll(q, [op] + ops) == PerformAll(Perform(q, op), ops)
    ensures ops == [] ==> PerformAll(q, [op]) == Perform(q, op)
  {
    assert ([op] + ops)[1..] == ops;
    assert ops == [] ==> [op] + ops == [op];
  }
}

module CoroutineQueue {
  import opened QueueModel

  class LinkedCoroutine<T> {
    const frame: T
    var inQueueLinkNext: LinkedCoroutine?<T>

    constructor (frame: T)
      ensures this.frame == frame && inQueueLinkNext == null
    {
      this.frame := frame;
      inQueueLinkNext := null;
    }
  }

  function Frames<T>(nodes: seq<LinkedCoroutine<T>>): (frames: seq<T>)
    ensures |frames| == |nodes|
  {
    seq(|nodes|, i requires 0 <= i < |nodes| => nodes[i].frame)
  }

  /** A condition on frames as a condition on the nodes that carry them. */
  function OnFrame<T>(condition: T -> bool): LinkedCoroutine<T> -> bool {
    (n: LinkedCoroutine<T>) => condition(n.frame)
  }

  lemma FramesOfAppend<T>(nodes: seq<LinkedCoroutine<T>>, x: LinkedCoroutine<T>)
    ensures Frames(nodes + [x]) == Frames(nodes) + [x.frame]
  {
  }

  lemma FramesOfFront<T>(nodes: seq<LinkedCoroutine<T>>)
    requires nodes != []
    ensures Frames(nodes)[..|nodes| - 1] == Frames(nodes[..|nodes| - 1])
    ensures Frames(nodes)[|nodes| - 1] == nodes[|nodes| - 1].frame
  {
  }

  lemma {:induction false} FramesOfKept<T>(nodes: seq<LinkedCoroutine<T>>, condition: T -> bool)
    ensures Frames(Kept(nodes, OnFrame(condition))) == Kept(Frames(nodes), condition)
  {
    if nodes != [] {
      hide Frames;
      var n := |nodes| - 1;
      FramesOfKept(nodes[..n], condition);
      FramesOfFront(nodes);
      FramesOfAppend(Kept(nodes[..n], OnFrame(condition)), nodes[n]);
    }
  }

  lemma {:induction false} FramesOfFetched<T>(nodes: seq<LinkedCoroutine<T>>, condition: T -> bool)
    ensures Frames(Fetched(nodes, OnFrame(condition))) == Fetched(Frames(nodes), condition)
  {
    if nodes != [] {
      hide Frames;
      var n := |nodes| - 1;
      FramesOfFetched(nodes[..n], condition);
      FramesOfFront(nodes);
      FramesOfAppend(Fetched(nodes[..n], OnFrame(condition)), nodes[n]);
    }
  }

  lemma FramesOfConcat<T>(a: seq<LinkedCoroutine<T>>, b: seq<LinkedCoroutine<T>>)
    ensures Frames(a + b) == Frames(a) + Frames(b)
  {
  }

  lemma PartsOfAppend<T>(s: seq<T>, condition: T -> bool, x: T)
    ensures Kept(s + [x], condition) == Kept(s, condition) + if condition(x) then [] else [x]
    ensures Fetched(s + [x], condition) == Fetched(s, condition) + if condition(x) then [x] else []
  {
    assert (s + [x])[..|s|] == s;
  }

  predicate Distinct<T>(nodes: seq<LinkedCoroutine<T>>) {
    forall i, j :: 0 <= i < j < |nodes| ==> nodes[i] != nodes[j]
  }

  /** The node behind node i; the link of the last node leads to `end`. */
  function Successor<T>(nodes: seq<LinkedCoroutine<T>>, i: nat, end: LinkedCoroutine?<T>): LinkedCoroutine?<T> {
    if i + 1 < |nodes| then nodes[i + 1] else end
  }

  ghost predicate Chained<T>(nodes: seq<LinkedCoroutine<T>>)
    reads nodes
  {
    forall i {:trigger nodes[i].inQueueLinkNext} :: 0 <= i < |nodes| ==> nodes[i].inQueueLinkNext == Successor(nodes, i, null)
  }

  /** The fields of a queue, and the nodes of the target, when `fetch_nodes` starts. */
  datatype Start<T> = Start(nodes: seq<LinkedCoroutine<T>>, targetNodes: seq<LinkedCoroutine<T>>,
                            size: nat, tail: LinkedCoroutine?<T>)

  ghost predicate StartAttached<T>(start: Start<T>) {
    start.size == 0 || (start.nodes != [] && start.tail == start.nodes[|start.nodes| - 1])
  }

  ghost predicate StartValid<T>(start: Start<T>) {
    && |start.nodes| <= start.size
    && (start.size > 0 ==> start.tail != null)
    && (if StartAttached(start) then start.size == |start.nodes| else start.tail !in start.nodes)
  }

  class CoroutineQueue<T> {
    var head: LinkedCoroutine?<T>
    var tail: LinkedCoroutine?<T>
    var size: nat
    ghost var nodes: seq<LinkedCoroutine<T>>   // those the links from head lead to

    ghost predicate Valid()
      reads this, nodes
    {
      && Distinct(nodes) && Chained(nodes)
      && head == (if nodes == [] then null else nodes[0])
      && |nodes| <= size
      && (size > 0 ==> tail != null)
      && (if Attached() then size == |nodes| else tail !in nodes)
    }

    ghost predicate Attached()
      reads this
    {
      size == 0 || (nodes != [] && tail == nodes[|nodes| - 1])
    }

    ghost function Abstract(): (q: Queue<T>)
      requires Valid()
      reads this, nodes
      ensures q.Valid()
    {
      Queue(Frames(nodes), size, Attached())
    }

    constructor ()
      ensures Valid() && nodes == [] && size == 0
    {
      head, tail, size := null, null, 0;
      nodes := [];
    }

    method AppendToTail(frame: LinkedCoroutine<T>)
      requires Valid() && frame.inQueueLinkNext == null && frame !in nodes
      modifies this, (if size == 0 || tail == null then {} else {tail})`inQueueLinkNext
      ensures Valid() && Abstract() == Append(old(Abstract()), frame.frame)
      ensures nodes == if old(Attached()) then old(nodes) + [frame] else old(nodes)
      ensures !old(Attached()) ==> old(tail) != null && old(tail).inQueueLinkNext == frame
    {
      if size == 0 {
        head := frame;
        tail := frame;
        nodes := [frame];
      } else {
        if Attached() { nodes := nodes + [frame]; }
        tail.inQueueLinkNext := frame;
        tail := frame;
      }
      size := size + 1;
      assert Frames(nodes) == Append(old(Abstract()), frame.frame).chain;
    }

    method PopFromHead() returns (r: LinkedCoroutine<T>)
      requires Valid() && nodes != []
      modifies this, head`inQueueLinkNext
      ensures Valid() && Abstract() == Pop(old(Abstract()))
      ensures r == old(nodes)[0] && nodes == old(nodes)[1..] && r.inQueueLinkNext == null
    {
      ghost var all := nodes;
      assert forall i :: 0 < i < |all| ==> all[i] != all[0];
      r := head;
      if head == tail {
        head := null;
        tail := null;
      } else {
        head := head.inQueueLinkNext;
      }
      size := size - 1;
      r.inQueueLinkNext := null;
      nodes := nodes[1..];
      assert forall i :: 0 <= i < |nodes| ==>
        nodes[i] == all[i + 1] && Successor(nodes, i, null) == Successor(all, i + 1, null);
      assert Frames(nodes) == old(Frames(nodes))[1..];
    }

    /** The nodes that satisfy the condition move, in order, to the end of the target queue. */
    method FetchNodes(condition: T -> bool, target: CoroutineQueue<T>)
      requires Valid() && target.Valid() && target != this && target.Attached()
      requires forall x :: x in nodes ==> x !in target.nodes
      modifies this, target, nodes`inQueueLinkNext, target.nodes`inQueueLinkNext
      ensures Valid() && Abstract() == Fetch(old(Abstract()), condition)
      ensures nodes == Kept(old(nodes), OnFrame(condition))
      ensures target.Valid() && target.Attached()
      ensures target.nodes == old(target.nodes) + Fetched(old(nodes), OnFrame(condition))
      ensures Frames(target.nodes) == old(Frames(target.nodes)) + Fetched(old(Abstract()).chain, condition)
    {
      hide *;
      var last: LinkedCoroutine?<T> := null;    // the node whose link leads to iter; null stands for head
      var iter := head;
      ghost var i, start, frame := Enter(target, condition);
      while iter != null
        invariant Progress(start, i, last, iter, target, condition, frame)
        decreases |start.nodes| - i
      {
        last, iter := Round(start, i, last, iter, target, condition, frame);
        i := i + 1;
      }
      Finish(start, i, last, target, condition, frame);
    }

    /** Before the loop nothing is kept and nothing is fetched. */
    ghost method Enter(target: CoroutineQueue<T>, condition: T -> bool)
      returns (i: nat, start: Start<T>, frame: set<LinkedCoroutine<T>>)
      requires Valid() && target.Valid() && target != this && target.Attached()
      requires forall x :: x in nodes ==> x !in target.nodes
      modifies this`nodes
      ensures start == Start(old(nodes), target.nodes, size, tail) && Distinct(start.nodes)
      ensures old(Abstract()) == Queue(Frames(start.nodes), start.size, StartAttached(start))
      ensures forall x :: x in frame <==> x in old(nodes) || x in target.nodes
      ensures i == 0 && Progress(start, i, null, head, target, condition, frame)
    {
      i, start := 0, Start(nodes, target.nodes, size, tail);
      frame := (set x | x in nodes) + (set x | x in target.nodes);
      nodes := [];
      assert start.nodes[0..] == start.nodes && start.nodes[..0] == [];
    }

    /** The state of the loop after i rounds: the nodes kept so far, the nodes fetched so far and
        the nodes not reached yet are three chains without a common node. */
    ghost predicate Progress(start: Start<T>, i: nat, last: LinkedCoroutine?<T>, iter: LinkedCoroutine?<T>,
                             target: CoroutineQueue<T>, condition: T -> bool, frame: set<LinkedCoroutine<T>>)
      reads this, nodes, start.nodes, target, target.nodes
    {
      && StartValid(start) && i <= |start.nodes| && (iter != null <==> i < |start.nodes|)
      && Rejoined(last, iter) && Unseen(iter, start.nodes[i..])
      && Apart(start.nodes[i..], target) && Within(start.nodes[i..], target, frame)
      && target.Valid() && target.Attached() && target != this
      && nodes == Kept(start.nodes[..i], OnFrame(condition))
      && target.nodes == start.targetNodes + Fetched(start.nodes[..i], OnFrame(condition))
      && size == start.size - |Fetched(start.nodes[..i], OnFrame(condition))| && tail == start.tail
    }

    method Round(ghost start: Start<T>, ghost i: nat, last: LinkedCoroutine?<T>, iter: LinkedCoroutine<T>,
                 target: CoroutineQueue<T>, condition: T -> bool, ghost frame: set<LinkedCoroutine<T>>)
      returns (last': LinkedCoroutine?<T>, iter': LinkedCoroutine?<T>)
      requires Progress(start, i, last, iter, target, condition, frame)
      modifies this`head, this`size, this`nodes, target, frame`inQueueLinkNext
      ensures i < |start.nodes| && Progress(start, i + 1, last', iter', target, condition, frame)
    {
      ghost var rest := start.nodes[i..];
      ghost var kept, moved := nodes, target.nodes;
      Open(start, i, last, iter, target, condition, frame);
      hide *;
      iter' := iter.inQueueLinkNext;
      if condition(iter.frame) {
        MoveNode(last, iter, target, rest, frame);
        last' := last;
      } else {
        KeepNode(last, iter, target, rest, frame);
        last' := iter;
      }
      Close(start, i, last', iter', target, condition, frame, iter);
    }

    lemma Open(start: Start<T>, i: nat, last: LinkedCoroutine?<T>, iter: LinkedCoroutine<T>,
               target: CoroutineQueue<T>, condition: T -> bool, frame: set<LinkedCoroutine<T>>)
      requires Progress(start, i, last, iter, target, condition, frame)
      ensures StartValid(start) && i < |start.nodes| && iter == start.nodes[i]
      ensures iter.inQueueLinkNext != null <==> i + 1 < |start.nodes|
      ensures Rejoined(last, iter) && Unseen(iter, start.nodes[i..])
      ensures Apart(start.nodes[i..], target) && Within(start.nodes[i..], target, frame)
      ensures target.Valid() && target.Attached() && target != this
      ensures nodes == Kept(start.nodes[..i], OnFrame(condition))
      ensures target.nodes == start.targetNodes + Fetched(start.nodes[..i], OnFrame(condition))
      ensures size == start.size - |Fetched(start.nodes[..i], OnFrame(condition))| && size > 0 && tail == start.tail
      ensures OnFrame(condition)(iter) == condition(iter.frame)
    {
      UnseenEnd(iter, start.nodes[i..]);
      hide Kept, Rejoined, Unseen, Apart, Within, Distinct, Chained;
    }

    lemma Close(start: Start<T>, i: nat, last: LinkedCoroutine?<T>, iter: LinkedCoroutine?<T>,
                target: CoroutineQueue<T>, condition: T -> bool, frame: set<LinkedCoroutine<T>>, x: LinkedCoroutine<T>)
      requires StartValid(start) && i < |start.nodes| && (iter != null <==> i + 1 < |start.nodes|)
      requires Rejoined(last, iter) && Unseen(iter, start.nodes[i..][1..]) && x == start.nodes[i]
      requires Apart(start.nodes[i..][1..], target) && Within(start.nodes[i..][1..], target, frame)
      requires target.Valid() && target.Attached() && target != this
      requires nodes == Kept(start.nodes[..i], OnFrame(condition)) + if OnFrame(condition)(x) then [] else [x]
      requires target.nodes == start.targetNodes + Fetched(start.nodes[..i], OnFrame(condition))
                               + if OnFrame(condition)(x) then [x] else []
      requires size == start.size - |Fetched(start.nodes[..i], OnFrame(condition))| - (if OnFrame(condition)(x) then 1 else 0)
      requires tail == start.tail
      ensures Progress(start, i + 1, last, iter, target, condition, frame)
    {
      hide *;
      var c := OnFrame(condition);
      PartsOfAppend(start.nodes[..i], c, x);
      assert start.nodes[i..][1..] == start.nodes[i + 1..] && start.nodes[..i] + [x] == start.nodes[..i + 1];
      ProgressIs(start, i + 1, last, iter, target, condition, frame);
    }

    lemma ProgressIs(start: Start<T>, i: nat, last: LinkedCoroutine?<T>, iter: LinkedCoroutine?<T>,
                     target: CoroutineQueue<T>, condition: T -> bool, frame: set<LinkedCoroutine<T>>)
      requires StartValid(start) && i <= |start.nodes| && (iter != null <==> i < |start.nodes|)
      requires Rejoined(last, iter) && Unseen(iter, start.nodes[i..])
      requires Apart(start.nodes[i..], target) && Within(start.nodes[i..], target, frame)
      requires target.Valid() && target.Attached() && target != this
      requires nodes == Kept(start.nodes[..i], OnFrame(condition))
      requires target.nodes == start.targetNodes + Fetched(start.nodes[..i], OnFrame(condition))
      requires size == start.size - |Fetched(start.nodes[..i], OnFrame(condition))| && tail == start.tail
      ensures Progress(start, i, last, iter, target, condition, frame)
    {
      hide Kept, Fetched, Rejoined, Unseen, Apart, Within, Distinct, Chained, Valid, Attached, OnFrame, StartValid;
    }

    lemma UnseenEnd(iter: LinkedCoroutine<T>, rest: seq<LinkedCoroutine<T>>)
      requires Unseen(iter, rest)
      ensures rest != [] && iter == rest[0]
      ensures iter.inQueueLinkNext != null <==> |rest| > 1
    {
      assert iter.inQueueLinkNext == Successor(rest, 0, null);
    }

    /** The end of `fetch_nodes`: an emptied queue forgets its tail. */
    method Finish(ghost start: Start<T>, ghost i: nat, ghost last: LinkedCoroutine?<T>, ghost target: CoroutineQueue<T>,
                  condition: T -> bool, ghost frame: set<LinkedCoroutine<T>>)
      requires Progress(start, i, last, null, target, condition, frame)
      requires Distinct(start.nodes)
      modifies this`head, this`tail
      ensures Valid() && nodes == Kept(start.nodes, OnFrame(condition))
      ensures Abstract() == Fetch(Queue(Frames(start.nodes), start.size, StartAttached(start)), condition)
      ensures target.Valid() && target.Attached()
      ensures target.nodes == start.targetNodes + Fetched(start.nodes, OnFrame(condition))
      ensures Frames(target.nodes) == Frames(start.targetNodes) + Fetched(Frames(start.nodes), condition)
    {
      assert start.nodes[..i] == start.nodes;
      FetchOutcome(start, condition);
      FramesOfFetched(start.nodes, condition);
      FramesOfConcat(start.targetNodes, Fetched(start.nodes, OnFrame(condition)));
      ghost var last := last;
      assert Distinct(nodes) && (nodes != [] ==> last == nodes[|nodes| - 1]);
      hide Kept, Fetched, Fetch, Apart, Within, Unseen, Frames, Distinct, OnFrame;
      if size == 0 {
        head := null;
        tail := null;
      }
    }

    /** The kept nodes are chained to each other and lead on to iter. */
    ghost predicate Rejoined(last: LinkedCoroutine?<T>, iter: LinkedCoroutine?<T>)
      reads this, nodes
    {
      && Distinct(nodes)
      && last == (if nodes == [] then null else nodes[|nodes| - 1])
      && head == (if nodes == [] then iter else nodes[0])
      && forall k {:trigger nodes[k].inQueueLinkNext} :: 0 <= k < |nodes| ==> nodes[k].inQueueLinkNext == Successor(nodes, k, iter)
    }

    /** The nodes that the loop has not reached are still chained as they were. */
    ghost predicate Unseen(iter: LinkedCoroutine?<T>, rest: seq<LinkedCoroutine<T>>)
      reads rest
    {
      Distinct(rest) && Chained(rest) && iter == if rest == [] then null else rest[0]
    }

    /** No node is in two places. */
    ghost predicate Apart(rest: seq<LinkedCoroutine<T>>, target: CoroutineQueue<T>)
      reads this, target
    {
      && (forall x :: x in rest ==> x !in nodes && x !in target.nodes)
      && forall x :: x in nodes ==> x !in target.nodes
    }

    /** The nodes of both queues, which never change as a whole. */
    ghost predicate Within(rest: seq<LinkedCoroutine<T>>, target: CoroutineQueue<T>, frame: set<LinkedCoroutine<T>>)
      reads this, target
    {
      && (forall x | x in rest :: x in frame)
      && (forall x | x in nodes :: x in frame)
      && forall x | x in target.nodes :: x in frame
    }

    method MoveNode(last: LinkedCoroutine?<T>, iter: LinkedCoroutine<T>, target: CoroutineQueue<T>,
                    ghost rest: seq<LinkedCoroutine<T>>, ghost frame: set<LinkedCoroutine<T>>)
      requires Rejoined(last, iter) && Unseen(iter, rest) && Apart(rest, target)
      requires target.Valid() && target.Attached() && target != this && size > 0
      requires Within(rest, target, frame)
      modifies this`head, this`size, target, frame`inQueueLinkNext
      ensures Rejoined(last, old(iter.inQueueLinkNext)) && Unseen(old(iter.inQueueLinkNext), rest[1..])
      ensures Apart(rest[1..], target) && Within(rest[1..], target, frame)
      ensures target.Valid() && target.Attached()
      ensures size == old(size) - 1 && target.nodes == old(target.nodes) + [iter]
    {
      ApartTail(iter, rest, target);
      assert iter in rest;
      Unlink(last, iter, rest, target);
      assert target.size > 0 ==> target.tail in target.nodes;
      hide Rejoined, Unseen, Chained, Distinct;
      target.AppendToTail(iter);
    }

    lemma UnseenTail(iter: LinkedCoroutine?<T>, rest: seq<LinkedCoroutine<T>>)
      requires Unseen(iter, rest) && rest != []
      ensures Unseen(iter.inQueueLinkNext, rest[1..]) && iter !in rest[1..]
    {
      assert forall k :: 0 <= k < |rest[1..]| ==>
        rest[1..][k] == rest[k + 1] && Successor(rest[1..], k, null) == Successor(rest, k + 1, null);
    }

    lemma ApartTail(iter: LinkedCoroutine<T>, rest: seq<LinkedCoroutine<T>>, target: CoroutineQueue<T>)
      requires Unseen(iter, rest) && Apart(rest, target)
      ensures forall x :: x in rest[1..] ==> x !in nodes + [iter] && x !in target.nodes + [iter]
      ensures forall x :: x in nodes + [iter] ==> x !in target.nodes
      ensures forall x :: x in nodes ==> x !in target.nodes + [iter]
    {
      UnseenTail(iter, rest);
      assert iter in rest;
    }

    method Unlink(last: LinkedCoroutine?<T>, iter: LinkedCoroutine<T>, ghost rest: seq<LinkedCoroutine<T>>,
                  ghost target: CoroutineQueue<T>)
      requires Rejoined(last, iter) && Unseen(iter, rest) && Apart(rest, target) && target != this
      requires target.Valid() && size > 0
      modifies this`head, this`size, nodes`inQueueLinkNext, {iter}`inQueueLinkNext
      ensures Rejoined(last, old(iter.inQueueLinkNext)) && Unseen(old(iter.inQueueLinkNext), rest[1..])
      ensures iter.inQueueLinkNext == null && size == old(size) - 1
      ensures target.Valid()
    {
      UnseenTail(iter, rest);
      assert iter in rest && (last != null ==> last in nodes);
      hide Valid;
      if last == null { head := iter.inQueueLinkNext; } else { last.inQueueLinkNext := iter.inQueueLinkNext; }
      iter.inQueueLinkNext := null;
      size := size - 1;
    }

    ghost method KeepNode(last: LinkedCoroutine?<T>, iter: LinkedCoroutine<T>, target: CoroutineQueue<T>,
                          rest: seq<LinkedCoroutine<T>>, frame: set<LinkedCoroutine<T>>)
      requires Rejoined(last, iter) && Unseen(iter, rest) && Apart(rest, target) && target != this
      requires Within(rest, target, frame)
      modifies this`nodes
      ensures Rejoined(iter, iter.inQueueLinkNext) && Unseen(iter.inQueueLinkNext, rest[1..])
      ensures Apart(rest[1..], target) && Within(rest[1..], target, frame) && nodes == old(nodes) + [iter]
    {
      assert iter in rest && iter !in target.nodes;
      UnseenTail(iter, rest);
      ApartTail(iter, rest, target);
      nodes := nodes + [iter];
    }
  }

  /** `fetch_nodes` in terms of nodes: what is left of the queue, and whether its tail is. */
  lemma FetchOutcome<T>(start: Start<T>, condition: T -> bool)
    requires StartValid(start) && Distinct(start.nodes)
    ensures var kept := Kept(start.nodes, OnFrame(condition));
            var size := start.size - |Fetched(start.nodes, OnFrame(condition))|;
            var attached := size == 0 || (kept != [] && start.tail == kept[|kept| - 1]);
            && Fetch(Queue(Frames(start.nodes), start.size, StartAttached(start)), condition)
               == Queue(Frames(kept), size, attached)
            && |kept| <= size && (size > 0 ==> start.tail != null)
            && if attached then size == |kept| else start.tail !in kept
  {
    var nodes := start.nodes;
    FramesOfKept(nodes, condition);
    FramesOfFetched(nodes, condition);
    KeptMembers(nodes, OnFrame(condition));
    if nodes != [] {
      LastOfKept(nodes, condition);
      FramesOfFront(nodes);
    }
    hide Frames, Distinct, Kept, Fetched;
  }

  lemma LastOfKept<T>(nodes: seq<LinkedCoroutine<T>>, condition: T -> bool)
    requires nodes != [] && Distinct(nodes)
    ensures var last, kept := nodes[|nodes| - 1], Kept(nodes, OnFrame(condition));
            if condition(last.frame) then last !in kept else kept != [] && kept[|kept| - 1] == last
  {
    var n := |nodes| - 1;
    KeptMembers(nodes[..n], OnFrame(condition));
  }
}
