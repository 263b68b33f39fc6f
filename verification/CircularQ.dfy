/** The ring buffer behind the asynchronous logger (spdlog/details/circular_q.h) and the bounded
    sequence that it implements. */
module BoundedSequence {

  // The capacity of a disabled queue, which has no storage at all.
  const DISABLED := -1

  predicate IsFull<T>(s: seq<T>, capacity: int) {
    |s| == capacity
  }

  /** Appends an item; a full queue drops its oldest item, a disabled one ignores the new item. */
  function PushBack<T>(s: seq<T>, capacity: int, item: T): (r: seq<T>)
    requires |s| <= capacity || (capacity == DISABLED && s == [])
    ensures |r| <= capacity || (capacity == DISABLED && r == [])
  {
    if capacity == DISABLED then s
    else if IsFull(s, capacity) then (s + [item])[1..]
    else s + [item]
  }
}

module CircularQ {
  import opened Arith
  import opened BoundedSequence

  const SIZE_T_RANGE: nat := 0x1_0000_0000_0000_0000

  /** Positions wrap at most once. */
  function Wrap(a: nat, modulus: nat): (p: nat)
    requires modulus > 0 && a < 2 * modulus
    ensures p == if a < modulus then a else a - modulus
  {
    QuotientUnique(a, modulus, if a < modulus then 0 else 1, if a < modulus then a else a - modulus);
    a % modulus
  }

  /** The items of a ring from the oldest to the newest. */
  function View<T>(v: seq<T>, head: nat, tail: nat): seq<T>
    requires head <= |v| && tail <= |v|
  {
    if tail >= head then v[head..tail] else v[head..] + v[..tail]
  }

  lemma ViewAfterPush<T>(v: seq<T>, head: nat, tail: nat, item: T)
    requires head < |v| && tail < |v|
    ensures var v' := v[tail := item];
            var tail' := Wrap(tail + 1, |v|);
            if tail' == head then
              && View(v', Wrap(head + 1, |v|), tail') == (View(v, head, tail) + [item])[1..]
              && |View(v, head, tail)| == |v| - 1
            else
              && View(v', head, tail') == View(v, head, tail) + [item]
              && |View(v, head, tail)| < |v| - 1
  {
    hide Wrap;
  }

  class CircularQ<T(0)> {
    var maxItems: nat
    var head: nat
    var tail: nat
    var overrunCounter: nat
    var v: array<T>

    ghost predicate Valid()
      reads this
    {
      if maxItems > 0 then v.Length == maxItems && head < maxItems && tail < maxItems
      else v.Length == 0 && head == 0 && tail == 0
    }

    ghost function Capacity(): int
      reads this
    {
      maxItems - 1
    }

    /** The items from the oldest to the newest, in the order in which `at` yields them. */
    ghost function Contents(): (s: seq<T>)
      reads this, v
      requires Valid()
      ensures |s| <= Capacity() || (Capacity() == DISABLED && s == [])
    {
      View(v[..], head, tail)
    }

    // The empty constructor: a disabled queue with no elements allocated at all.
    constructor Disabled()
      ensures Valid() && Contents() == [] && Capacity() == DISABLED && overrunCounter == 0
      ensures fresh(v)
    {
      maxItems, head, tail, overrunCounter := 0, 0, 0, 0;
      v := new T[0];
    }

    /** One slot is reserved to tell a full queue from an empty one. The sum is a size_t: for the
        largest argument it wraps to 0 and the queue is disabled. */
    constructor (maxItems: nat)
      requires maxItems < SIZE_T_RANGE
      ensures Valid() && Contents() == [] && overrunCounter == 0 && fresh(v)
      ensures Capacity() == if maxItems + 1 < SIZE_T_RANGE then maxItems else DISABLED
    {
      var n := (maxItems + 1) % SIZE_T_RANGE;
      this.maxItems, head, tail, overrunCounter := n, 0, 0, 0;
      v := new T[n];
    }

    method PushBack(item: T)
      requires Valid()
      modifies this, v
      ensures Valid() && v == old(v) && Capacity() == old(Capacity())
      ensures Contents() == BoundedSequence.PushBack(old(Contents()), Capacity(), item)
      ensures overrunCounter == old(overrunCounter) + if IsFull(old(Contents()), Capacity()) then 1 else 0
    {
      if maxItems > 0 {
        hide Wrap;
        ViewAfterPush(v[..], head, tail, item);
        v[tail] := item;
        tail := Wrap(tail + 1, maxItems);
        if tail == head {
          head := Wrap(head + 1, maxItems);
          overrunCounter := overrunCounter + 1;
        }
      }
    }

    method Front() returns (item: T)
      requires Valid() && Contents() != []
      ensures item == Contents()[0]
    {
      item := v[head];
    }

    method Size() returns (n: nat)
      requires Valid()
      ensures n == |Contents()|
    {
      if tail >= head { n := tail - head; } else { n := maxItems - (head - tail); }
    }

    method At(i: nat) returns (item: T)
      requires Valid() && i < |Contents()|
      ensures item == Contents()[i]
    {
      hide Wrap;
      item := v[Wrap(head + i, maxItems)];
    }

    method PopFront()
      requires Valid() && Contents() != []
      modifies this`head
      ensures Valid() && Capacity() == old(Capacity())
      ensures Contents() == old(Contents())[1..]
    {
      hide Wrap;
      head := Wrap(head + 1, maxItems);
    }

    method Empty() returns (r: bool)
      requires Valid()
      ensures r <==> Contents() == []
    {
      r := tail == head;
    }

    method Full() returns (r: bool)
      requires Valid()
      ensures r <==> IsFull(Contents(), Capacity())
    {
      r := false;
      if maxItems > 0 {
        hide Wrap;
        r := Wrap(tail + 1, maxItems) == head;
      }
    }

    method ResetOverrunCounter()
      requires Valid()
      modifies this`overrunCounter
      ensures Valid() && overrunCounter == 0 && Contents() == old(Contents())
    {
      overrunCounter := 0;
    }

    /** copy_moveable: the contents move here and leave a disabled queue behind. A queue moved
        into itself has no other place to keep them and ends up disabled. */
    method MoveFrom(other: CircularQ<T>)
      requires other.Valid()
      modifies this, other
      ensures Valid() && other.Valid()
      ensures other.Contents() == [] && other.Capacity() == DISABLED && other.overrunCounter == 0
      ensures this != other ==>
                && Contents() == old(other.Contents())
                && Capacity() == old(other.Capacity())
                && overrunCounter == old(other.overrunCounter)
    {
      maxItems := other.maxItems;
      head := other.head;
      tail := other.tail;
      overrunCounter := other.overrunCounter;
      v := other.v;
      other.maxItems := 0;
      other.head := 0;
      other.tail := 0;
      other.overrunCounter := 0;
      var empty := new T[0];
      other.v := empty;
      assert this != other ==> Contents() == old(other.Contents());
    }
  }
}
