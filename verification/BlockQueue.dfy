/** `block_queue`: a bounded queue on a circular array.  Each method is one critical
    section of the original; a pop that would wait on the condition variable answers
    `Blocked`. */
module BlockingQueue {
  import opened FifoSpec

  // ---- the circular array as a sequence ----

  /** Slot `x`, or the same slot one turn earlier when `x` is past the end. */
  function Wrap(x: int, max: nat): int {
    if x < max then x else x - max
  }

  lemma {:induction false} NextIndex(x: int, max: nat)
    requires -1 <= x < max && max != 0
    ensures (x + 1) % max == Wrap(x + 1, max)
  {
  }

  /** The indices fit together: back is size slots after front.  Both are -1 until
      the first push, and front until the first pop. */
  predicate Shape(max: nat, front: int, back: int, size: int) {
    0 < max && -1 <= front < max && 0 <= size <= max && back == Wrap(front + size, max)
  }

  /** The `size` items in the slots after `front`. */
  function Ring<T>(a: seq<T>, front: int, size: int): (items: seq<T>)
    requires -1 <= front < |a| && 0 <= size <= |a|
  {
    seq(size, k requires 0 <= k < size => a[Wrap(front + 1 + k, |a|)])
  }

  /** Storing in the slot after the last item appends to the queue. */
  lemma {:induction false} RingPush<T>(a: seq<T>, front: int, size: int, item: T)
    requires -1 <= front < |a| && 0 <= size < |a|
    ensures 0 <= Wrap(front + 1 + size, |a|) < |a|
    ensures Ring(a[Wrap(front + 1 + size, |a|) := item], front, size + 1) == Ring(a, front, size) + [item]
  {
    var a' := a[Wrap(front + 1 + size, |a|) := item];
    forall k | 0 <= k < size
      ensures Ring(a', front, size + 1)[k] == Ring(a, front, size)[k]
    {
      assert Wrap(front + 1 + k, |a|) != Wrap(front + 1 + size, |a|);
    }
  }

  /** Moving front one slot on drops the first item. */
  lemma {:induction false} RingPop<T>(a: seq<T>, front: int, size: int)
    requires -1 <= front < |a| && 0 < size <= |a|
    ensures Ring(a, Wrap(front + 1, |a|), size - 1) == Ring(a, front, size)[1..]
    ensures a[Wrap(front + 1, |a|)] == Ring(a, front, size)[0]
  {
    var rest := Ring(a, Wrap(front + 1, |a|), size - 1);
    forall k | 0 <= k < size - 1
      ensures rest[k] == Ring(a, front, size)[1..][k]
    {
      assert Wrap(Wrap(front + 1, |a|) + 1 + k, |a|) == Wrap(front + 1 + (k + 1), |a|);
    }
  }

  /** back is the slot of the last item. */
  lemma {:induction false} RingLast<T>(a: seq<T>, front: int, size: int)
    requires -1 <= front < |a| && 0 < size <= |a|
    ensures 0 <= Wrap(front + size, |a|) < |a|
    ensures a[Wrap(front + size, |a|)] == Ring(a, front, size)[size - 1]
  {
    assert front + 1 + (size - 1) == front + size;
  }

  // ---- the class ----

  class BlockQueue<T(0)> {
    var slots: array<T>
    var size: int
    var maxSize: int
    var front: int
    var back: int

    ghost predicate Valid()
      reads this
    {
      slots.Length == maxSize && Shape(slots.Length, front, back, size)
    }

    ghost function Contents(): (items: seq<T>)
      requires Valid()
      reads this, slots
    {
      Ring(slots[..], front, size)
    }

    /** The original ends the process when max_size is not positive. */
    constructor (capacity: int)
      requires capacity > 0
      ensures Valid() && fresh(slots) && maxSize == capacity && Contents() == []
    {
      maxSize := capacity;
      size := 0;
      front := -1;
      back := -1;
      slots := new T[capacity];
    }

    method Clear()
      requires Valid()
      modifies this`size, this`front, this`back
      ensures Valid()
      ensures Contents() == Apply(old(Contents()), maxSize, Op.Clear) == []
    {
      size := 0;
      front := -1;
      back := -1;
    }

    method Full() returns (full: bool)
      requires Valid()
      ensures Reply.Done(full) == ReplyTo(Contents(), maxSize, Op.Full)
      ensures full <==> |Contents()| == maxSize
    {
      if size >= maxSize {
        return true;
      }
      return false;
    }

    method Empty() returns (empty: bool)
      requires Valid()
      ensures Reply.Done(empty) == ReplyTo(Contents(), maxSize, Op.Empty)
      ensures empty <==> Contents() == []
    {
      if size == 0 {
        return true;
      }
      return false;
    }

    method Size() returns (n: int)
      requires Valid()
      ensures 0 <= n && Reply.Count(n) == ReplyTo(Contents(), maxSize, Op.Size)
      ensures n == |Contents()|
    {
      n := size;
    }

    method Back() returns (reply: Reply<T>)
      requires Valid()
      ensures reply == ReplyTo(Contents(), maxSize, Op.Back)
      ensures reply == if Contents() == [] then Done(false) else Item(Contents()[|Contents()| - 1])
    {
      if size == 0 {
        return Done(false);
      }
      RingLast(slots[..], front, size);
      return Item(slots[back]);
    }

    method Push(item: T) returns (ok: bool)
      requires Valid()
      modifies this`back, this`size, slots
      ensures Valid()
      ensures Reply.Done(ok) == ReplyTo(old(Contents()), maxSize, Op.Push(item))
      ensures Contents() == Apply(old(Contents()), maxSize, Op.Push(item))
      ensures ok <==> |old(Contents())| < maxSize
      ensures Contents() == if ok then old(Contents()) + [item] else old(Contents())
    {
      if size >= maxSize {
        return false;
      }
      NextIndex(back, maxSize);
      RingPush(slots[..], front, size, item);
      back := (back + 1) % maxSize;
      slots[back] := item;
      size := size + 1;
      return true;
    }

    method Pop() returns (reply: Reply<T>)
      requires Valid()
      modifies this`front, this`size
      ensures Valid()
      ensures reply == ReplyTo(old(Contents()), maxSize, Op.Pop)
      ensures Contents() == Apply(old(Contents()), maxSize, Op.Pop)
      ensures reply == if old(Contents()) == [] then Blocked else Item(old(Contents())[0])
      ensures old(Contents()) == if reply.Item? then [reply.item] + Contents() else Contents()
    {
      if size <= 0 {
        return Blocked;
      }
      NextIndex(front, maxSize);
      RingPop(slots[..], front, size);
      front := (front + 1) % maxSize;
      var item := slots[front];
      size := size - 1;
      return Item(item);
    }
  }
}
