/** ThreadSafeQueue<T>: a FIFO with a capacity fixed at construction that
    connects every pipeline stage. Sequential model: where the source waits on
    its condition variable (enqueue while full, dequeue while empty), the
    model requires the condition the wait would establish. Two ghost
    histories record everything ever enqueued and dequeued; Valid() keeps
    `enqueued == dequeued + items`, which is FIFO order with no loss and no
    duplication. */
module ThreadSafeQueue {

  class BoundedQueue<T> {
    var items: seq<T>
    const capacity: nat
    ghost var enqueued: seq<T>
    ghost var dequeued: seq<T>

    ghost predicate Valid()
      reads this
    {
      |items| <= capacity && enqueued == dequeued + items
    }

    constructor (queueCapacity: nat)
      ensures Valid()
      ensures capacity == queueCapacity && items == []
      ensures enqueued == [] && dequeued == []
    {
      capacity := queueCapacity;
      items := [];
      enqueued, dequeued := [], [];
    }

    method IsEmpty() returns (empty: bool)
      ensures empty <==> items == []
    {
      empty := |items| == 0;
    }

    method IsFull() returns (full: bool)
      ensures full <==> |items| >= capacity
    {
      full := |items| >= capacity;
    }

    method QueueSize() returns (size: nat)
      ensures size == |items|
    {
      size := |items|;
    }

    /** Appends at the back; the wait for room becomes the precondition. */
    method Enqueue(value: T)
      requires Valid() && |items| < capacity
      modifies this
      ensures Valid()
      ensures items == old(items) + [value] && |items| <= capacity
      ensures enqueued == old(enqueued) + [value] && dequeued == old(dequeued)
    {
      items := items + [value];
      enqueued := enqueued + [value];
    }

    /** Removes and returns the oldest element (front, then pop). */
    method Dequeue() returns (item: T)
      requires Valid() && |items| > 0
      modifies this
      ensures Valid()
      ensures item == old(items)[0] && items == old(items)[1..]
      ensures dequeued == old(dequeued) + [item] && enqueued == old(enqueued)
    {
      item := items[0];
      items := items[1..];
      dequeued := dequeued + [item];
    }
  }

  /** FIFO: what has been dequeued is a prefix of what has been enqueued, and
      the queue holds exactly the rest, in order. */
  lemma DequeuedIsPrefix<T>(q: BoundedQueue<T>)
    requires q.Valid()
    ensures q.dequeued <= q.enqueued
    ensures q.items == q.enqueued[|q.dequeued|..]
  {
  }

  /** A client run: two values go in and come out in the same order, and the
      capacity stays what it was. */
  method FifoScenario<T>(x: T, y: T) returns (first: T, second: T)
    ensures first == x && second == y
  {
    var q := new BoundedQueue<T>(2);
    q.Enqueue(x);
    q.Enqueue(y);
    var full := q.IsFull();
    assert full;
    first := q.Dequeue();
    second := q.Dequeue();
    var empty := q.IsEmpty();
    assert empty && q.capacity == 2;
    assert q.dequeued == q.enqueued == [x, y];
  }
}
