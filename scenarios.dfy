/**
 * Single-threaded uses of the queue, one per strategy, that exercise what
 * the class contracts promise to a caller.
 */
module Scenarios {
  import opened TypeTraits
  import Strategies

  /**
   * Enqueue 10, 20, 30 on an empty queue of values; three dequeues return
   * them in order and a fourth finds nothing and leaves `result` alone.
   */
  method FifoOfThree() returns (r1: (bool, int), r2: (bool, int), r3: (bool, int), r4: (bool, int))
    ensures r1 == (true, 10) && r2 == (true, 20) && r3 == (true, 30)
    ensures r4 == (false, 30)
  {
    var q := new Strategies.ValueQueue<int>();
    q.Enqueue(10);
    q.Enqueue(20);
    q.Enqueue(30);
    var found, result := q.Dequeue(0);
    r1 := (found, result);
    found, result := q.Dequeue(result);
    r2 := (found, result);
    found, result := q.Dequeue(result);
    r3 := (found, result);
    found, result := q.Dequeue(result);
    r4 := (found, result);
  }

  /** On a fresh queue every dequeue reports nothing found and leaves `result` as it was. */
  method DequeueFreshQueue(prior: int) returns (a: bool, ra: int, b: bool, rb: int)
    ensures !a && ra == prior && !b && rb == prior
  {
    var q := new Strategies.ValueQueue<int>();
    a, ra := q.Dequeue(prior);
    b, rb := q.Dequeue(ra);
  }

  /** The pointers dequeued are the very pointers enqueued, in order, and the pointees are untouched. */
  method PointerIdentity(p1: Box?<int>, p2: Box?<int>) returns (d1: Box?<int>, d2: Box?<int>)
    ensures d1 == p1 && d2 == p2
    ensures p1 != null ==> p1.val == old(p1.val)
    ensures p2 != null ==> p2.val == old(p2.val)
  {
    var q := new Strategies.PointerQueue<int>();
    q.Enqueue(p1);
    q.Enqueue(p2);
    var found;
    found, d1 := q.Dequeue(null);
    found, d2 := q.Dequeue(null);
  }

  /**
   * After `enqueue(h)` the producer's handle is empty, and the handle filled
   * by the matching dequeue owns the object `h` owned.
   */
  method HandleTransfer(x: int) returns (producerAfter: Box?<int>, consumerAfter: Box?<int>, owned: Box<int>)
    ensures producerAfter == null && consumerAfter == owned && owned.val == x
  {
    owned := new Box(x);
    var h := new Handle(owned);
    var q := new Strategies.HandleQueue<int>();
    q.Enqueue(h);
    producerAfter := h.ptr;
    var result := new Handle(null);
    var found, dropped := q.Dequeue(result);
    consumerAfter := result.ptr;
  }
}
