/**
 * The abstract first-in first-out queue that the linked two-lock queue
 * implements: its contents are a sequence, front first.  The class methods
 * state their effect through `Enqueue` and `Dequeue`, and the lemmas below
 * say what any sequence of such calls does.
 */
module QueueSpec {
  import opened Options

  /** Effect of `enqueue(t)`: the element joins at the back. */
  function Enqueue<T>(s: seq<T>, x: T): (r: seq<T>)
    ensures |r| == |s| + 1 && r[|s|] == x && r[..|s|] == s
  {
    s + [x]
  }

  /**
   * Effect of `dequeue(result)`: the front element, if any, and what is left.
   * An empty queue yields nothing and stays as it is.
   */
  function Dequeue<T>(s: seq<T>): (r: (Option<T>, seq<T>))
    ensures r.0.Some? <==> s != []
    ensures r.0.Some? ==> [r.0.value] + r.1 == s
    ensures r.0.None? ==> r.1 == s
  {
    if s == [] then (None, s) else (Some(s[0]), s[1..])
  }

  /** One call made on the queue by a producer (`Push`) or a consumer (`Pop`). */
  datatype Op<T> = Push(x: T) | Pop

  /** The elements the producers hand in, in call order. */
  function Pushed<T>(ops: seq<Op<T>>): (r: seq<T>)
  {
    if ops == [] then []
    else if ops[0].Push? then [ops[0].x] + Pushed(ops[1..])
    else Pushed(ops[1..])
  }

  /** The number of consumer calls in `ops`. */
  function Pops<T>(ops: seq<Op<T>>): (r: nat)
  {
    if ops == [] then 0
    else (if ops[0].Pop? then 1 else 0) + Pops(ops[1..])
  }

  /**
   * Runs `ops` one after the other from contents `s`: the elements the
   * successful dequeues return, in order, and the contents left at the end.
   */
  function Run<T>(s: seq<T>, ops: seq<Op<T>>): (r: (seq<T>, seq<T>))
    decreases |ops|
  {
    if ops == [] then ([], s)
    else match ops[0]
      case Push(x) => Run(Enqueue(s, x), ops[1..])
      case Pop =>
        var (front, rest) := Dequeue(s);
        var (out, fin) := Run(rest, ops[1..]);
        if front.Some? then ([front.value] + out, fin) else (out, fin)
  }

  /**
   * No loss, no duplication, FIFO order: what was dequeued followed by what is
   * left is exactly what was there followed by what was enqueued.
   */
  lemma {:induction false} RunConserves<T>(s: seq<T>, ops: seq<Op<T>>)
    ensures Run(s, ops).0 + Run(s, ops).1 == s + Pushed(ops)
    decreases |ops|
  {
    if ops != [] {
      match ops[0]
      case Push(x) =>
        RunConserves(s + [x], ops[1..]);
      case Pop =>
        if s == [] {
          RunConserves(s, ops[1..]);
        } else {
          RunConserves(s[1..], ops[1..]);
          var (out, fin) := Run(s[1..], ops[1..]);
          assert Run(s, ops) == ([s[0]] + out, fin);
          assert Pushed(ops) == Pushed(ops[1..]);
          calc {
            ([s[0]] + out) + fin;
            [s[0]] + (out + fin);
            [s[0]] + (s[1..] + Pushed(ops[1..]));
            ([s[0]] + s[1..]) + Pushed(ops[1..]);
            { assert [s[0]] + s[1..] == s; }
            s + Pushed(ops);
          }
        }
    }
  }

  /** A dequeue never produces more elements than there were calls to it. */
  lemma {:induction false} RunOutputBounded<T>(s: seq<T>, ops: seq<Op<T>>)
    ensures |Run(s, ops).0| <= Pops(ops)
    decreases |ops|
  {
    if ops != [] {
      match ops[0]
      case Push(x) =>
        RunOutputBounded(s + [x], ops[1..]);
      case Pop =>
        RunOutputBounded(Dequeue(s).1, ops[1..]);
    }
  }

  /**
   * On an empty queue, dequeue calls alone find nothing and change nothing,
   * however many are made.
   */
  lemma {:induction false} PopsOnEmptyAreIdempotent<T>(ops: seq<Op<T>>)
    requires forall i :: 0 <= i < |ops| ==> ops[i].Pop?
    ensures Run([], ops) == ([], [])
  {
    if ops != [] {
      PopsOnEmptyAreIdempotent(ops[1..]);
    }
  }

  /**
   * Single-threaded FIFO: elements enqueued on an empty queue come back, in
   * order, from as many dequeue calls, and any further dequeues find nothing
   * and leave the queue empty.
   */
  lemma {:induction false} DrainReturnsInOrder<T>(xs: seq<T>, ops: seq<Op<T>>)
    requires |ops| >= 2 * |xs|
    requires forall i :: 0 <= i < |xs| ==> ops[i] == Push(xs[i])
    requires forall i :: |xs| <= i < |ops| ==> ops[i] == Pop
    ensures Run([], ops) == (xs, [])
  {
    PushesThenPops([], xs, ops);
    assert [] + xs == xs;
  }

  /**
   * Enqueues followed by at least enough dequeues return the old contents and
   * then the new elements, and leave the queue empty.
   */
  lemma {:induction false} PushesThenPops<T>(s: seq<T>, xs: seq<T>, ops: seq<Op<T>>)
    requires |ops| >= |xs| + |s| + |xs|
    requires forall i :: 0 <= i < |xs| ==> ops[i] == Push(xs[i])
    requires forall i :: |xs| <= i < |ops| ==> ops[i] == Pop
    ensures Run(s, ops) == (s + xs, [])
    decreases |xs|
  {
    if xs != [] {
      PushesThenPops(s + [xs[0]], xs[1..], ops[1..]);
      assert s + [xs[0]] + xs[1..] == s + xs;
    } else {
      PopsDrain(s, ops);
      assert s + xs == s;
    }
  }

  /**
   * At least as many dequeues as elements return the contents in order; the
   * dequeues beyond that find nothing and the queue ends empty.
   */
  lemma {:induction false} PopsDrain<T>(s: seq<T>, ops: seq<Op<T>>)
    requires |ops| >= |s|
    requires forall i :: 0 <= i < |ops| ==> ops[i] == Pop
    ensures Run(s, ops) == (s, [])
    decreases |ops|
  {
    if s == [] {
      PopsOnEmptyAreIdempotent(ops);
    } else {
      PopsDrain(s[1..], ops[1..]);
    }
  }

  /**
   * The queue laws that relate the two operations: a dequeue after an enqueue
   * returns the old front if there was one, and the new element otherwise.
   */
  lemma DequeueAfterEnqueue<T>(s: seq<T>, x: T)
    ensures Dequeue(Enqueue(s, x)) ==
      if s == [] then (Some(x), []) else (Some(s[0]), Enqueue(s[1..], x))
  {
    if s != [] {
      assert (s + [x])[1..] == s[1..] + [x];
    }
  }
}
