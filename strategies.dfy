/**
 * `queue::Queue<T>` instantiated with each of the three ownership strategies
 * of `queue_detail::TypeTraits`.  Each class owns one engine queue and does
 * the strategy's create before the engine's enqueue and its convert and
 * destroy after the engine's dequeue, as the template does; the engine
 * itself never looks at the element type.
 */
module Strategies {
  import opened Options
  import opened TypeTraits
  import QueueSpec
  import LinkedQueue

  /**
   * What the strategy's destroy acts on when the destructor walks the chain:
   * the non-null values, in order (destroying a null pointer does nothing).
   */
  function Present<P>(values: seq<Option<P>>): (r: seq<P>)
  {
    if values == [] then []
    else if values[0].Some? then [values[0].value] + Present(values[1..])
    else Present(values[1..])
  }

  /**
   * The values the destructor releases are the queue's remaining elements,
   * each once: the placeholder contributes nothing and every other node its
   * element.
   */
  lemma {:induction false} PresentOfChain<P>(values: seq<Option<P>>, contents: seq<P>)
    requires |values| == |contents| + 1 && values[0] == None
    requires forall i :: 0 <= i < |contents| ==> values[i + 1] == Some(contents[i])
    ensures Present(values) == contents
  {
    PresentOfSomes(values[1..], contents);
  }

  lemma {:induction false} PresentOfSomes<P>(values: seq<Option<P>>, contents: seq<P>)
    requires |values| == |contents|
    requires forall i :: 0 <= i < |contents| ==> values[i] == Some(contents[i])
    ensures Present(values) == contents
  {
    if values != [] {
      PresentOfSomes(values[1..], contents[1..]);
      assert contents == [contents[0]] + contents[1..];
    }
  }

  /**
   * `Queue<T>` for a plain value type: `create` puts a heap copy of the
   * element in the node, `convert` copies it out to the caller and `destroy`
   * deletes the heap copy.  The queue owns every heap copy in transit.
   */
  class ValueQueue<T> {
    const q: LinkedQueue.Queue<Box<T>>
    ghost var Contents: seq<T>
    ghost var Repr: set<object>

    ghost predicate Valid()
      reads this, Repr
      ensures Valid() ==> this in Repr
    {
      && this in Repr && q in Repr && q.Repr <= Repr && this !in q.Repr
      && q.Valid()
      && |Contents| == |q.Contents|
      && (forall i :: 0 <= i < |q.Contents| ==> q.Contents[i] in Repr && q.Contents[i] !in q.Repr)
      && (forall i :: 0 <= i < |q.Contents| ==> q.Contents[i].val == Contents[i])
      && (forall i, j :: 0 <= i < j < |q.Contents| ==> q.Contents[i] != q.Contents[j])
    }

    constructor ()
      ensures Valid() && fresh(Repr) && Contents == []
    {
      q := new LinkedQueue.Queue();
      Contents := [];
      new;
      Repr := {this} + q.Repr;
    }

    /** `enqueue(t)`: a heap copy of `t` joins at the back. */
    method Enqueue(t: T)
      requires Valid()
      modifies Repr
      ensures Valid() && fresh(Repr - old(Repr))
      ensures Contents == QueueSpec.Enqueue(old(Contents), t)
    {
      var copy := CreateCopy(t);
      q.Enqueue(copy);
      Contents := Contents + [t];
      Repr := Repr + q.Repr + {copy};
    }

    /**
     * `dequeue(result)`: on a non-empty queue, `result` becomes a copy of the
     * front element and its heap copy is deleted; on an empty queue `result`
     * keeps its value and nothing changes.
     */
    method Dequeue(prior: T) returns (found: bool, result: T)
      requires Valid()
      modifies Repr
      ensures Valid() && Repr <= old(Repr)
      ensures (if found then Some(result) else None, Contents) == QueueSpec.Dequeue(old(Contents))
      ensures !found ==> result == prior && Repr == old(Repr) && unchanged(Repr)
      ensures found ==> old(q.Contents)[0] !in Repr
    {
      var slot := q.Dequeue();
      if slot.Some? {
        var theValue := slot.value;
        result := theValue.val;         // Traits::convert: *t
        Repr := Repr - {theValue};      // Traits::destroy: delete t
        Contents := Contents[1..];
        found := true;
      } else {
        found, result := false, prior;
      }
    }

    /**
     * The destructor: every heap copy still in the queue is deleted exactly
     * once, along with every node.
     */
    method Teardown() returns (ghost deleted: seq<Box<T>>)
      requires Valid()
      modifies Repr
      ensures deleted == old(q.Contents) && |deleted| == |old(Contents)|
      ensures forall i :: 0 <= i < |deleted| ==> deleted[i].val == old(Contents)[i]
      ensures forall i, j :: 0 <= i < j < |deleted| ==> deleted[i] != deleted[j]
      ensures q.first == null && Repr == {this, q}
    {
      ghost var copies := q.Contents;
      var released, freed := q.Teardown();
      PresentOfChain(released, copies);
      deleted := Present(released);     // Traits::destroy on each value
      Contents := [];
      Repr := {this, q};
    }
  }

  /**
   * `Queue<T*>` for a raw pointer: `create`, `get` and `convert` are the
   * identity and `destroy` does nothing.  The queue is only a conduit for the
   * caller's pointer and never copies, changes or frees what it points at.
   */
  class PointerQueue<T> {
    const q: LinkedQueue.Queue<Box?<T>>
    ghost var Contents: seq<Box?<T>>
    ghost var Repr: set<object>

    ghost predicate Valid()
      reads this, Repr
      ensures Valid() ==> this in Repr
    {
      && this in Repr && q in Repr && q.Repr <= Repr && this !in q.Repr
      && (forall o :: o in Repr ==> o == this || o in q.Repr)
      && q.Valid()
      && Contents == q.Contents
    }

    constructor ()
      ensures Valid() && fresh(Repr) && Contents == []
    {
      q := new LinkedQueue.Queue();
      Contents := [];
      new;
      Repr := {this} + q.Repr;
    }

    /** `enqueue(p)`: the pointer itself joins at the back. */
    method Enqueue(p: Box?<T>)
      requires Valid()
      modifies Repr
      ensures Valid() && fresh(Repr - old(Repr))
      ensures Contents == QueueSpec.Enqueue(old(Contents), p)
    {
      q.Enqueue(p);
      Contents := q.Contents;
      Repr := Repr + q.Repr;
    }

    /**
     * `dequeue(result)`: on a non-empty queue, `result` is the very pointer
     * that was enqueued first; on an empty queue it keeps its value.  No
     * pointee is touched either way.
     */
    method Dequeue(prior: Box?<T>) returns (found: bool, result: Box?<T>)
      requires Valid()
      modifies Repr
      ensures Valid() && Repr <= old(Repr)
      ensures (if found then Some(result) else None, Contents) == QueueSpec.Dequeue(old(Contents))
      ensures !found ==> result == prior && Repr == old(Repr) && unchanged(Repr)
      ensures forall p | p in old(Contents) && p != null :: p.val == old(p.val)
    {
      var slot := q.Dequeue();
      if slot.Some? {
        result := slot.value;
        found := true;
      } else {
        found, result := false, prior;
      }
      Contents := q.Contents;
      Repr := {this} + q.Repr;
    }

    /** The destructor frees the nodes only: no pointee is released or changed. */
    method Teardown()
      requires Valid()
      modifies Repr
      ensures q.first == null && Repr == {this, q}
      ensures forall p | p in old(Contents) && p != null :: p.val == old(p.val)
    {
      var released, freed := q.Teardown();
      Contents := [];
      Repr := {this, q};
    }
  }

  /**
   * No object is owned by two of the `unique_ptr`s in `handles`; empty
   * handles may repeat.
   */
  ghost predicate Unique<T>(handles: seq<Box?<T>>)
  {
    forall i, j :: 0 <= i < j < |handles| && handles[i] != null ==> handles[i] != handles[j]
  }

  /**
   * `Queue<unique_ptr<T>>`: `create` moves ownership out of the producer's
   * handle, `get` and `convert` move it on to the consumer's handle, and an
   * element still queued at destruction is released by its node.  As each
   * `unique_ptr` is the sole owner of its object, no object is queued twice.
   */
  class HandleQueue<T> {
    const q: LinkedQueue.Queue<Box?<T>>
    ghost var Contents: seq<Box?<T>>
    ghost var Repr: set<object>

    ghost predicate Valid()
      reads this, Repr
      ensures Valid() ==> this in Repr
    {
      && this in Repr && q in Repr && q.Repr <= Repr && this !in q.Repr
      && (forall o :: o in Repr ==> o == this || o in q.Repr)
      && q.Valid()
      && Contents == q.Contents
      && Unique(Contents)
    }

    constructor ()
      ensures Valid() && fresh(Repr) && Contents == []
    {
      q := new LinkedQueue.Queue();
      Contents := [];
      new;
      Repr := {this} + q.Repr;
    }

    /**
     * `enqueue(h)`: what `h` owned joins at the back, and the producer's
     * handle is empty as soon as the call returns.
     */
    method Enqueue(h: Handle<T>)
      requires Valid()
      requires h.ptr == null || h.ptr !in Contents
      modifies Repr, h
      ensures Valid() && fresh(Repr - old(Repr))
      ensures Contents == QueueSpec.Enqueue(old(Contents), old(h.ptr))
      ensures h.ptr == null
    {
      var p := MoveFrom(h);
      q.Enqueue(p);
      Contents := q.Contents;
      Repr := Repr + q.Repr;
    }

    /**
     * `dequeue(result)`: on a non-empty queue, `result` becomes the sole owner
     * of the front element and whatever it owned before is released; on an
     * empty queue `result` is left alone.
     */
    method Dequeue(result: Handle<T>) returns (found: bool, ghost dropped: Box?<T>)
      requires Valid()
      modifies Repr, result
      ensures Valid() && Repr <= old(Repr)
      ensures (if found then Some(result.ptr) else None, Contents) == QueueSpec.Dequeue(old(Contents))
      ensures found ==> dropped == old(result.ptr)
      ensures found && result.ptr != null ==> result.ptr !in Contents
      ensures !found ==> result.ptr == old(result.ptr) && dropped == null
      ensures !found ==> Repr == old(Repr) && unchanged(Repr)
    {
      var slot := q.Dequeue();
      if slot.Some? {
        dropped := MoveInto(result, slot.value);
        found := true;
      } else {
        found, dropped := false, null;
      }
      Contents := q.Contents;
      Repr := {this} + q.Repr;
    }

    /**
     * The destructor: deleting each node releases the element its handle
     * still owns, so every remaining element is released exactly once, in
     * queue order.
     */
    method Teardown() returns (ghost released: seq<Box?<T>>)
      requires Valid()
      modifies Repr
      ensures released == old(Contents) && Unique(released)
      ensures q.first == null && Repr == {this, q}
    {
      ghost var contents := q.Contents;
      var values, freed := q.Teardown();
      PresentOfChain(values, contents);
      released := Present(values);
      Contents := [];
      Repr := {this, q};
    }
  }
}
