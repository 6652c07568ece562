/**
 * The two-lock queue engine of `queue::Queue<T>`: a singly linked chain of
 * heap nodes that always starts with a placeholder node.  `first` points at
 * the placeholder, `last` at the tail; producers link new nodes after `last`
 * under the producer lock and consumers advance `first` under the consumer
 * lock.  The engine is generic in `P`, the pointer type a node stores; the
 * ownership strategy that turns elements into `P` and back lives in
 * module Strategies.
 */
module LinkedQueue {
  import opened Options
  import QueueSpec

  const LOCKED: bool := true
  const UNLOCKED: bool := false

  /** A node of the chain: one element slot (None is the null pointer) and a next pointer. */
  class Node<P> {
    var value: Option<P>
    var next: Node?<P>

    constructor (v: Option<P>)
      ensures value == v && next == null
    {
      value := v;
      next := null;
    }
  }

  class Queue<P> {
    var first: Node?<P>
    var last: Node?<P>
    var consumerLock: bool
    var producerLock: bool

    /** The chain from `first` to `last`, placeholder first. */
    ghost var Nodes: seq<Node<P>>
    /** The enqueued, not yet dequeued elements, front first. */
    ghost var Contents: seq<P>
    ghost var Repr: set<object>

    /**
     * The queue's invariant between calls: the chain runs from `first` to
     * `last` without repeating a node and ends in null, the placeholder holds
     * no element, every later node holds one element of `Contents` in order,
     * and neither lock is held.
     */
    ghost predicate Valid()
      reads this, Repr
      ensures Valid() ==> this in Repr
    {
      && this in Repr
      && |Nodes| == |Contents| + 1
      && (forall i :: 0 <= i < |Nodes| ==> Nodes[i] in Repr)
      && (forall o :: o in Repr ==> o == this || exists i :: 0 <= i < |Nodes| && o == Nodes[i])
      && first == Nodes[0]
      && last == Nodes[|Nodes| - 1]
      && (forall i :: 0 <= i < |Nodes| - 1 ==> Nodes[i].next == Nodes[i + 1])
      && last.next == null
      && first.value == None
      && (forall i :: 0 <= i < |Contents| ==> Nodes[i + 1].value == Some(Contents[i]))
      && (forall i, j :: 0 <= i < j < |Nodes| ==> Nodes[i] != Nodes[j])
      && consumerLock == UNLOCKED
      && producerLock == UNLOCKED
    }

    /** Both locks free and a single placeholder node with a null value and a null next. */
    constructor ()
      ensures Valid() && fresh(Repr)
      ensures Contents == []
      ensures first == last && first.value == None && first.next == null
      ensures consumerLock == UNLOCKED && producerLock == UNLOCKED
    {
      consumerLock := UNLOCKED;
      producerLock := UNLOCKED;
      var divider := new Node(None);
      first := divider;
      last := divider;
      Nodes := [divider];
      Contents := [];
      new;
      Repr := {this, divider};
    }

    /** The queue is empty exactly when `first` is `last`, and exactly when the placeholder has no successor. */
    lemma EmptyIff()
      requires Valid()
      ensures Contents == [] <==> first == last
      ensures Contents == [] <==> first.next == null
    {
      if first == last {
        assert Nodes[0] == Nodes[|Nodes| - 1];
      }
      if Contents != [] {
        assert first.next == Nodes[1];
      }
    }

    /**
     * `enqueue` once the strategy has produced `p`: a new node holding `p` is
     * allocated before the producer lock is taken, linked after the old tail
     * and made the new `last`; the lock is free again on return.
     */
    method Enqueue(p: P)
      requires Valid()
      modifies Repr
      ensures Valid() && fresh(Repr - old(Repr)) && Repr == old(Repr) + {last}
      ensures Contents == QueueSpec.Enqueue(old(Contents), p)
      ensures first == old(first) && fresh(last)
      ensures old(last).next == last && last.value == Some(p) && last.next == null
      ensures producerLock == UNLOCKED
    {
      var newNode := new Node(Some(p));
      // The acquire loop: in a sequential run the first compare-exchange succeeds.
      producerLock := LOCKED;
      last.next := newNode;
      last := newNode;
      Nodes := Nodes + [newNode];
      Contents := Contents + [p];
      Repr := Repr + {newNode};
      producerLock := UNLOCKED;
      forall o | o in Repr
        ensures o == this || exists i :: 0 <= i < |Nodes| && o == Nodes[i]
      {
        if o == newNode {
          assert o == Nodes[|Nodes| - 1];
        } else if o != this {
          var i :| 0 <= i < |old(Nodes)| && o == old(Nodes)[i];
          assert o == Nodes[i];
        }
      }
    }

    /**
     * `dequeue` up to the strategy's conversion: if the placeholder has a
     * successor, its value is taken out and cleared, the successor becomes the
     * new placeholder and the old one is freed; otherwise nothing changes.
     */
    method Dequeue() returns (slot: Option<P>)
      requires Valid()
      modifies Repr
      ensures Valid() && Repr <= old(Repr)
      ensures (slot, Contents) == QueueSpec.Dequeue(old(Contents))
      ensures consumerLock == UNLOCKED
      ensures old(Contents) == [] ==> Repr == old(Repr) && unchanged(Repr)
      ensures old(Contents) != [] ==>
        && first == old(first.next) && last == old(last)
        && first.value == None
        && Repr == old(Repr) - {old(first)}
    {
      EmptyIff();
      consumerLock := LOCKED;
      var theFirst := first;
      var theNext := theFirst.next;
      if theNext != null {
        assert theNext == Nodes[1];
        slot := theNext.value;
        theNext.value := None;
        first := theNext;
        consumerLock := UNLOCKED;
        // delete the_first
        Nodes := Nodes[1..];
        Contents := Contents[1..];
        Repr := Repr - {theFirst};
        return;
      }
      consumerLock := UNLOCKED;
      slot := None;
    }

    /**
     * The destructor: walks the chain from `first`, passing each node's value
     * to the strategy's release and freeing the node, until `first` is null.
     * `released` lists the values in chain order and `freed` the nodes, each
     * exactly once.
     */
    method Teardown() returns (released: seq<Option<P>>, ghost freed: seq<Node<P>>)
      requires Valid()
      modifies this
      ensures first == null && Nodes == [] && Contents == [] && Repr == {this}
      ensures freed == old(Nodes)
      ensures |released| == |old(Contents)| + 1 && released[0] == None
      ensures forall i :: 0 <= i < |old(Contents)| ==> released[i + 1] == Some(old(Contents)[i])
    {
      ghost var nodes := Nodes;
      ghost var contents := Contents;
      released, freed := [], [];
      while first != null
        invariant |freed| <= |nodes|
        invariant freed == nodes[..|freed|]
        invariant first == if |freed| < |nodes| then nodes[|freed|] else null
        invariant |released| == |freed|
        invariant forall i :: 0 <= i < |freed| ==> released[i] == nodes[i].value
        decreases |nodes| - |freed|
      {
        var tmp := first;
        first := tmp.next;
        released := released + [tmp.value];  // Traits::destroy(tmp->value)
        freed := freed + [tmp];               // delete tmp
      }
      Nodes, Contents, Repr := [], [], {this};
    }
  }
}
