# pyhook's two-lock queue, modelled in Dafny

This project models `queue::Queue<T>` from `queue.h` in the pyhook repository.
It is a FIFO queue that hands work items from producer threads to consumer threads.
The queue is a singly linked chain of heap nodes that always starts with a placeholder node.
`first` points at the placeholder and `last` at the tail.
Producers link new nodes after `last` under a producer lock.
Consumers advance `first` under a separate consumer lock.
How an element is stored, handed out and released depends on a compile-time strategy,
`queue_detail::TypeTraits<T>`. There are three:

- a plain value is copied to the heap;
- a raw pointer is passed through untouched;
- a `unique_ptr` has its ownership moved in and out.

Modules:

- `QueueSpec` (queue_spec.dfy) is the abstract queue, a sequence with front first.
  `Enqueue` and `Dequeue` give the effect of one call, and `Run` gives the effect of a sequence of calls.
  The lemmas prove no loss, no duplication and FIFO order; that dequeues on an empty queue are idempotent;
  and the queue laws that relate the two operations.
- `TypeTraits` (type_traits.dfy) holds `Box<T>`, a heap object holding an element, and `Handle<T>`, a `unique_ptr`.
  It also holds the strategy operations that allocate or move: the heap copy, the move out of the producer's
  handle, and the move-assignment into the consumer's handle.
- `LinkedQueue` (linked_queue.dfy) is the engine. It holds `Node<P>` and `Queue<P>`, generic in the pointer type `P`
  that a node stores. It has the constructor, `Enqueue`, `Dequeue` and the destructor (`Teardown`).
  Its object invariant `Valid()` covers four things:
  - the chain from `first` to `last`, with no repeated node;
  - the placeholder's empty slot;
  - the ghost `Contents` held by the later nodes;
  - both lock flags free.
- `Strategies` (strategies.dfy) holds `ValueQueue`, `PointerQueue` and `HandleQueue`.
  These are the template's three instantiations: `Queue<T>`, `Queue<T*>` and `Queue<unique_ptr<T>>`.
  Each one does its strategy's create before the engine's enqueue, and its convert and destroy after the engine's dequeue.
- `Scenarios` (scenarios.dfy) holds single-threaded client methods. Each one states what a caller can rely on.

A `delete` in the source appears in the model as removal from the ghost footprint `Repr`.
The destructor also returns the sequence of nodes it frees and the values it releases.
An `Option` slot stands for a node's nullable pointer, and `None` is the placeholder's null.

## Model

| member | source | states |
|---|---|---|
| QueueSpec.Enqueue | queue.h:138-162 | enqueue puts the element at the back and keeps every earlier element in place |
| QueueSpec.Dequeue | queue.h:166-207 | dequeue finds an element iff the queue is non-empty; the front element followed by what is left is the old contents; an empty queue is left as it is |
| QueueSpec.RunConserves | queue.h:138-207 | for any sequence of enqueue and dequeue calls, the elements dequeued followed by those left equal the initial contents followed by those enqueued (no loss, no duplication, FIFO order) |
| QueueSpec.RunOutputBounded | queue.h:166-207 | a run of calls never dequeues more elements than it makes dequeue calls |
| QueueSpec.PopsOnEmptyAreIdempotent | queue.h:181-206 | any number of dequeues on an empty queue return nothing and leave it empty |
| QueueSpec.DrainReturnsInOrder | queue.h:138-207 | n elements enqueued on an empty queue come back in order from the first n of any n or more dequeues; the further dequeues find nothing and the queue ends empty |
| QueueSpec.PushesThenPops | queue.h:138-207 | enqueues followed by at least enough dequeues return the old contents and then the new elements, in order, and leave the queue empty |
| QueueSpec.PopsDrain | queue.h:166-207 | at least as many dequeues as elements return the contents in order, the rest find nothing, and the queue ends empty |
| QueueSpec.DequeueAfterEnqueue | queue.h:138-207 | a dequeue after an enqueue returns the old front if there was one and otherwise the new element |
| TypeTraits.CreateCopy | queue.h:27-30 | the value strategy's create makes a fresh heap object holding the caller's value |
| TypeTraits.MoveFrom | queue.h:85-90 | the unique_ptr strategy's create takes what the producer's handle owned and leaves that handle empty |
| TypeTraits.MoveInto | queue.h:92-95 | the consumer's handle comes to own the moved element, and the object it owned before is the one released |
| LinkedQueue.Node.constructor | queue.h:226-227 | a new node holds the given slot and has a null next |
| LinkedQueue.Queue.constructor | queue.h:114-123 | a new queue has both locks UNLOCKED and a single placeholder node with a null value and a null next; first == last and the contents are empty |
| LinkedQueue.Queue.EmptyIff | queue.h:181-184 | for a valid queue, being empty, first == last, and the placeholder having no successor are equivalent |
| LinkedQueue.Queue.Enqueue | queue.h:138-162 | a fresh node holding the slot is linked after the old tail and becomes last, with a null next; first is unchanged; the contents gain the element at the back; the producer lock is UNLOCKED on return; the invariant is kept |
| LinkedQueue.Queue.Dequeue | queue.h:166-207 | the slot and new contents are those of the abstract dequeue; on an empty queue nothing in the queue changes; otherwise first moves to its successor, whose value is cleared, last is unchanged and the old placeholder leaves the footprint; the consumer lock is UNLOCKED on both paths |
| LinkedQueue.Queue.Teardown | queue.h:125-135 | the destructor walks until first is null; it frees every node of the chain exactly once, in order; the values it hands to destroy are the placeholder's null followed by every remaining element, in order |
| Strategies.PresentOfChain | queue.h:125-135 | the non-null values the destructor hands to destroy are exactly the remaining elements, each once, in order |
| Strategies.PresentOfSomes | queue.h:125-135 | a chain of non-null values yields exactly its elements |
| Strategies.ValueQueue.constructor | queue.h:114-123 | a new queue of values is empty and valid |
| Strategies.ValueQueue.Enqueue | queue.h:138-162 | enqueue stores a heap copy of the value, which the queue owns, and the value joins the contents at the back |
| Strategies.ValueQueue.Dequeue | queue.h:32-45 | on a non-empty queue the result equals the front value, and its heap copy leaves the footprint; on an empty queue the result keeps its old value and nothing changes; found and contents follow the abstract dequeue |
| Strategies.ValueQueue.Teardown | queue.h:125-135 | the destructor deletes exactly the queue's own heap copies, one per remaining element, all distinct, holding the remaining values in order |
| Strategies.PointerQueue.constructor | queue.h:114-123 | a new queue of pointers is empty and valid |
| Strategies.PointerQueue.Enqueue | queue.h:51-60 | enqueue stores the caller's pointer itself; the contents gain it at the back |
| Strategies.PointerQueue.Dequeue | queue.h:62-75 | the pointer dequeued is the very pointer enqueued first; on an empty queue the result keeps its value; every queued pointee keeps its value |
| Strategies.PointerQueue.Teardown | queue.h:72-74 | the destructor frees the nodes only and leaves every queued pointee unchanged |
| Strategies.HandleQueue.constructor | queue.h:114-123 | a new queue of handles is empty and valid |
| Strategies.HandleQueue.Enqueue | queue.h:85-90 | what the producer's handle owned joins the contents at the back, and that handle is empty on return; as a unique_ptr, the producer's handle owns nothing already queued, so the queued objects stay distinct |
| Strategies.HandleQueue.Dequeue | queue.h:92-104 | on a non-empty queue the consumer's handle owns the front element, which no handle still in the queue owns, and the object it held before is released; on an empty queue the handle and the queue are unchanged |
| Strategies.HandleQueue.Teardown | queue.h:125-135 | the destructor releases every remaining element in queue order, and no object twice, since no object is queued in two handles |
| Scenarios.FifoOfThree | queue.h:138-207 | enqueue 10, 20, 30 and then three dequeues return (true,10), (true,20), (true,30); a fourth returns false and leaves the result alone |
| Scenarios.DequeueFreshQueue | queue.h:181-206 | dequeues on a freshly constructed queue return false and leave the result unchanged |
| Scenarios.PointerIdentity | queue.h:51-75 | the pointers dequeued are the pointers enqueued, in order, and the pointees keep their values |
| Scenarios.HandleTransfer | queue.h:85-99 | after enqueue the producer's handle is empty, and the consumer's handle then owns the original object with its value |

## Left out

- The compare-exchange, `wait` and `notify_all` acquire loops, and all memory-ordering arguments (queue.h:147-154, 172-179). This is concurrency. Each lock is a boolean field, and acquiring it succeeds at once, as in any single-threaded run. Every method still leaves its lock UNLOCKED.
- The concurrent versions of the properties (no loss or duplication across threads, liveness under mixed load). The model proves their sequential counterpart, `QueueSpec.RunConserves`, for any interleaving of whole calls.
- Cache-line padding and `alignas` (queue.h:14, 234-242). This is layout only.
- Allocation failure inside `new`. It is fatal in the source and out of scope here.
- Statement order. The engine's `Dequeue` frees the old placeholder before the strategy converts the element, while the source converts first. The strategy classes apply destroy to the released values after the destructor's walk, while the source calls it per node inside the loop. Neither reordering changes anything observable in a single thread.
- Node slots. A node that carries a null raw pointer or an empty `unique_ptr` holds `Some(null)` in the model. In the source it holds the same null as the placeholder. The queue never inspects a slot, so behaviour is the same.
- Strategies.HandleQueue.Dequeue: says that no handle still in the queue owns the dequeued object, but not that no handle outside the queue does. The model tracks `unique_ptr` ownership only among the queue's own handles.
- pyhook.cpp is not part of this model. It covers thread lifecycle over `std::jthread`, the demo producer and consumer, and the embedded interpreter. These are I/O, concurrency and foreign calls.
- utils.h is not part of this model. Its random-number helpers, the `Trade` record and its factory traits are library wrappers. Its `TASK_QUEUE` names a `queue::CircularQueue` that `queue.h` does not define.
- pyhook.py is not part of this model. It is a floating-point momentum signal computed with pandas.
