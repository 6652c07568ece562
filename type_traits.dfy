/**
 * The ownership strategies of `queue_detail::TypeTraits`, chosen by element
 * type: a plain value is copied to the heap, a raw pointer is passed through,
 * and a `unique_ptr` has its ownership moved in and out.
 */
module TypeTraits {

  /**
   * A heap object holding one element: the value strategy's heap copy, and
   * the object a raw pointer or a `unique_ptr` points at.
   */
  class Box<T> {
    var val: T

    constructor (v: T)
      ensures val == v
    {
      val := v;
    }
  }

  /** A `unique_ptr<T>`: the sole owner of the object it points at, or empty. */
  class Handle<T> {
    var ptr: Box?<T>

    constructor (p: Box?<T>)
      ensures ptr == p
    {
      ptr := p;
    }
  }

  /**
   * `TypeTraits<T>::create`: a fresh heap copy of the caller's value, which
   * the queue then owns.
   */
  method CreateCopy<T>(t: T) returns (p: Box<T>)
    ensures fresh(p) && p.val == t
  {
    p := new Box(t);
  }

  /**
   * `TypeTraits<unique_ptr<T>>::create`: takes ownership from the caller's
   * handle, which is left empty.
   */
  method MoveFrom<T>(h: Handle<T>) returns (p: Box?<T>)
    modifies h
    ensures p == old(h.ptr) && h.ptr == null
  {
    p := h.ptr;
    h.ptr := null;
  }

  /**
   * `result = TypeTraits<unique_ptr<T>>::convert(p)`: move-assignment hands
   * ownership of `p` to the consumer's handle; the object that handle owned
   * before, if any, is released.
   */
  method MoveInto<T>(result: Handle<T>, p: Box?<T>) returns (ghost released: Box?<T>)
    modifies result
    ensures result.ptr == p && released == old(result.ptr)
  {
    released := result.ptr;
    result.ptr := p;
  }
}
