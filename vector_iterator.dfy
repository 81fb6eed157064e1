/**
 * The position iterator of the dynamic array.
 *
 * In the source an iterator is a raw element pointer `m_Ptr` into the
 * vector's storage block. Here a pointer is the pair of the block it points
 * into and its offset within that block, so pointer arithmetic is integer
 * arithmetic on the offset and pointer equality is equality of both parts.
 * The iterator is a small value: `++it` updates the caller's iterator, which
 * in this model is the caller reassigning `it := it.Increment()`.
 *
 * The read-only iterator returned by `cbegin`/`cend` behaves identically
 * (it only changes the reference type of `*`), so it is the same type here.
 */
module VectorIterators {

  datatype VectorIterator<T> = VectorIterator(buffer: array<T>, ptr: int)
  {
    /** `++it`: the iterator one slot further on. */
    function Increment(): (r: VectorIterator<T>)
      ensures r.buffer == buffer && r.ptr == ptr + 1
      ensures r.Decrement() == this
    {
      VectorIterator(buffer, ptr + 1)
    }

    /** `it++`: yields the iterator as it was, and the stepped iterator. */
    function PostIncrement(): (r: (VectorIterator<T>, VectorIterator<T>))
      ensures r.0 == this
      ensures r.1 == Increment()
    {
      var saved := this;
      (saved, saved.Increment())
    }

    /** `--it`: the iterator one slot back. */
    function Decrement(): (r: VectorIterator<T>)
      ensures r.buffer == buffer && r.ptr == ptr - 1
    {
      VectorIterator(buffer, ptr - 1)
    }

    /** `it--`: yields the iterator as it was, and the stepped iterator. */
    function PostDecrement(): (r: (VectorIterator<T>, VectorIterator<T>))
      ensures r.0 == this
      ensures r.1 == Decrement()
      ensures r.1.Increment() == this
    {
      var saved := this;
      (saved, saved.Decrement())
    }

    /** `it + right`: `right` slots further on, in the same block. */
    function Plus(right: int): (r: VectorIterator<T>)
      ensures r.buffer == buffer && r.ptr - ptr == right
    {
      VectorIterator(buffer, ptr + right)
    }

    /** `it - right`: `right` slots back, in the same block. */
    function Minus(right: int): (r: VectorIterator<T>)
      ensures r == Plus(-right)
      ensures r.Plus(right) == this
    {
      VectorIterator(buffer, ptr - right)
    }

    /** `*it`: the element of the block the iterator points at. */
    function Deref(): (r: T)
      reads buffer
      requires 0 <= ptr < buffer.Length
      ensures r in buffer[..]
    {
      buffer[ptr]
    }

    /** `it[index]`: the element `index` slots away, which is `*(it + index)`. */
    function Index(index: int): (r: T)
      reads buffer
      requires 0 <= ptr + index < buffer.Length
      ensures r == Plus(index).Deref()
    {
      buffer[ptr + index]
    }

    /** `it == right`: the two iterators hold the same pointer. */
    predicate Equals(right: VectorIterator<T>)
      ensures Equals(right) <==> this == right
    {
      buffer == right.buffer && ptr == right.ptr
    }

    /** `it != right`. */
    predicate NotEquals(right: VectorIterator<T>)
      ensures NotEquals(right) <==> this != right
    {
      !Equals(right)
    }
  }

  /** The iterator after `k` applications of `++`; stepping never leaves the block. */
  function Steps<T>(it: VectorIterator<T>, k: nat): (r: VectorIterator<T>)
    ensures r.buffer == it.buffer
  {
    if k == 0 then it else Steps(it, k - 1).Increment()
  }

  /** Stepping forward `k` times lands where `it + k` points. */
  lemma {:induction false} StepsIsPlus<T>(it: VectorIterator<T>, k: nat)
    ensures Steps(it, k) == it.Plus(k)
  {
    if k > 0 {
      StepsIsPlus(it, k - 1);
    }
  }

  /** `*it` is `it[0]`. */
  lemma DerefIsIndexZero<T>(it: VectorIterator<T>)
    requires 0 <= it.ptr < it.buffer.Length
    ensures it.Deref() == it.Index(0)
  {
  }

  /** Offsets compose: `(it + a) + b` is `it + (a + b)`, and `it - a + a` is `it`. */
  lemma PlusComposes<T>(it: VectorIterator<T>, a: int, b: int)
    ensures it.Plus(a).Plus(b) == it.Plus(a + b)
    ensures it.Minus(a).Plus(a) == it
  {
  }

  /** For two iterators into one block, `==` and `!=` compare their offsets. */
  lemma EqualsIffSamePosition<T>(it: VectorIterator<T>, other: VectorIterator<T>)
    requires it.buffer == other.buffer
    ensures it.Equals(other) <==> it.ptr == other.ptr
    ensures it.NotEquals(other) <==> it.ptr != other.ptr
  {
  }
}
