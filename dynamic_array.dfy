/**
 * The generic growable array `reda::Vector<Type>`.
 *
 * The storage block `m_Data` is an `array<T>` whose length is the capacity
 * `m_Capacity`; `m_Size` is `size`. Slots `[0, size)` hold the live elements,
 * the rest of the block is spare room. Constructing an element into a slot
 * (placement new) is a slot write, an explicit destructor call changes no
 * value, and moving an element is copying its value.
 */
module DynamicArray {
  import opened VectorIterators

  /** The growth formula used by every append-class operation: capacity grows by half, at most doubling. */
  function Grow(capacity: nat): (r: nat)
    ensures capacity <= r <= 2 * capacity
  {
    capacity + capacity / 2
  }

  /** Growth makes room exactly when the capacity is at least 2; at 0 and 1 it stalls. */
  lemma GrowMakesRoomIff(capacity: nat)
    ensures Grow(capacity) > capacity <==> capacity >= 2
  {
  }

  /**
   * The contents after inserting `val` at `index`, as the source's two paths
   * produce them: at `index == |s| - 1` the append fast path puts `val` at
   * the end; at every other index the tail `s[index..]` moves one slot right.
   */
  function Inserted<T>(s: seq<T>, index: nat, val: T): (r: seq<T>)
    requires 1 <= |s| && index <= |s|
    ensures |r| == |s| + 1
    ensures index != |s| - 1 ==> r[index] == val
    ensures index == |s| - 1 ==> r[|s|] == val
  {
    if index == |s| - 1 then s + [val] else s[..index] + [val] + s[index..]
  }

  /**
   * The contents after `removeAt(index)`: nothing changes on an empty vector,
   * an index inside the vector closes the gap, and any index at or past the
   * end drops the last element.
   */
  function Removed<T>(s: seq<T>, index: nat): (r: seq<T>)
    ensures |s| == 0 ==> r == s
    ensures |s| > 0 ==> |r| == |s| - 1
    ensures forall j :: 0 <= j < |r| ==> r[j] == if j < index then s[j] else s[j + 1]
  {
    if |s| == 0 then s
    else if index < |s| then s[..index] + s[index + 1..]
    else s[..|s| - 1]
  }

  /** Removal keeps the order of the remaining elements and shortens a non-empty vector by one. */
  lemma RemovedKeepsOrder<T>(s: seq<T>, index: nat)
    requires index < |s|
    ensures |Removed(s, index)| == |s| - 1
    ensures forall j :: 0 <= j < index ==> Removed(s, index)[j] == s[j]
    ensures forall j :: index <= j < |s| - 1 ==> Removed(s, index)[j] == s[j + 1]
  {
  }

  /** Away from the fast path, insertion places `val` before the element that was at `index`. */
  lemma InsertedShiftsTail<T>(s: seq<T>, index: nat, val: T)
    requires 1 <= |s| && index <= |s| && index != |s| - 1
    ensures forall j :: 0 <= j < index ==> Inserted(s, index, val)[j] == s[j]
    ensures forall j :: index <= j < |s| ==> Inserted(s, index, val)[j + 1] == s[j]
  {
  }

  /**
   * The fast path is not an insertion before the last element: whenever `val`
   * differs from the last element, the result differs from `s[..i] + [val] + s[i..]`.
   */
  lemma FastPathAppends<T>(s: seq<T>, val: T)
    requires 1 <= |s| && s[|s| - 1] != val
    ensures Inserted(s, |s| - 1, val) == s + [val]
    ensures Inserted(s, |s| - 1, val) != s[..|s| - 1] + [val] + s[|s| - 1..]
  {
  }

  /** `insertAt(i, v)` followed by `removeAt(i)` gives back the original contents. */
  lemma RemoveUndoesInsert<T>(s: seq<T>, index: nat, val: T)
    requires 1 <= |s| && index <= |s| && index != |s| - 1
    ensures Removed(Inserted(s, index, val), index) == s
  {
  }

  /** The first index of `val` in `s`, or -1 when `val` does not occur (the result of `indexOf`). */
  function FirstIndex<T(==)>(s: seq<T>, val: T): (r: int)
    ensures -1 <= r < |s|
    ensures r == -1 <==> val !in s
    ensures 0 <= r ==> s[r] == val && forall j :: 0 <= j < r ==> s[j] != val
  {
    if |s| == 0 then -1
    else if s[0] == val then 0
    else
      var rest := FirstIndex(s[1..], val);
      if rest == -1 then -1 else rest + 1
  }

  /** The first index is the least position holding `val`. */
  lemma FirstIndexIsLeast<T>(s: seq<T>, val: T, i: nat)
    requires i < |s| && s[i] == val
    requires forall j :: 0 <= j < i ==> s[j] != val
    ensures FirstIndex(s, val) == i
  {
  }

  class Vector<T(0,==)>
  {
    /** `m_Data`: the storage block; its length is `m_Capacity`. */
    var data: array<T>
    /** `m_Size`: the number of live elements. */
    var size: nat

    ghost predicate Valid()
      reads this
    {
      size <= data.Length
    }

    /** The live elements, in index order. */
    ghost function Contents(): (s: seq<T>)
      reads this, data
      requires Valid()
    {
      data[..size]
    }

    /** `Vector()`: an empty vector with room for two elements. */
    constructor ()
      ensures Valid() && fresh(data)
      ensures Contents() == [] && data.Length == 2
    {
      data := new T[0];
      size := 0;
      new;
      ReAlloc(2);
    }

    /** `Vector(initList)`: room for two, then every list element appended in order. */
    constructor FromList(initList: seq<T>)
      ensures Valid() && fresh(data)
      ensures Contents() == initList
      ensures data.Length >= 2
    {
      data := new T[0];
      size := 0;
      new;
      ReAlloc(2);
      var i := 0;
      while i < |initList|
        invariant 0 <= i <= |initList|
        invariant Valid() && fresh(data) && data.Length >= 2
        invariant Contents() == initList[..i]
      {
        var placed := EmplaceBack(initList[i]);
        i := i + 1;
      }
    }

    /** The copy constructor: a capacity of exactly `other`'s size and `other`'s elements, in a block of its own. */
    constructor Copy(other: Vector<T>)
      requires other.Valid()
      ensures Valid() && fresh(data)
      ensures Contents() == other.Contents()
      ensures data.Length == other.size
    {
      var block := CopyAlloc(other.size, other);
      size := other.size;
      data := block;
    }

    /**
     * The move constructor: the new vector gets a block of `other`'s size
     * holding `other`'s elements; `other` is left empty with capacity 0.
     */
    constructor Move(other: Vector<T>)
      requires other.Valid()
      modifies other
      ensures Valid() && fresh(data)
      ensures Contents() == old(other.Contents())
      ensures data.Length == old(other.size)
      ensures other.Valid() && other.size == 0 && other.data.Length == 0
    {
      var block := MoveAlloc(other.size, other);
      size := other.size;
      data := block;
      new;
      other.size := 0;
      other.data := new T[0];
    }

    /** `capacity()`: the number of slots in the storage block. */
    function Capacity(): (c: nat)
      reads this
      requires Valid()
      ensures size <= c
    {
      data.Length
    }

    /** `size()`. */
    function Size(): (n: nat)
      reads this
      requires Valid()
      ensures n == |Contents()|
    {
      size
    }

    /** `isEmpty()`. */
    function IsEmpty(): (b: bool)
      reads this
      requires Valid()
      ensures b <==> Contents() == []
    {
      size == 0
    }

    /** `operator[]` for reading: unchecked in the source, so the index must be a live one. */
    function At(index: nat): (x: T)
      reads this, data
      requires Valid() && index < size
      ensures x == Contents()[index]
    {
      data[index]
    }

    /** Assigning through the reference `operator[]` returns. */
    method SetAt(index: nat, val: T)
      requires Valid() && index < size
      modifies data
      ensures Valid()
      ensures Contents() == old(Contents())[index := val]
    {
      data[index] := val;
    }

    /**
     * `ReAlloc(newCapacity)`: a fresh block of exactly `newCapacity` slots
     * receiving the first `min(size, newCapacity)` elements in order; the
     * size is cut down to `newCapacity` when that is smaller.
     */
    method ReAlloc(newCapacity: nat)
      requires Valid()
      modifies this
      ensures Valid() && fresh(data) && data.Length == newCapacity
      ensures size == if newCapacity < old(size) then newCapacity else old(size)
      ensures Contents() == old(Contents())[..size]
    {
      var newBlock := new T[newCapacity];
      if newCapacity < size {
        size := newCapacity;
      }
      var i := 0;
      while i < size
        invariant 0 <= i <= size
        invariant forall k :: 0 <= k < i ==> newBlock[k] == data[k]
        modifies newBlock
      {
        newBlock[i] := data[i];
        i := i + 1;
      }
      data := newBlock;
    }

    /** `CopyAlloc`: a fresh block of `newCapacity` slots holding copies of `other`'s elements. */
    static method CopyAlloc(newCapacity: nat, other: Vector<T>) returns (block: array<T>)
      requires other.Valid() && other.size <= newCapacity
      ensures fresh(block) && block.Length == newCapacity
      ensures block[..other.size] == other.Contents()
    {
      block := new T[newCapacity];
      var i := 0;
      while i < other.size
        invariant 0 <= i <= other.size
        invariant forall k :: 0 <= k < i ==> block[k] == other.data[k]
      {
        block[i] := other.data[i];
        i := i + 1;
      }
    }

    /**
     * `MoveAlloc`: as `CopyAlloc`, but each element is move-constructed; in
     * this value model a moved element keeps its value, so it is a copy.
     */
    static method MoveAlloc(newCapacity: nat, other: Vector<T>) returns (block: array<T>)
      requires other.Valid() && other.size <= newCapacity
      ensures fresh(block) && block.Length == newCapacity
      ensures block[..other.size] == other.Contents()
    {
      block := CopyAlloc(newCapacity, other);
    }

    /** `reserve(n)`: reallocates to exactly `n` slots only when `n` exceeds the capacity. */
    method Reserve(capacity: nat)
      requires Valid()
      modifies this
      ensures Valid()
      ensures Contents() == old(Contents())
      ensures capacity > old(data.Length) ==> fresh(data) && data.Length == capacity
      ensures capacity <= old(data.Length) ==> data == old(data)
    {
      if capacity > data.Length {
        ReAlloc(capacity);
      }
    }

    /** `shrinkToSize()`: always reallocates, to a block of exactly `size` slots. */
    method ShrinkToSize()
      requires Valid()
      modifies this
      ensures Valid() && fresh(data)
      ensures Contents() == old(Contents())
      ensures data.Length == size
    {
      if size <= data.Length {
        ReAlloc(size);
      }
    }

    /**
     * `pushBack(val)`, for both the copying and the moving overload. A full
     * vector first grows to `Grow(capacity)`; that makes room only when the
     * capacity is at least 2, and the source writes past the block otherwise,
     * hence the second precondition.
     */
    method PushBack(val: T)
      requires Valid()
      requires size < data.Length || data.Length >= 2
      modifies this, data
      ensures Valid()
      ensures Contents() == old(Contents()) + [val]
      ensures data.Length == if old(size) < old(data.Length) then old(data.Length) else Grow(old(data.Length))
      ensures old(size) < old(data.Length) ==> data == old(data)
      ensures old(size) >= old(data.Length) ==> fresh(data)
    {
      if size >= data.Length {
        ReAlloc(Grow(data.Length));
      }
      data[size] := val;
      size := size + 1;
    }

    /**
     * `emplaceBack(args...)`: constructs the element in the next free slot,
     * growing first as `pushBack` does, and yields the new element.
     */
    method EmplaceBack(val: T) returns (placed: T)
      requires Valid()
      requires size < data.Length || data.Length >= 2
      modifies this, data
      ensures Valid()
      ensures Contents() == old(Contents()) + [val]
      ensures placed == val
      ensures data.Length == if old(size) < old(data.Length) then old(data.Length) else Grow(old(data.Length))
      ensures old(size) < old(data.Length) ==> data == old(data)
      ensures old(size) >= old(data.Length) ==> fresh(data)
    {
      if size >= data.Length {
        ReAlloc(Grow(data.Length));
      }
      data[size] := val;
      placed := data[size];
      size := size + 1;
    }

    /**
     * The shift shared by `insertAt` and `emplaceAt` once room is made: the
     * last element moves into the free slot, each element of `[index, size)`
     * moves one slot right, and `val` lands at `index`.
     */
    method ShiftIn(index: nat, val: T)
      requires Valid() && 1 <= size < data.Length && index <= size
      modifies this, data
      ensures Valid() && data == old(data)
      ensures Contents() == old(Contents())[..index] + [val] + old(Contents())[index..]
    {
      ghost var s := Contents();
      data[size] := data[size - 1];
      var i := size - 1;
      while i > index
        invariant 0 <= i <= size - 1
        invariant index < size ==> index <= i
        invariant index == size ==> i == size - 1
        invariant forall k :: 0 <= k <= i ==> data[k] == s[k]
        invariant forall k :: i < k <= size ==> data[k] == s[k - 1]
        modifies data
      {
        data[i] := data[i - 1];
        i := i - 1;
      }
      data[index] := val;
      size := size + 1;
      ghost var expected := s[..index] + [val] + s[index..];
      assert |Contents()| == |expected|;
      forall k | 0 <= k < size
        ensures Contents()[k] == expected[k]
      {
        if k < index {
          assert expected[k] == s[k];
        } else if k > index {
          assert expected[k] == s[k - 1];
        }
      }
    }

    /**
     * `insertAt(index, val)`: at `index == size - 1` it takes the append
     * path; otherwise it grows if full and shifts the tail right. The source
     * reads slot `size - 1` unconditionally, so the vector must be non-empty.
     */
    method InsertAt(index: nat, val: T)
      requires Valid() && 1 <= size && index <= size
      requires size < data.Length || data.Length >= 2
      modifies this, data
      ensures Valid()
      ensures Contents() == Inserted(old(Contents()), index, val)
      ensures data.Length == if old(size) < old(data.Length) then old(data.Length) else Grow(old(data.Length))
      ensures old(size) < old(data.Length) ==> data == old(data)
      ensures old(size) >= old(data.Length) ==> fresh(data)
    {
      if index == size - 1 {
        PushBack(val);
        return;
      }
      if size >= data.Length {
        ReAlloc(Grow(data.Length));
      }
      ShiftIn(index, val);
    }

    /**
     * `emplaceAt(index, args...)`: the same two paths as `insertAt`, with
     * `emplaceBack` as the append path; the returned reference is not modelled.
     */
    method EmplaceAt(index: nat, val: T)
      requires Valid() && 1 <= size && index <= size
      requires size < data.Length || data.Length >= 2
      modifies this, data
      ensures Valid()
      ensures Contents() == Inserted(old(Contents()), index, val)
      ensures data.Length == if old(size) < old(data.Length) then old(data.Length) else Grow(old(data.Length))
      ensures old(size) < old(data.Length) ==> data == old(data)
      ensures old(size) >= old(data.Length) ==> fresh(data)
    {
      if index == size - 1 {
        var temp := EmplaceBack(val);
        return;
      }
      if size >= data.Length {
        ReAlloc(Grow(data.Length));
      }
      ShiftIn(index, val);
    }

    /** `popBack()`: drops the last element of a non-empty vector; capacity stays. */
    method PopBack()
      requires Valid()
      modifies this
      ensures Valid() && data == old(data)
      ensures Contents() == if old(size) == 0 then old(Contents()) else old(Contents())[..old(size) - 1]
    {
      if size > 0 {
        size := size - 1;
      }
    }

    /**
     * `removeAt(index)`: a no-op on an empty vector; `popBack` at
     * `index == size`; otherwise the size drops by one and, for a live index,
     * the elements after it move one slot left.
     */
    method RemoveAt(index: nat)
      requires Valid()
      modifies this, data
      ensures Valid() && data == old(data)
      ensures Contents() == Removed(old(Contents()), index)
    {
      if size > 0 {
        if index == size {
          PopBack();
          return;
        }
        ghost var s := Contents();
        size := size - 1;
        if index < size {
          var i := index;
          while i < size
            invariant index <= i <= size
            invariant forall k :: 0 <= k < index ==> data[k] == s[k]
            invariant forall k :: index <= k < i ==> data[k] == s[k + 1]
            invariant forall k :: i < k <= size ==> data[k] == s[k]
            modifies data
          {
            data[i] := data[i + 1];
            i := i + 1;
          }
          assert Contents() == s[..index] + s[index + 1..];
        }
      }
    }

    /**
     * `clear()`: runs the destructor of every live element in index order
     * (`destroyed` lists them) and sets the size to 0; capacity stays.
     */
    method Clear() returns (ghost destroyed: seq<T>)
      requires Valid()
      modifies this
      ensures Valid() && data == old(data)
      ensures Contents() == []
      ensures destroyed == old(Contents())
    {
      destroyed := [];
      var i := 0;
      while i < size
        invariant 0 <= i <= size
        invariant destroyed == data[..i]
        modifies {}
      {
        destroyed := destroyed + [data[i]];
        i := i + 1;
      }
      size := 0;
    }

    /** `contains(val)`: whether some live element equals `val`. */
    method Contains(val: T) returns (found: bool)
      requires Valid()
      ensures found <==> val in Contents()
    {
      var i := 0;
      while i < size
        invariant 0 <= i <= size
        invariant forall k :: 0 <= k < i ==> data[k] != val
      {
        if data[i] == val {
          assert Contents()[i] == val;
          return true;
        }
        i := i + 1;
      }
      return false;
    }

    /** `indexOf(val)`: the least live index holding `val`, or -1. */
    method IndexOf(val: T) returns (r: int)
      requires Valid()
      ensures r == FirstIndex(Contents(), val)
    {
      var i := 0;
      while i < size
        invariant 0 <= i <= size
        invariant forall k :: 0 <= k < i ==> data[k] != val
      {
        if data[i] == val {
          FirstIndexIsLeast(Contents(), val, i);
          return i;
        }
        i := i + 1;
      }
      return -1;
    }

    /** `begin()`: an iterator at slot 0; indexing it from there reads the live elements. */
    function Begin(): (r: VectorIterator<T>)
      reads this
      requires Valid()
      ensures r.buffer == data && r.ptr == 0
      ensures forall k :: 0 <= k < size ==> r.Index(k) == Contents()[k]
    {
      VectorIterator(data, 0)
    }

    /** `end()`: the one-past-the-end iterator, at slot `size`. */
    function End(): (r: VectorIterator<T>)
      reads this
      requires Valid()
      ensures r.buffer == data && r.ptr == size
      ensures r == Begin().Plus(size)
    {
      VectorIterator(data, size)
    }

    /** `cbegin()`: the read-only form of `begin()`. */
    function CBegin(): (r: VectorIterator<T>)
      reads this
      requires Valid()
      ensures r == Begin()
    {
      VectorIterator(data, 0)
    }

    /** `cend()`: the read-only form of `end()`. */
    function CEnd(): (r: VectorIterator<T>)
      reads this
      requires Valid()
      ensures r == End()
    {
      VectorIterator(data, size)
    }
  }
}
