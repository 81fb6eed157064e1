/**
 * Client code of the vector: the iterator loops of the demo program, its
 * insertion scenario, and short scenarios showing what copying, moving and
 * shrinking leave behind.
 */
module Demo {
  import opened VectorIterators
  import opened DynamicArray

  /** The demo's element type; the five-int heap block each point owns is not modelled. */
  datatype Point = Point(x: int, y: int)

  /**
   * A loop `for (it = first; it != last; ++it)` collecting `*it`: it visits
   * exactly the slots from `first` up to `last`, in order.
   */
  method Walk<T>(first: VectorIterator<T>, last: VectorIterator<T>) returns (visited: seq<T>)
    requires first.buffer == last.buffer
    requires 0 <= first.ptr <= last.ptr <= last.buffer.Length
    ensures visited == first.buffer[first.ptr..last.ptr]
  {
    visited := [];
    var it := first;
    while it.NotEquals(last)
      invariant it.buffer == first.buffer && first.ptr <= it.ptr <= last.ptr
      invariant visited == first.buffer[first.ptr..it.ptr]
      decreases last.ptr - it.ptr
    {
      EqualsIffSamePosition(it, last);
      visited := visited + [it.Deref()];
      it := it.Increment();
    }
    EqualsIffSamePosition(it, last);
  }

  /** `printVector`: a range-for over `begin()`..`end()` sees the live elements in order. */
  method PrintVector<T(0,==)>(vec: Vector<T>) returns (printed: seq<T>)
    requires vec.Valid()
    ensures printed == vec.Contents()
  {
    printed := Walk(vec.Begin(), vec.End());
  }

  /**
   * The demo program: a vector built from two points, `emplaceAt(1, 10, 10)`,
   * then `insertAt(1, {15, 15})`, then a `cbegin()`..`cend()` loop. Because
   * index 1 is the last index of the two-element vector, `emplaceAt` appends.
   */
  method MainScenario() returns (afterEmplace: seq<Point>, afterInsert: seq<Point>, printed: seq<Point>)
    ensures afterEmplace == [Point(5, 5), Point(6, 6), Point(10, 10)]
    ensures afterInsert == [Point(5, 5), Point(15, 15), Point(6, 6), Point(10, 10)]
    ensures printed == afterInsert
  {
    var temp := new Vector<Point>.FromList([Point(5, 5), Point(6, 6)]);
    temp.EmplaceAt(1, Point(10, 10));
    afterEmplace := PrintVector(temp);
    temp.InsertAt(1, Point(15, 15));
    afterInsert := PrintVector(temp);
    printed := Walk(temp.CBegin(), temp.CEnd());
  }

  /**
   * `insertAt(i, v)` followed by `removeAt(i)` on one vector gives back its
   * contents, except at the fast-path index `size - 1`.
   */
  method InsertThenRemove<T(0,==)>(vec: Vector<T>, index: nat, val: T)
    requires vec.Valid() && 1 <= vec.size && index <= vec.size && index != vec.size - 1
    requires vec.size < vec.data.Length || vec.data.Length >= 2
    modifies vec, vec.data
    ensures vec.Valid() && vec.Contents() == old(vec.Contents())
  {
    ghost var s := vec.Contents();
    vec.InsertAt(index, val);
    vec.RemoveAt(index);
    RemoveUndoesInsert(s, index, val);
  }

  /**
   * A copy owns its own block: writing through the copy and popping it
   * leave the original as it was.
   */
  method CopyIsIndependent() returns (original: seq<int>, copy: seq<int>, copyCapacity: nat)
    ensures original == [1, 2, 3]
    ensures copy == [9, 2]
    ensures copyCapacity == 3
  {
    var a := new Vector<int>.FromList([1, 2, 3]);
    var b := new Vector<int>.Copy(a);
    b.SetAt(0, 9);
    b.PopBack();
    original := PrintVector(a);
    copy := PrintVector(b);
    copyCapacity := b.Capacity();
  }

  /**
   * A move hands the elements over and leaves the source empty with
   * capacity 0, where growth stalls: its next append has no slot to write.
   */
  method MoveEmptiesSource() returns (moved: seq<int>, source: seq<int>, sourceCapacity: nat)
    ensures moved == [1, 2]
    ensures source == []
    ensures sourceCapacity == 0 && Grow(sourceCapacity) == sourceCapacity
  {
    var a := new Vector<int>.FromList([1, 2]);
    var b := new Vector<int>.Move(a);
    moved := PrintVector(b);
    source := PrintVector(a);
    sourceCapacity := a.Capacity();
  }

  /**
   * More routes to a stalled capacity, besides a moved-from source:
   * `shrinkToSize` on an empty vector gives capacity 0, and `shrinkToSize`
   * on a one-element vector, copying a one-element vector and moving a
   * one-element vector each give a vector that is full at capacity 1. In
   * each case growth adds no slot.
   */
  method StalledCapacities() returns (shrunk: nat, shrunkSingle: nat, shrunkSingleSize: nat,
                                      copied: nat, copiedSize: nat, moved: nat, movedSize: nat)
    ensures shrunk == 0 && Grow(shrunk) == shrunk
    ensures shrunkSingle == 1 && shrunkSingleSize == shrunkSingle && Grow(shrunkSingle) == shrunkSingle
    ensures copied == 1 && copiedSize == copied && Grow(copied) == copied
    ensures moved == 1 && movedSize == moved && Grow(moved) == moved
  {
    var empty := new Vector<int>();
    empty.ShrinkToSize();
    shrunk := empty.Capacity();
    var one := new Vector<int>.FromList([3]);
    one.ShrinkToSize();
    shrunkSingle := one.Capacity();
    shrunkSingleSize := one.Size();
    var single := new Vector<int>.FromList([7]);
    var copy := new Vector<int>.Copy(single);
    copied := copy.Capacity();
    copiedSize := copy.Size();
    var source := new Vector<int>.FromList([4]);
    var destination := new Vector<int>.Move(source);
    moved := destination.Capacity();
    movedSize := destination.Size();
  }

  /** `contains(v)` and `indexOf(v) != -1` agree on every vector and value. */
  method ContainsAgreesWithIndexOf<T(0,==)>(vec: Vector<T>, val: T) returns (found: bool, index: int)
    requires vec.Valid()
    ensures found <==> index != -1
  {
    found := vec.Contains(val);
    index := vec.IndexOf(val);
  }
}
