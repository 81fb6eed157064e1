# reda::Vector in Dafny

A model of `reda::Vector<Type>`, the generic growable array of
`Headers/DynamicArray.h`, and of its position iterator, with proofs of what
each operation does to the vector's contents and capacity.

- `vector_iterator.dfy`, module `VectorIterators`: `VectorIterator<T>`. The
  raw pointer `m_Ptr` becomes the storage block it points into plus an offset
  in that block. `++`, `--`, `+`, `-`, `[]`, `*`, `==` and `!=` are functions on
  that value. `++it` becomes `it := it.Increment()`. The post forms return the
  old iterator together with the stepped one. `ConstVectorIterator` is the
  same type, because it differs only in the constness of `*`.
- `dynamic_array.dfy`, module `DynamicArray`: class `Vector<T>`. Its fields
  are `data: array<T>` (the block `m_Data`; its length is `m_Capacity`) and
  `size` (`m_Size`). `Valid()` says `size <= data.Length`, and the ghost
  `Contents()` is `data[..size]`. Placement new is a slot write. An explicit
  destructor call changes no value. Moving an element copies its value. The
  module also has the functions that specify the mutators: `Grow` (the growth
  formula), `Inserted`, `Removed` and `FirstIndex`.
- `demo.dfy`, module `Demo`: the client side. It has the iterator loops of
  `src/main.cpp` and its insertion scenario. It also has scenarios for copy
  independence, for the moved-from source, and for the stalled capacities.

Behaviour kept from the code as written:

- **Insert fast path.** `insertAt`/`emplaceAt` at `index == size - 1` append
  at the end instead of inserting before the last element. So the demo
  produces `[(5,5),(6,6),(10,10)]` and then
  `[(5,5),(15,15),(6,6),(10,10)]` (`Demo.MainScenario`).
- **Growth stalls.** Growth is `capacity + capacity / 2`, which adds no slot
  at capacity 0 or 1. Among the ways to reach those capacities are
  `shrinkToSize` on an empty or one-element vector, the copy constructor or
  the move constructor on a vector of size 1 or less (both set the capacity
  to the other vector's size), a moved-from source, and `reserve(1)` on a
  vector of capacity 0. At those capacities the code writes past the block. So
  `PushBack`, `EmplaceBack`, `InsertAt` and `EmplaceAt` require
  `size < capacity || capacity >= 2`. Without that precondition the verifier
  rejects the slot write.
- **No shrink check.** `shrinkToSize` reallocates even when capacity already
  equals size, because its guard `m_Size <= m_Capacity` always holds.
- **removeAt past the end.** `removeAt` with an index past the end of a
  non-empty vector drops the last element.
- **Insert needs a non-empty vector.** `insertAt`/`emplaceAt` on an empty
  vector read slot `size - 1`, so they require `1 <= size` and
  `index <= size`.

## Model

| member | source | states |
|---|---|---|
| `VectorIterators.VectorIterator.Increment` | Headers/DynamicArray.h:48-52 | `++it` moves one slot forward in the same block and is undone by `--` |
| `VectorIterators.VectorIterator.PostIncrement` | Headers/DynamicArray.h:54-59 | `it++` yields the unchanged iterator, and the iterator itself steps forward |
| `VectorIterators.VectorIterator.Decrement` | Headers/DynamicArray.h:61-65 | `--it` moves one slot back in the same block |
| `VectorIterators.VectorIterator.PostDecrement` | Headers/DynamicArray.h:67-72 | `it--` yields the unchanged iterator, and the stepped iterator is undone by `++` |
| `VectorIterators.VectorIterator.Plus` | Headers/DynamicArray.h:74-77 | `it + k` stays in the block and lies exactly `k` slots from `it` |
| `VectorIterators.VectorIterator.Minus` | Headers/DynamicArray.h:79-82 | `it - k` is `it + (-k)`, and adding `k` back gives `it` |
| `VectorIterators.VectorIterator.Deref` | Headers/DynamicArray.h:104-107 | `*it` is an element of the block the iterator points into |
| `VectorIterators.DerefIsIndexZero` | Headers/DynamicArray.h:119-122 | `*it` (also the read-only iterator's `*`) equals `it[0]` |
| `VectorIterators.VectorIterator.Index` | Headers/DynamicArray.h:84-87 | `it[k]` equals `*(it + k)` |
| `VectorIterators.VectorIterator.Equals` | Headers/DynamicArray.h:89-92 | `==` holds iff the two iterators hold the same pointer (block and offset) |
| `VectorIterators.VectorIterator.NotEquals` | Headers/DynamicArray.h:94-97 | `!=` holds iff the pointers differ |
| `VectorIterators.Steps` | Headers/DynamicArray.h:48-52 | the iterator after `k` successive `++`, as `StepsIsPlus` describes; its own contract only keeps it in the same block |
| `VectorIterators.StepsIsPlus` | Headers/DynamicArray.h:48-52 | `k` applications of `++` land where `it + k` points |
| `VectorIterators.PlusComposes` | Headers/DynamicArray.h:74-82 | offsets compose additively, and `it - k + k` is `it` |
| `VectorIterators.EqualsIffSamePosition` | Headers/DynamicArray.h:89-97 | in one block, `==` and `!=` compare the offsets |
| `DynamicArray.Grow` | Headers/DynamicArray.h:228 | the growth formula `c + c/2` never shrinks the capacity and at most doubles it (`GrowMakesRoomIff` states when it adds a slot) |
| `DynamicArray.GrowMakesRoomIff` | Headers/DynamicArray.h:226-228 | growth adds a slot iff the capacity is at least 2 |
| `DynamicArray.Inserted` | Headers/DynamicArray.h:258-303 | an insert adds exactly one element; `val` lands at `index`, or at the end on the fast path |
| `DynamicArray.InsertedShiftsTail` | Headers/DynamicArray.h:295-300 | away from the fast path, `s[..i]` stays and `s[i..]` moves one slot right |
| `DynamicArray.FastPathAppends` | Headers/DynamicArray.h:281-284 | at `index == size - 1` the result is `s + [val]`, which is not an insertion before the last element |
| `DynamicArray.Removed` | Headers/DynamicArray.h:315-331 | `removeAt` leaves an empty vector as it is; otherwise one element fewer, where slot `j` holds `s[j]` before the index and `s[j+1]` from it on (`RemovedKeepsOrder`, `RemoveUndoesInsert`) |
| `DynamicArray.RemovedKeepsOrder` | Headers/DynamicArray.h:323-329 | removing a live index keeps the elements before it and shifts the ones after it left by one |
| `DynamicArray.RemoveUndoesInsert` | Headers/DynamicArray.h:279-331 | `insertAt(i, v)` then `removeAt(i)` restores the contents when `i != size - 1` |
| `DynamicArray.FirstIndex` | Headers/DynamicArray.h:360-368 | the result is -1 iff `val` is absent; otherwise it holds `val` and no earlier slot does |
| `DynamicArray.FirstIndexIsLeast` | Headers/DynamicArray.h:362-364 | the first slot holding `val` is the found index |
| `DynamicArray.Vector.constructor` | Headers/DynamicArray.h:165-169 | a new vector is empty with capacity 2 |
| `DynamicArray.Vector.FromList` | Headers/DynamicArray.h:171-177 | the contents are the list, in order, with capacity at least 2 |
| `DynamicArray.Vector.Copy` | Headers/DynamicArray.h:179-184 | a fresh block with capacity equal to `other`'s size, holding `other`'s elements; `other` is not modified |
| `DynamicArray.Vector.Move` | Headers/DynamicArray.h:186-196 | the new vector holds `other`'s old elements with that capacity; `other` ends with size 0 and capacity 0 |
| `DynamicArray.Vector.Capacity` | Headers/DynamicArray.h:370-372 | the capacity is at least the size |
| `DynamicArray.Vector.Size` | Headers/DynamicArray.h:343 | the size is the number of live elements |
| `DynamicArray.Vector.IsEmpty` | Headers/DynamicArray.h:346 | true iff there are no live elements |
| `DynamicArray.Vector.At` | Headers/DynamicArray.h:404-412 | `v[i]` is the `i`-th live element |
| `DynamicArray.Vector.SetAt` | Headers/DynamicArray.h:404-407 | assigning through `v[i]` replaces exactly the `i`-th element |
| `DynamicArray.Vector.ReAlloc` | Headers/DynamicArray.h:445-469 | a fresh block of exactly the new capacity keeps the first `min(size, c)` elements in order and cuts the size to `c` |
| `DynamicArray.Vector.CopyAlloc` | Headers/DynamicArray.h:472-482 | a fresh block of the given capacity starts with `other`'s elements |
| `DynamicArray.Vector.MoveAlloc` | Headers/DynamicArray.h:485-495 | as `CopyAlloc`, since a moved element keeps its value |
| `DynamicArray.Vector.Reserve` | Headers/DynamicArray.h:209-213 | reallocates to exactly `n` only when `n` exceeds the capacity, otherwise keeps the block; the contents never change |
| `DynamicArray.Vector.ShrinkToSize` | Headers/DynamicArray.h:217-223 | always reallocates, so that capacity equals size; the contents do not change |
| `DynamicArray.Vector.PushBack` | Headers/DynamicArray.h:226-242 | the contents `s` become `s + [val]`; a full vector first grows to `Grow(capacity)` in a fresh block, otherwise the block is kept |
| `DynamicArray.Vector.EmplaceBack` | Headers/DynamicArray.h:246-254 | as `PushBack`, and it yields the placed element |
| `DynamicArray.Vector.ShiftIn` | Headers/DynamicArray.h:295-302 | the shift loop turns `s` into `s[..i] + [val] + s[i..]` within the same block |
| `DynamicArray.Vector.InsertAt` | Headers/DynamicArray.h:279-303 | the contents become `Inserted(s, index, val)`, with the same growth as `PushBack` |
| `DynamicArray.Vector.EmplaceAt` | Headers/DynamicArray.h:258-276 | the same contents and growth as `InsertAt` |
| `DynamicArray.Vector.PopBack` | Headers/DynamicArray.h:306-312 | drops the last element, or does nothing when empty; the block is kept |
| `DynamicArray.Vector.RemoveAt` | Headers/DynamicArray.h:315-331 | the contents become `Removed(s, index)` in the same block |
| `DynamicArray.Vector.Clear` | Headers/DynamicArray.h:334-340 | destroys every live element in index order; the vector ends empty, with the same block |
| `DynamicArray.Vector.Contains` | Headers/DynamicArray.h:349-357 | true iff `val` is a live element |
| `DynamicArray.Vector.IndexOf` | Headers/DynamicArray.h:360-368 | returns `FirstIndex(contents, val)`: the least index holding `val`, or -1 |
| `DynamicArray.Vector.Begin` | Headers/DynamicArray.h:419-422 | an iterator at slot 0 of the block, whose `[k]` is the `k`-th live element |
| `DynamicArray.Vector.End` | Headers/DynamicArray.h:431-434 | an iterator at slot `size`, equal to `begin() + size` |
| `DynamicArray.Vector.CBegin` | Headers/DynamicArray.h:425-428 | the same iterator as `begin()` |
| `DynamicArray.Vector.CEnd` | Headers/DynamicArray.h:437-440 | the same iterator as `end()` |
| `Demo.Walk` | src/main.cpp:108-109 | a `!=`/`++` loop from `first` to `last` visits exactly the slots between them, in order |
| `Demo.PrintVector` | src/main.cpp:91-96 | iterating from `begin()` to `end()` visits exactly the live elements in order |
| `Demo.MainScenario` | src/main.cpp:102-110 | the demo yields `[(5,5),(6,6),(10,10)]`, then `[(5,5),(15,15),(6,6),(10,10)]`, and the `cbegin`/`cend` loop prints the latter |
| `Demo.InsertThenRemove` | Headers/DynamicArray.h:279-331 | on a vector, `insertAt(i, v)` then `removeAt(i)` restores the contents when `i != size - 1` |
| `Demo.CopyIsIndependent` | Headers/DynamicArray.h:179-184 | writing through a copy and popping it leave the original's elements unchanged |
| `Demo.MoveEmptiesSource` | Headers/DynamicArray.h:186-196 | after a move the source is empty with capacity 0, where growth adds no slot |
| `Demo.StalledCapacities` | Headers/DynamicArray.h:179-223 | `shrinkToSize` on an empty vector gives capacity 0; `shrinkToSize` on a one-element vector, and a copy or a move of one, are full at capacity 1 |
| `Demo.ContainsAgreesWithIndexOf` | Headers/DynamicArray.h:349-368 | on one vector, `contains(v)` is true iff `indexOf(v) != -1` |

## Left out

- The destructor `~Vector` (Headers/DynamicArray.h:198-205) is not modelled. Releasing the block and destroying elements exactly once are object-lifetime concerns. A value-level array model has neither.
- Raw allocation is not modelled. This covers `::operator new`/`::operator delete` with byte sizes, placement new over slots, and explicit `~Type()` calls. A slot write stands for placement new. A destructor call changes nothing, and `Clear` only records which elements it destroyed.
- The copy and move assignment operators (Headers/DynamicArray.h:377-402) are not modelled. Capacity here is the length of the block, so the model cannot represent copy assignment's `m_Capacity = other.m_Capacity` over a block of `other.m_Size` slots. The same holds for move assignment's no-op `m_Capacity = m_Capacity`.
- Returned references are not modelled. This covers `emplaceBack`'s returned reference (modelled as the placed value), `emplaceAt`'s reference to a local or to a shifted slot, and `operator[]`'s reference (modelled as `At` for reads and `SetAt` for writes). No dangling-reference semantics are modelled.
- Iterator invalidation is not modelled. An iterator keeps the block it was made from. After a reallocation it still reads the old block's values, where the source would have undefined behaviour.
- Moved-from element states are not modelled. An element's move constructor and move assignment are modelled as copies, so a moved-from slot keeps its value.
- `operator*` and `operator->` (Headers/DynamicArray.h:99-107, 119-122) are both `VectorIterator.Deref`, the element at the pointer. Member access through `->` is not modelled separately.
- The const-only typing of `ConstVectorIterator` is not modelled.
- Integer widths are not modelled: sizes and indices are unbounded `nat`/`int`. The model does not capture three source truncations. `size()` returns `m_Size` as a `uint32_t`, which wraps at 2^32 (Headers/DynamicArray.h:343). `indexOf` returns a `size_t` index as an `int`, which is wrong above 2^31-1 (360-364). `insertAt`/`emplaceAt` take their index as a `uint32_t` (258, 279).
- Logging (`CORE_LOG_*`, Headers/Log.h) is not modelled. It never affects control flow.
- The `_DEBUG` gate on `capacity()` is not modelled; `Capacity` is always available.
- The demo `Point` class in src/main.cpp is modelled only as a pair of ints. Its heap block, copy/move members and console I/O are not part of this model.
- PushBack: requires `size < capacity || capacity >= 2`, because at a full capacity of 0 or 1 the source grows by nothing and then writes past the block.
- EmplaceBack: requires `size < capacity || capacity >= 2`, for the same reason as PushBack.
- InsertAt: requires `size < capacity || capacity >= 2` for the same reason. It also requires `1 <= size` and `index <= size`, because otherwise the source reads slot `size - 1` or writes beyond `size`.
- EmplaceAt: has the same preconditions as InsertAt, for the same reasons.
- InsertAt: at `index == size` (not the fast path), the source move-constructs slot `size` from slot `size - 1` (295). The loop then runs zero times and `val` goes into slot `size` (300). So slot `size - 1` keeps its moved-from value. For an element type whose move empties the source, the source yields `s[..n-1] + [moved-from s[n-1]] + [val]`. The model, where a move is a copy, ensures `s + [val]`.
- EmplaceAt: has the same case at `index == size` (268-273), and the model ensures `s + [val]` there too.
- PushBack: arguments are values in the model. In the source, `val` is a reference. An argument that refers into the vector itself (`v.pushBack(v[0])` on a full vector) points into the old block, which `ReAlloc` frees (464). Line 230 then copies from freed memory. The model does not capture this aliasing. EmplaceBack, InsertAt and EmplaceAt share it.
