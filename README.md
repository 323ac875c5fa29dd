# SimpleVector in Dafny

A model of `SimpleVector<Type>` from simple-vector/simple_vector.h. It is a growable
array that owns one buffer and tracks a logical size and an allocated
capacity separately. It grows by amortised doubling and shifts elements in
place for insertion and erasure. The model also covers the reservation token
`ReserveProxyObj`, its factory `Reserve(n)`, and the six free comparison
operators.

Files:

- `growth.dfy` (module `Growth`) holds the capacity arithmetic that `Resize`, `PushBack`
  and `Insert` share. It also proves that pushes from an empty vector keep the
  capacity a power of two in `[n, 2n)`.
- `comparisons.dfy` (module `Comparisons`) holds `==`, `!=`, `<`, `<=`, `>=` and `>` as
  functions on element sequences. `<` is proved to be exactly lexicographic
  order, transitive and trichotomous, and the derived operators are proved
  consistent with each other.
- `simple_vector.dfy` (module `SimpleVectors`) holds the class `SimpleVector`. Its fields are
  `data: array<int>`, `size` and `capacity`, and its invariant `Valid()` is
  `size <= capacity == data.Length`. Its contents are `Elements() == data[..size]`.
  Every mutator is a method that updates these fields in place and states the
  new contents and capacity in terms of the old ones. Constructors and
  `Reserve`/`Resize` fill and copy buffers with loops, and `Insert`/`Erase`
  shift the tail with in-place loops (`ShiftRight`, `ShiftLeft`).
- `scenarios.dfy` (module `Scenarios`) holds client code. It derives the container's documented
  behaviour from the contracts alone: push order, capacity reuse after
  `Clear`, copy independence, moved-from vectors, Erase undoing Insert,
  PopBack undoing PushBack, and equality that ignores capacity.

The element type is fixed to `int`. `Default` (0) stands for `Type()`, and
`<` on `int` is the element order. The model uses indices for positions:
`Insert` and `Erase` take the index of the position and return an index.

## Model

| member | source | states |
|---|---|---|
| `Growth.GrownCapacity` | simple-vector/simple_vector.h:277-279 | the grown capacity is `max(new_size, 2*capacity)`: at least both, and equal to one of them |
| `Growth.PushBackCapacity` | simple-vector/simple_vector.h:124-142 | after one push there is room for the new element; capacity 0 becomes 1, a full vector doubles, otherwise the capacity is unchanged |
| `Growth.CapacityAfterPushes` | simple-vector/simple_vector.h:124-142 | after n pushes from an empty vector the capacity is at least n |
| `Growth.PushesFromEmpty` | simple-vector/simple_vector.h:124-142 | after n >= 1 pushes from empty the capacity is a power of two with n <= capacity < 2n |
| `Comparisons.Equal` | simple-vector/simple_vector.h:329-333 | `==` holds exactly when the sizes agree and the elements agree pairwise, i.e. the element sequences are equal; capacity plays no part |
| `Comparisons.Less` | simple-vector/simple_vector.h:341-345 | a proper prefix is less than the longer sequence, and `<` never holds between equal sequences |
| `Comparisons.LessIsLexicographic` | simple-vector/simple_vector.h:341-345 | `<` holds iff there is a first position k where the operands agree before k and then lhs ends or has the smaller element (both directions) |
| `Comparisons.LessTransitive` | simple-vector/simple_vector.h:341-345 | `<` is transitive |
| `Comparisons.LessTrichotomous` | simple-vector/simple_vector.h:341-345 | exactly one of `a < b`, `a == b`, `b < a` holds |
| `Comparisons.NotEqual` | simple-vector/simple_vector.h:335-339 | `!=` holds exactly when the element sequences differ |
| `Comparisons.LessOrEqual` | simple-vector/simple_vector.h:347-351 | `<=` (defined as `<` or `==`) holds exactly when rhs is not less than lhs |
| `Comparisons.GreaterOrEqual` | simple-vector/simple_vector.h:353-357 | `>=` (defined as not `<`) is `<=` with the operands swapped |
| `Comparisons.Greater` | simple-vector/simple_vector.h:359-363 | `>` (defined as `>=` and `!=`) is `<` with the operands swapped |
| `Comparisons.DerivedOperatorsConsistent` | simple-vector/simple_vector.h:335-363 | exactly one of `<`, `==`, `>` holds, and `<=` is antisymmetric and total |
| `Comparisons.LessOrEqualTransitive` | simple-vector/simple_vector.h:347-351 | `<=` is transitive |
| `SimpleVectors.ReserveProxyObj.GetCapacity` | simple-vector/simple_vector.h:10-25 | the token holds only the capacity it was built with: two tokens with the same capacity are the same token |
| `SimpleVectors.Reserve` | simple-vector/simple_vector.h:365-368 | the token carries the requested capacity |
| `SimpleVectors.CopyPrefix` | simple-vector/simple_vector.h:76 | the first n slots of the destination equal the source's, the rest are untouched |
| `SimpleVectors.ShiftRight` | simple-vector/simple_vector.h:164-170 | the backward move puts `old[k-1]` at each k in (first, last] and leaves the other slots unchanged |
| `SimpleVectors.ShiftLeft` | simple-vector/simple_vector.h:205 | the forward move puts `old[k+1]` at each k in [first, last-1) and leaves the other slots unchanged |
| `SimpleVectors.SimpleVector.constructor` | simple-vector/simple_vector.h:33 | the default vector is empty with capacity 0 |
| `SimpleVectors.SimpleVector.OfSize` | simple-vector/simple_vector.h:35-43 | n default elements, capacity n |
| `SimpleVectors.SimpleVector.Filled` | simple-vector/simple_vector.h:50-60 | n elements all equal to value, capacity n |
| `SimpleVectors.SimpleVector.FromList` | simple-vector/simple_vector.h:62-71 | exactly the listed elements in order, capacity equal to the list length |
| `SimpleVectors.SimpleVector.FromReserve` | simple-vector/simple_vector.h:45-48 | a token of C gives size 0 and capacity C |
| `SimpleVectors.SimpleVector.Copy` | simple-vector/simple_vector.h:73-77 | a fresh buffer with the source's elements and the source's capacity; the source is not modified |
| `SimpleVectors.SimpleVector.Moved` | simple-vector/simple_vector.h:79-84 | takes over the source's buffer, elements and capacity; the source is left with no elements and capacity 0 |
| `SimpleVectors.SimpleVector.MoveAssign` | simple-vector/simple_vector.h:86-95 | self-move changes nothing; otherwise takes over the source's state and leaves the source empty with capacity 0 |
| `SimpleVectors.SimpleVector.CopyAssign` | simple-vector/simple_vector.h:97-104 | gives the source's elements and capacity in a fresh buffer; self-assignment keeps the buffer |
| `SimpleVectors.SimpleVector.Swap` | simple-vector/simple_vector.h:117-122 | the two vectors exchange buffers, sizes, capacities and hence elements |
| `SimpleVectors.SimpleVector.Reserve` | simple-vector/simple_vector.h:106-115 | a larger request gives exactly that capacity in a fresh buffer with the same elements; otherwise nothing changes |
| `SimpleVectors.SimpleVector.Resize` | simple-vector/simple_vector.h:260-285 | shrinking keeps the prefix and the capacity; growing within capacity appends default elements in the same buffer; growing beyond it appends default elements in a fresh buffer of `GrownCapacity` slots |
| `SimpleVectors.SimpleVector.PushBack` | simple-vector/simple_vector.h:124-142 | contents become old ++ [value]; capacity follows `PushBackCapacity`; the buffer is kept unless the vector was full |
| `SimpleVectors.SimpleVector.PopBack` | simple-vector/simple_vector.h:144-149 | drops the last element; a no-op on an empty vector; capacity and buffer kept |
| `SimpleVectors.SimpleVector.Insert` | simple-vector/simple_vector.h:151-201 | contents become old[..i] ++ [value] ++ old[i..]; returns i; capacity follows `PushBackCapacity` (0 to 1, full doubles, else unchanged) |
| `SimpleVectors.SimpleVector.OpenGapAndPlace` | simple-vector/simple_vector.h:168-173 | with room for one more, shifting the tail and writing the value gives old[..i] ++ [value] ++ old[i..] in the same buffer |
| `SimpleVectors.SimpleVector.Erase` | simple-vector/simple_vector.h:203-208 | contents become old[..i] ++ old[i+1..]; returns i; buffer and capacity kept |
| `SimpleVectors.SimpleVector.Clear` | simple-vector/simple_vector.h:255-258 | no elements; buffer and capacity kept |
| `SimpleVectors.SimpleVector.GetSize` | simple-vector/simple_vector.h:210-213 | the number of elements |
| `SimpleVectors.SimpleVector.GetCapacity` | simple-vector/simple_vector.h:215-218 | the buffer length, never below the number of elements |
| `SimpleVectors.SimpleVector.IsEmpty` | simple-vector/simple_vector.h:220-223 | true exactly when there are no elements |
| `SimpleVectors.SimpleVector.Get` | simple-vector/simple_vector.h:230-233 | element i for an index below the size |
| `SimpleVectors.SimpleVector.Set` | simple-vector/simple_vector.h:225-228 | writing through the reference replaces element i and nothing else |
| `SimpleVectors.SimpleVector.At` | simple-vector/simple_vector.h:235-253 | fails with out_of_range exactly when i >= size, otherwise returns element i |
| `Scenarios.PushAll` | simple-vector/simple_vector.h:124-142 | n pushes onto an empty vector keep push order and give capacity `CapacityAfterPushes(n)` |
| `Scenarios.ClearThenPush` | simple-vector/simple_vector.h:255-258 | a push after Clear reuses the buffer and the capacity |
| `Scenarios.CopyThenMutate` | simple-vector/simple_vector.h:73-77 | pushing onto a copy leaves the original's elements and capacity unchanged |
| `Scenarios.MoveOut` | simple-vector/simple_vector.h:79-84 | move construction leaves the source empty with capacity 0 |
| `Scenarios.InsertThenErase` | simple-vector/simple_vector.h:151-208 | Erase at the index that Insert returned restores the original elements |
| `Scenarios.PushThenPop` | simple-vector/simple_vector.h:124-149 | PopBack after PushBack restores the original elements |
| `Scenarios.CompareBuiltVectors` | simple-vector/simple_vector.h:329-363 | {1,2,3} with capacity 3 equals {1,2,3} with capacity 4, and {1,2} is less than {1,2,3} |

## Left out

- `ArrayPtr` (array_ptr.h) is not modelled; a Dafny `array<int>` stands in for it. The contents of a freshly allocated `ArrayPtr` are treated as unknown. So the copy constructor says nothing about slots past the size, while buffers built through the count constructor (in `Reserve` and `Resize`) hold default values.
- Move assignment calls `Release()` on the source's buffer after the swap. This drops the assigned-to vector's old buffer without freeing it. The model only gives the source a fresh empty buffer. Ownership, leaks and destruction are not modelled.
- `Valid()` does not state that a vector owns its buffer exclusively. Two vectors whose public fields a client points at one array can both be valid, and a write through one changes the other. The model's own constructors and methods never create such sharing: `Copy`, `Reserve` and `Resize` ensure `fresh(data)`, and the moves give the source a new empty array.
- Allocation failure and exception safety are not modelled, because there is no allocator model. As written, `Reserve` and `Resize` set `capacity_` before building the new buffer (lines 110-111, 279-280). A failed allocation would therefore leave `capacity_` ahead of the buffer.
- `GrownCapacity`, `PushBackCapacity` and the class's `size`/`capacity` are unbounded naturals. They do not model `size_t` wrap-around of `capacity_ * 2`.
- `begin`/`end`/`cbegin`/`cend` (lines 287-321) are not modelled. Positions are indices, so pointer identity and the null-or-not iterators of an empty vector are not modelled.
- Undefined-behaviour misuse is excluded by `requires`, not modelled. This covers `operator[]` outside `[0, size)`, `Erase` at `end()` or on an empty vector, and an `Insert` position outside `[begin, end]`.
- The two `Insert` overloads and the `std::move`/`std::copy`/`copy_backward`/`move_backward` calls are each modelled once. On values they cannot be told apart.
- SimpleVectors.SimpleVector.Insert: takes the value as it is at the time of the call. It does not cover a value that aliases one of the vector's own elements. Both C++ overloads take the value by reference (lines 151, 177) and read it only after the tail has moved. So `v.Insert(v.begin(), v[1])` on {10,20,30} with capacity 4 writes the shifted slot's 10 and gives {10,10,20,30}. On the growth path (lines 162-165) the reference names the old, already released buffer.
- The template is instantiated at `int`, with default 0 and the usual order. Other element types are not modelled.
- The non-const `At` returns a writable reference. Writes through it are the same as writes through `operator[]`, which `Set` models.
