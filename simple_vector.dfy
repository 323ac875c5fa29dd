/** SimpleVector: a growable array of elements that owns one buffer, keeps a
    logical size and an allocated capacity, and grows by amortised doubling.
    The element type is fixed to int; its default value stands for Type().
    Iterators are modelled as indices into the buffer. */
module SimpleVectors {
  import opened Growth

  /** The value Type() gives. */
  const Default: int := 0

  /** n default-valued elements. */
  function Defaults(n: nat): (s: seq<int>)
    ensures |s| == n
    ensures forall k :: 0 <= k < n ==> s[k] == Default
  {
    seq(n, _ => Default)
  }

  /** The reservation token: a requested capacity, consumed by the
      SimpleVector constructor that pre-sizes without constructing elements. */
  datatype ReserveProxyObj = ReserveProxyObj(cap: nat)
  {
    /** The requested capacity; the token is fully determined by it. */
    function GetCapacity(): (c: nat)
      ensures ReserveProxyObj(c) == this
    {
      cap
    }
  }

  /** The free factory Reserve(n). */
  function Reserve(ncap: nat): (obj: ReserveProxyObj)
    ensures obj.GetCapacity() == ncap
  {
    ReserveProxyObj(ncap)
  }

  /** std::out_of_range, thrown by At. */
  datatype Error = OutOfRange

  datatype Result<T> = Ok(value: T) | Err(error: Error)

  /** Copies src[0..n) into dst[0..n) front to back (std::copy and std::move
      over [begin(), end()) into a fresh buffer). */
  method CopyPrefix(src: array<int>, dst: array<int>, n: nat)
    requires n <= src.Length && n <= dst.Length && src != dst
    modifies dst
    ensures forall k :: 0 <= k < n ==> dst[k] == src[k]
    ensures forall k :: n <= k < dst.Length ==> dst[k] == old(dst[k])
  {
    for i := 0 to n
      invariant forall k :: 0 <= k < i ==> dst[k] == src[k]
      invariant forall k :: i <= k < dst.Length ==> dst[k] == old(dst[k])
    {
      dst[i] := src[i];
    }
  }

  /** Moves a[first..last) one slot to the right, last element first, so that
      nothing is overwritten before it is read (std::move_backward and
      std::copy_backward with destination end last + 1). Slot `first` keeps
      its old value, which the caller then overwrites. */
  method ShiftRight(a: array<int>, first: nat, last: nat)
    requires first <= last < a.Length
    modifies a
    ensures forall k :: 0 <= k <= first ==> a[k] == old(a[k])
    ensures forall k :: first < k <= last ==> a[k] == old(a[k - 1])
    ensures forall k :: last < k < a.Length ==> a[k] == old(a[k])
  {
    var i := last;
    while i > first
      invariant first <= i <= last
      invariant forall k :: 0 <= k <= i ==> a[k] == old(a[k])
      invariant forall k :: i < k <= last ==> a[k] == old(a[k - 1])
      invariant forall k :: last < k < a.Length ==> a[k] == old(a[k])
    {
      a[i] := a[i - 1];
      i := i - 1;
    }
  }

  /** Moves a[first + 1..last) one slot to the left, front to back
      (std::move(pos + 1, end(), pos)). Slot last - 1 keeps its old value. */
  method ShiftLeft(a: array<int>, first: nat, last: nat)
    requires first < last <= a.Length
    modifies a
    ensures forall k :: 0 <= k < first ==> a[k] == old(a[k])
    ensures forall k :: first <= k < last - 1 ==> a[k] == old(a[k + 1])
    ensures forall k :: last - 1 <= k < a.Length ==> a[k] == old(a[k])
  {
    for i := first to last - 1
      invariant forall k :: 0 <= k < first ==> a[k] == old(a[k])
      invariant forall k :: first <= k < i ==> a[k] == old(a[k + 1])
      invariant forall k :: i <= k < a.Length ==> a[k] == old(a[k])
    {
      a[i] := a[i + 1];
    }
  }

  class SimpleVector {
    var data: array<int>
    var size: nat
    var capacity: nat

    /** The class invariant: the logical elements fit in the buffer, and the
        capacity is the buffer's length. */
    ghost predicate Valid()
      reads this
    {
      size <= capacity && capacity == data.Length
    }

    /** The logical contents, data[0..size). */
    ghost function Elements(): seq<int>
      reads this, data
      requires Valid()
    {
      data[..size]
    }

    /** The default constructor: empty, capacity 0. */
    constructor ()
      ensures Valid() && fresh(data)
      ensures Elements() == [] && capacity == 0
    {
      data := new int[0];
      size, capacity := 0, 0;
    }

    /** SimpleVector(size): size default elements, capacity == size. */
    constructor OfSize(n: nat)
      ensures Valid() && fresh(data)
      ensures Elements() == Defaults(n) && capacity == n
    {
      var buffer := new int[n];
      for i := 0 to n
        invariant forall k :: 0 <= k < i ==> buffer[k] == Default
      {
        buffer[i] := Default;
      }
      data, size, capacity := buffer, n, n;
    }

    /** SimpleVector(size, value): size copies of value, capacity == size. */
    constructor Filled(n: nat, value: int)
      ensures Valid() && fresh(data)
      ensures |Elements()| == n && capacity == n
      ensures forall k :: 0 <= k < n ==> Elements()[k] == value
    {
      var buffer := new int[n];
      for i := 0 to n
        invariant forall k :: 0 <= k < i ==> buffer[k] == value
      {
        buffer[i] := value;
      }
      data, size, capacity := buffer, n, n;
    }

    /** SimpleVector(initializer_list): exactly the listed elements, in order,
        with capacity equal to the list's length. */
    constructor FromList(init: seq<int>)
      ensures Valid() && fresh(data)
      ensures Elements() == init && capacity == |init|
    {
      var buffer := new int[|init|];
      var n := 0;
      while n < |init|
        invariant n <= |init|
        invariant buffer[..n] == init[..n]
      {
        buffer[n] := init[n];
        n := n + 1;
      }
      data, size, capacity := buffer, n, n;
    }

    /** SimpleVector(ReserveProxyObj): no elements, capacity as requested. */
    constructor FromReserve(obj: ReserveProxyObj)
      ensures Valid() && fresh(data)
      ensures Elements() == [] && capacity == obj.GetCapacity()
    {
      data := new int[0];
      size, capacity := 0, 0;
      new;
      Reserve(obj.GetCapacity());
    }

    /** The copy constructor: a new buffer of the source's capacity holding the
        source's elements; the source is not modified. */
    constructor Copy(other: SimpleVector)
      requires other.Valid()
      ensures Valid() && fresh(data)
      ensures Elements() == other.Elements() && capacity == other.capacity
    {
      var buffer := new int[other.capacity];
      CopyPrefix(other.data, buffer, other.size);
      data, size, capacity := buffer, other.size, other.capacity;
    }

    /** The move constructor: takes over the source's buffer, size and
        capacity; the source is left with this object's empty buffer. */
    constructor Moved(other: SimpleVector)
      requires other.Valid()
      modifies other
      ensures Valid() && other.Valid()
      ensures data == old(other.data) && size == old(other.size) && capacity == old(other.capacity)
      ensures Elements() == old(other.Elements())
      ensures other.Elements() == [] && other.capacity == 0
    {
      data, size, capacity := other.data, other.size, other.capacity;
      new;
      other.data := new int[0];
      other.size, other.capacity := 0, 0;
    }

    /** Move assignment. Self-assignment changes nothing; otherwise this object
        takes over the source's buffer, size and capacity, and the source is
        left empty with capacity 0. */
    method MoveAssign(other: SimpleVector)
      requires Valid() && other.Valid()
      modifies this, other
      ensures Valid() && other.Valid()
      ensures other == this ==> data == old(data) && size == old(size) && capacity == old(capacity)
      ensures other != this ==> data == old(other.data) && size == old(other.size) && capacity == old(other.capacity)
      ensures other != this ==> Elements() == old(other.Elements())
      ensures other != this ==> other.Elements() == [] && other.capacity == 0
    {
      if other == this {
        return;
      }
      data := other.data;
      other.data := new int[0];
      size, other.size := other.size, 0;
      capacity, other.capacity := other.capacity, 0;
    }

    /** Copy assignment by copy-and-swap. Self-assignment changes nothing;
        otherwise this object gets a fresh copy of the source's elements and
        capacity, and the source is not modified. */
    method CopyAssign(other: SimpleVector)
      requires Valid() && other.Valid()
      modifies this
      ensures Valid()
      ensures Elements() == old(other.Elements()) && capacity == old(other.capacity)
      ensures other == this ==> data == old(data)
      ensures other != this ==> fresh(data)
    {
      if other == this {
        return;
      }
      var tmp := new SimpleVector.Copy(other);
      Swap(tmp);
    }

    /** Exchanges buffers, sizes and capacities with other. */
    method Swap(other: SimpleVector)
      requires Valid() && other.Valid()
      modifies this, other
      ensures Valid() && other.Valid()
      ensures data == old(other.data) && size == old(other.size) && capacity == old(other.capacity)
      ensures other.data == old(data) && other.size == old(size) && other.capacity == old(capacity)
      ensures Elements() == old(other.Elements()) && other.Elements() == old(Elements())
    {
      data, other.data := other.data, data;
      capacity, other.capacity := other.capacity, capacity;
      size, other.size := other.size, size;
    }

    /** Reserve(ncap): when ncap exceeds the capacity, moves the elements into
        a new buffer of exactly ncap slots; otherwise changes nothing. */
    method Reserve(ncap: nat)
      requires Valid()
      modifies this
      ensures Valid()
      ensures Elements() == old(Elements())
      ensures capacity == if ncap > old(capacity) then ncap else old(capacity)
      ensures ncap <= old(capacity) ==> data == old(data)
      ensures ncap > old(capacity) ==> fresh(data)
    {
      if ncap > capacity {
        capacity := ncap;
        var tmp := new SimpleVector.OfSize(capacity);
        CopyPrefix(data, tmp.data, size);
        data := tmp.data;
      }
    }

    /** Resize(n): truncates when n <= size; fills slots [size, n) with the
        default value when n fits the capacity; otherwise moves the elements
        into a new default-filled buffer of max(n, 2 * capacity) slots. */
    method Resize(newSize: nat)
      requires Valid()
      modifies this, data
      ensures Valid()
      ensures newSize <= old(size) ==> Elements() == old(Elements())[..newSize]
      ensures old(size) < newSize ==> Elements() == old(Elements()) + Defaults(newSize - old(size))
      ensures newSize <= old(capacity) ==> capacity == old(capacity) && data == old(data)
      ensures old(capacity) < newSize ==> capacity == GrownCapacity(old(capacity), newSize) && fresh(data)
    {
      if newSize <= size {
        size := newSize;
        return;
      }
      if newSize <= capacity {
        for i := size to newSize
          modifies data
          invariant forall k :: 0 <= k < size ==> data[k] == old(data[k])
          invariant forall k :: size <= k < i ==> data[k] == Default
        {
          data[i] := Default;
        }
        size := newSize;
      } else {
        capacity := GrownCapacity(capacity, newSize);
        var tmp := new SimpleVector.OfSize(capacity);
        assert forall k :: 0 <= k < capacity ==> tmp.data[k] == tmp.Elements()[k];
        CopyPrefix(data, tmp.data, size);
        data := tmp.data;
        size := newSize;
        assert Elements() == old(Elements()) + Defaults(newSize - old(size)) by {
          forall k | 0 <= k < newSize
            ensures Elements()[k] == (old(Elements()) + Defaults(newSize - old(size)))[k]
          {
            if k < old(size) {
              assert old(Elements())[k] == old(data[k]);
            }
          }
        }
      }
    }

    /** PushBack(value): appends value. A vector of capacity 0 grows to 1, a
        full vector doubles its capacity, otherwise the value is written in
        place. */
    method PushBack(value: int)
      requires Valid()
      modifies this, data
      ensures Valid()
      ensures Elements() == old(Elements()) + [value]
      ensures capacity == PushBackCapacity(old(capacity), old(size))
      ensures old(size) < old(capacity) ==> data == old(data)
      ensures old(size) == old(capacity) ==> fresh(data)
    {
      if capacity == 0 {
        Resize(1);
        data[size - 1] := value;
        return;
      }
      if size + 1 <= capacity {
        data[size] := value;
        size := size + 1;
        return;
      }
      var prevSize := size;
      Resize(capacity * 2);
      data[prevSize] := value;
      size := prevSize + 1;
    }

    /** PopBack(): drops the last element; does nothing on an empty vector. */
    method PopBack()
      requires Valid()
      modifies this
      ensures Valid()
      ensures old(size) == 0 ==> Elements() == old(Elements())
      ensures old(size) > 0 ==> Elements() == old(Elements())[..old(size) - 1]
      ensures capacity == old(capacity) && data == old(data)
    {
      if size == 0 {
        return;
      }
      size := size - 1;
    }

    /** Insert(pos, value), both the const& and the && overload, with the
        position given as its index. The tail [index, size) moves one slot
        right to open a gap, growing the buffer first as PushBack does when
        it is full. Returns the index of the inserted element. */
    method Insert(index: nat, value: int) returns (r: nat)
      requires Valid() && index <= size
      modifies this, data
      ensures Valid()
      ensures r == index
      ensures Elements() == old(Elements())[..index] + [value] + old(Elements())[index..]
      ensures capacity == PushBackCapacity(old(capacity), old(size))
      ensures old(size) < old(capacity) ==> data == old(data)
      ensures old(size) == old(capacity) ==> fresh(data)
    {
      if capacity == 0 {
        PushBack(value);
        return 0;
      }
      if size + 1 > capacity {
        var prevSize := size;
        Resize(capacity * 2);
        size := prevSize;
        assert Elements() == old(Elements()) by {
          assert Elements() == (old(Elements()) + Defaults(capacity - prevSize))[..prevSize];
        }
        OpenGapAndPlace(index, value);
      } else {
        OpenGapAndPlace(index, value);
      }
      r := index;
    }

    /** The part of Insert shared by both branches once there is room for one
        more element: shift the tail right, write the value, grow the size. */
    method OpenGapAndPlace(index: nat, value: int)
      requires Valid() && index <= size < capacity
      modifies this`size, data
      ensures Valid()
      ensures Elements() == old(Elements())[..index] + [value] + old(Elements())[index..]
    {
      ShiftRight(data, index, size);
      data[index] := value;
      size := size + 1;
      assert Elements() == old(Elements())[..index] + [value] + old(Elements())[index..] by {
        forall k | 0 <= k < size
          ensures Elements()[k] == (old(Elements())[..index] + [value] + old(Elements())[index..])[k]
        {
          if k < index {
            assert old(Elements())[k] == old(data[k]);
          } else if k > index {
            assert old(Elements())[k - 1] == old(data[k - 1]);
          }
        }
      }
    }

    /** Erase(pos) with the position given as its index: the elements after it
        move one slot left. Returns the index of the element that followed
        the erased one (the new size if the last one was erased). */
    method Erase(index: nat) returns (r: nat)
      requires Valid() && index < size
      modifies this, data
      ensures Valid()
      ensures r == index
      ensures Elements() == old(Elements())[..index] + old(Elements())[index + 1..]
      ensures capacity == old(capacity) && data == old(data)
    {
      ShiftLeft(data, index, size);
      size := size - 1;
      r := index;
    }

    /** Clear(): size 0, buffer and capacity kept. */
    method Clear()
      requires Valid()
      modifies this
      ensures Valid()
      ensures Elements() == []
      ensures capacity == old(capacity) && data == old(data)
    {
      size := 0;
    }

    /** GetSize() */
    function GetSize(): (n: nat)
      reads this, data
      requires Valid()
      ensures n == |Elements()|
    {
      size
    }

    /** GetCapacity() */
    function GetCapacity(): (n: nat)
      reads this, data
      requires Valid()
      ensures |Elements()| <= n && n == data.Length
    {
      capacity
    }

    /** IsEmpty() */
    predicate IsEmpty()
      reads this, data
      requires Valid()
      ensures IsEmpty() <==> Elements() == []
    {
      size == 0
    }

    /** operator[] for reading. An index outside [0, size) is undefined
        behaviour in C++ (operator[] is unchecked) and is excluded here. */
    function Get(index: nat): (x: int)
      reads this, data
      requires Valid() && index < size
      ensures x == Elements()[index]
    {
      data[index]
    }

    /** operator[] for writing through the returned reference. */
    method Set(index: nat, value: int)
      requires Valid() && index < size
      modifies data
      ensures Valid()
      ensures Elements() == old(Elements())[index := value]
    {
      data[index] := value;
    }

    /** At(index): the element at index, or std::out_of_range when
        index >= size. */
    function At(index: nat): (r: Result<int>)
      reads this, data
      requires Valid()
      ensures r.Err? <==> size <= index
      ensures r.Err? ==> r.error == OutOfRange
      ensures r.Ok? ==> r.value == Elements()[index]
    {
      if index >= size then Err(OutOfRange) else Ok(data[index])
    }
  }
}
