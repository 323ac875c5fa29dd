/** Client code that exercises SimpleVector's documented behaviour through
    the contracts alone: push order and doubling, reuse of capacity after
    Clear, independence of copies, moved-from vectors, and comparisons that
    ignore capacity. */
module Scenarios {
  import opened Growth
  import opened Comparisons
  import opened SimpleVectors

  /** Pushing xs one by one onto an empty vector keeps their order, and the
      capacity follows the doubling policy. */
  method PushAll(xs: seq<int>) returns (v: SimpleVector)
    ensures fresh(v) && fresh(v.data) && v.Valid()
    ensures v.Elements() == xs
    ensures v.capacity == CapacityAfterPushes(|xs|)
  {
    v := new SimpleVector();
    for i := 0 to |xs|
      invariant fresh(v) && fresh(v.data) && v.Valid()
      invariant v.Elements() == xs[..i]
      invariant v.capacity == CapacityAfterPushes(i)
    {
      v.PushBack(xs[i]);
      assert xs[..i + 1] == xs[..i] + [xs[i]];
    }
  }

  /** After Clear, a PushBack reuses the existing buffer. */
  method ClearThenPush(v: SimpleVector, x: int)
    requires v.Valid() && 0 < v.capacity
    modifies v, v.data
    ensures v.Valid() && v.Elements() == [x]
    ensures v.capacity == old(v.capacity) && v.data == old(v.data)
  {
    v.Clear();
    v.PushBack(x);
  }

  /** Mutating a copy leaves the original untouched. */
  method CopyThenMutate(v: SimpleVector, x: int) returns (w: SimpleVector)
    requires v.Valid()
    ensures fresh(w) && w.Valid() && v.Valid()
    ensures v.Elements() == old(v.Elements()) && v.capacity == old(v.capacity)
    ensures w.Elements() == v.Elements() + [x]
  {
    w := new SimpleVector.Copy(v);
    w.PushBack(x);
  }

  /** Moving out of a vector leaves it empty with capacity 0. */
  method MoveOut(v: SimpleVector) returns (w: SimpleVector)
    requires v.Valid()
    modifies v
    ensures fresh(w) && w.Valid() && v.Valid()
    ensures w.Elements() == old(v.Elements()) && w.capacity == old(v.capacity)
    ensures v.Elements() == [] && v.capacity == 0
  {
    w := new SimpleVector.Moved(v);
  }

  /** {1, 2, 3} from a list (capacity 3) equals {1, 2, 3} from three pushes
      (capacity 4), and {1, 2} is less than both. */
  method CompareBuiltVectors() returns (a: SimpleVector, b: SimpleVector, c: SimpleVector)
    ensures a.Valid() && b.Valid() && c.Valid()
    ensures a.capacity == 3 && b.capacity == 4
    ensures Equal(a.Elements(), b.Elements())
    ensures Less(c.Elements(), a.Elements()) && Greater(b.Elements(), c.Elements())
  {
    a := new SimpleVector.FromList([1, 2, 3]);
    b := new SimpleVector();
    b.PushBack(1);
    b.PushBack(2);
    b.PushBack(3);
    c := new SimpleVector.FromList([1, 2]);
    assert c.Elements() == a.Elements()[..2];
    DerivedOperatorsConsistent(b.Elements(), c.Elements());
  }

  /** Erase undoes Insert at the same index: the elements come back, and the
      returned positions agree. */
  method InsertThenErase(v: SimpleVector, index: nat, x: int)
    requires v.Valid() && index <= v.size
    modifies v, v.data
    ensures v.Valid() && v.Elements() == old(v.Elements())
  {
    ghost var before := v.Elements();
    var at := v.Insert(index, x);
    assert v.Elements()[at] == x;
    var next := v.Erase(at);
    assert next == index;
    assert v.Elements() == before by {
      assert (before[..index] + [x] + before[index..])[..index] == before[..index];
      assert (before[..index] + [x] + before[index..])[index + 1..] == before[index..];
    }
  }

  /** PopBack undoes PushBack. */
  method PushThenPop(v: SimpleVector, x: int)
    requires v.Valid()
    modifies v, v.data
    ensures v.Valid() && v.Elements() == old(v.Elements())
  {
    ghost var before := v.Elements();
    v.PushBack(x);
    v.PopBack();
    assert v.Elements() == (before + [x])[..|before|];
  }
}
