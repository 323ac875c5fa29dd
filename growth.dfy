/** Capacity arithmetic of SimpleVector: the amortised-doubling growth policy
    shared by Resize, PushBack and Insert. Capacities are unbounded naturals. */
module Growth {

  /** The capacity Resize allocates when the requested size does not fit:
      std::max(new_size, capacity_ * 2). */
  function GrownCapacity(capacity: nat, newSize: nat): (c: nat)
    requires capacity < newSize
    ensures newSize <= c && 2 * capacity <= c
    ensures c == newSize || c == 2 * capacity
  {
    if newSize < capacity * 2 then capacity * 2 else newSize
  }

  /** The capacity after one PushBack (or one Insert) on a vector holding
      `size` elements in `capacity` slots. */
  function PushBackCapacity(capacity: nat, size: nat): (c: nat)
    requires size <= capacity
    ensures size < c
    ensures capacity == 0 ==> c == 1
    ensures 0 < capacity && size < capacity ==> c == capacity
    ensures 0 < capacity && size == capacity ==> c == 2 * capacity
  {
    if capacity == 0 then GrownCapacity(0, 1)
    else if size + 1 <= capacity then capacity
    else GrownCapacity(capacity, capacity * 2)
  }

  /** The capacity of a vector built by `n` successive PushBack calls,
      starting from a default-constructed (empty, capacity 0) vector. */
  function CapacityAfterPushes(n: nat): (c: nat)
    ensures n <= c
  {
    if n == 0 then 0 else PushBackCapacity(CapacityAfterPushes(n - 1), n - 1)
  }

  ghost predicate IsPowerOfTwo(c: nat)
  {
    c == 1 || (2 <= c && c % 2 == 0 && IsPowerOfTwo(c / 2))
  }

  /** Amortised doubling: after n >= 1 pushes from empty the capacity is a
      power of two, at least n and less than 2n, so at most half the slots
      are ever unused. */
  lemma {:induction false} PushesFromEmpty(n: nat)
    requires 1 <= n
    ensures IsPowerOfTwo(CapacityAfterPushes(n))
    ensures n <= CapacityAfterPushes(n) < 2 * n
  {
    if n > 1 {
      PushesFromEmpty(n - 1);
      var c := CapacityAfterPushes(n - 1);
      if c == n - 1 {
        assert CapacityAfterPushes(n) == 2 * c;
        assert (2 * c) / 2 == c;
      }
    }
  }
}
