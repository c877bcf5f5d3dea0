/** The capacity test made by the `buffered_channel` constructor: a capacity is
    refused when it is below 2 or when `capacity & (capacity - 1)` is non-zero,
    which is the usual bit trick for "not a power of two". */
module Capacity {

  /** `std::size_t`: the type of the capacity argument. */
  type SizeT = n: nat | n < 0x1_0000_0000_0000_0000

  /** Bitwise AND of two naturals, taken bit by bit from the least
      significant bit; on values of `SizeT` it is the C++ `&`. */
  function BitAnd(a: nat, b: nat): (r: nat)
    ensures r <= a && r <= b
    decreases a
  {
    if a == 0 || b == 0 then 0
    else 2 * BitAnd(a / 2, b / 2) + (if a % 2 == 1 && b % 2 == 1 then 1 else 0)
  }

  /** n is 1, 2, 4, 8, ... */
  predicate IsPowerOfTwo(n: nat)
    decreases n
  {
    n == 1 || (n >= 2 && n % 2 == 0 && IsPowerOfTwo(n / 2))
  }

  lemma {:induction false} BitAndSelf(m: nat)
    ensures BitAnd(m, m) == m
    decreases m
  {
    if m != 0 {
      BitAndSelf(m / 2);
    }
  }

  /** The bit trick is exact: for n >= 1, `n & (n - 1)` is zero exactly when n
      is a power of two. */
  lemma {:induction false} PowerOfTwoTest(n: nat)
    requires n >= 1
    ensures BitAnd(n, n - 1) == 0 <==> IsPowerOfTwo(n)
    decreases n
  {
    if n == 1 {
    } else if n % 2 == 0 {
      assert (n - 1) / 2 == n / 2 - 1;
      assert BitAnd(n, n - 1) == 2 * BitAnd(n / 2, n / 2 - 1);
      PowerOfTwoTest(n / 2);
    } else {
      assert (n - 1) / 2 == n / 2;
      BitAndSelf(n / 2);
      assert BitAnd(n, n - 1) == 2 * (n / 2);
    }
  }

  /** The constructor's guard (`2 > capacity_ || 0 != (capacity_ & (capacity_ - 1))`):
      true exactly for the capacities it refuses. The right operand is only
      evaluated for capacities of at least 2, so `capacity - 1` never wraps. */
  predicate Rejected(capacity: SizeT)
    ensures Rejected(capacity) <==> capacity < 2 || !IsPowerOfTwo(capacity)
  {
    if 2 > capacity then true
    else
      PowerOfTwoTest(capacity);
      0 != BitAnd(capacity, capacity - 1)
  }
}
