/** Index arithmetic of the ring buffer behind `tcn::buffered_channel`.

    The channel keeps a producer index (where the next pushed value goes) and a
    consumer index (where the next popped value comes from), both below the
    capacity and advanced modulo it. One slot always stays unused, so that
    "empty" (the indices are equal) and "full" (the producer index is one step
    behind the consumer index) can be told apart without a counter. */
module Ring {

  /** The step `(i + 1) % capacity_` applied to both indices. */
  function Next(i: nat, capacity: nat): (j: nat)
    requires i < capacity
    ensures j < capacity
    ensures j == if i == capacity - 1 then 0 else i + 1
  {
    (i + 1) % capacity
  }

  /** `is_empty_()`. */
  predicate IsEmpty(cidx: nat, pidx: nat)
  {
    cidx == pidx
  }

  /** `is_full_()`. */
  predicate IsFull(cidx: nat, pidx: nat, capacity: nat)
    requires pidx < capacity
  {
    cidx == Next(pidx, capacity)
  }

  /** The slot holding the value `k` places after the consumer index. */
  function Offset(cidx: nat, k: nat, capacity: nat): (i: nat)
    requires cidx < capacity && k < capacity
    ensures i < capacity
  {
    if cidx + k < capacity then cidx + k else cidx + k - capacity
  }

  /** How many slots are live, going round from `cidx` up to (not including) `pidx`. */
  function Count(cidx: nat, pidx: nat, capacity: nat): (n: nat)
    requires cidx < capacity && pidx < capacity
    ensures n < capacity
    ensures n == 0 <==> IsEmpty(cidx, pidx)
    ensures n == capacity - 1 <==> IsFull(cidx, pidx, capacity)
    ensures Offset(cidx, n, capacity) == pidx
  {
    if cidx <= pidx then pidx - cidx else capacity - cidx + pidx
  }

  /** The values resident in the ring, oldest first. */
  function Live<T>(slots: seq<T>, cidx: nat, pidx: nat): (r: seq<T>)
    requires cidx < |slots| && pidx < |slots|
    ensures |r| == Count(cidx, pidx, |slots|)
    ensures forall k :: 0 <= k < |r| ==> r[k] == slots[Offset(cidx, k, |slots|)]
  {
    if cidx <= pidx then slots[cidx..pidx] else slots[cidx..] + slots[..pidx]
  }

  /** Writing a value at the producer index of a ring that is not full and
      advancing that index appends the value to the live contents. */
  lemma LivePush<T>(slots: seq<T>, cidx: nat, pidx: nat, v: T)
    requires cidx < |slots| && pidx < |slots|
    requires !IsFull(cidx, pidx, |slots|)
    ensures Live(slots[pidx := v], cidx, Next(pidx, |slots|)) == Live(slots, cidx, pidx) + [v]
  {
  }

  /** The value at the consumer index of a non-empty ring is the oldest live
      value, and advancing the consumer index removes exactly that value. */
  lemma LivePop<T>(slots: seq<T>, cidx: nat, pidx: nat)
    requires cidx < |slots| && pidx < |slots|
    requires !IsEmpty(cidx, pidx)
    ensures Live(slots, cidx, pidx) != []
    ensures Live(slots, cidx, pidx)[0] == slots[cidx]
    ensures Live(slots, Next(cidx, |slots|), pidx) == Live(slots, cidx, pidx)[1..]
  {
  }
}
