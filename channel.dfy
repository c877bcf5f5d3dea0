/** `tcn::buffered_channel<T>`: a bounded, closable FIFO channel over a ring
    buffer.

    Every public operation of `tcn::buffered_channel` runs under one mutex, so each is
    modelled as one sequential step on the channel's fields. The copy and move
    overloads of the push operations do the same thing and are one method here.

    The blocking and timed operations are modelled at the moment their
    condition-variable wait returns and the lock is held again: the state the
    method starts from is the state in which the wait ended, after whatever
    other threads did meanwhile. Because `closed` never reverts, the closed
    check made before the wait and the one made after it agree with a single
    check on that state. A timed wait (`wait_until` with a predicate) returns
    the predicate's value, so it reports a timeout exactly when the channel is
    still full (or, for pops, still empty) and open at that moment; an
    untimed wait returns only once its predicate holds, which is the
    precondition of `Push` and `Pop`. */
module BufferedChannel {
  import Ring
  import opened Capacity

  /** `channel_op_status`. */
  datatype Status = Success | Empty | Full | Closed | Timeout

  /** `std::length_error`, thrown by the constructor. */
  datatype LengthError = LengthError(what: string)

  datatype Result<R, E> = Ok(value: R) | Err(error: E)

  class Channel<T(0)> {
    const capacity: SizeT
    const slots: array<T>
    var pidx: nat
    var cidx: nat
    var closed: bool

    /** The values pushed and not yet popped, oldest first. */
    ghost var Contents: seq<T>

    ghost predicate Valid()
      reads this, slots
    {
      && !Rejected(capacity)
      && slots.Length == capacity
      && pidx < capacity
      && cidx < capacity
      && Contents == Ring.Live(slots[..], cidx, pidx)
    }

    /** The constructor once its capacity check has passed: all slots are
        allocated, both indices are 0 and the channel is open. */
    constructor (capacity: SizeT)
      requires !Rejected(capacity)
      ensures Valid() && fresh(slots)
      ensures this.capacity == capacity
      ensures pidx == 0 && cidx == 0 && !closed
      ensures Contents == []
    {
      this.capacity := capacity;
      slots := new T[capacity];
      pidx, cidx, closed := 0, 0, false;
      Contents := [];
    }

    /** `is_full_()`: one more push would make the indices meet. */
    predicate IsFull()
      reads this, slots
      requires Valid()
      ensures IsFull() <==> |Contents| == capacity - 1
    {
      Ring.IsFull(cidx, pidx, capacity)
    }

    /** `is_empty_()`. */
    predicate IsEmpty()
      reads this, slots
      requires Valid()
      ensures IsEmpty() <==> Contents == []
    {
      Ring.IsEmpty(cidx, pidx)
    }

    /** `is_closed()`. */
    method IsClosed() returns (c: bool)
      ensures c == closed
    {
      c := closed;
    }

    /** `close()`: sets the flag, which nothing resets; the slots and the
        indices are not touched, and closing twice is closing once. */
    method Close()
      requires Valid()
      modifies this`closed
      ensures Valid() && closed
      ensures Contents == old(Contents) && pidx == old(pidx) && cidx == old(cidx)
    {
      if !closed {
        closed := true;
      }
    }

    /** The store shared by every successful push: write at the producer index
        and advance it. */
    method Put(value: T)
      requires Valid() && !IsFull()
      modifies this, slots
      ensures Valid()
      ensures Contents == old(Contents) + [value]
      ensures slots[..] == old(slots[..])[old(pidx) := value]
      ensures pidx == Ring.Next(old(pidx), capacity)
      ensures cidx == old(cidx) && closed == old(closed)
    {
      Ring.LivePush(slots[..], cidx, pidx, value);
      slots[pidx] := value;
      pidx := Ring.Next(pidx, capacity);
      Contents := Contents + [value];
    }

    /** The load shared by every successful pop: read at the consumer index
        and advance it. */
    method Take() returns (value: T)
      requires Valid() && !IsEmpty()
      modifies this
      ensures Valid()
      ensures value == old(Contents)[0] && Contents == old(Contents)[1..]
      ensures cidx == Ring.Next(old(cidx), capacity)
      ensures pidx == old(pidx) && closed == old(closed)
    {
      Ring.LivePop(slots[..], cidx, pidx);
      value := slots[cidx];
      cidx := Ring.Next(cidx, capacity);
      Contents := Contents[1..];
    }

    /** `try_push`: closed is checked before full, so a closed channel
        answers `Closed` even when it has room. */
    method TryPush(value: T) returns (s: Status)
      requires Valid()
      modifies this, slots
      ensures Valid()
      ensures s == if old(closed) then Closed
                   else if |old(Contents)| == capacity - 1 then Full
                   else Success
      ensures closed == old(closed) && cidx == old(cidx)
      ensures s == Success ==> (Contents == old(Contents) + [value]
                             && slots[..] == old(slots[..])[old(pidx) := value]
                             && pidx == Ring.Next(old(pidx), capacity))
      ensures s != Success ==> (Contents == old(Contents)
                             && slots[..] == old(slots[..])
                             && pidx == old(pidx))
    {
      if closed {
        return Closed;
      }
      if IsFull() {
        return Full;
      }
      Put(value);
      s := Success;
    }

    /** `push`, once its wait for room has returned (the wait's predicate
        `!(is_full_() && !is_closed_())` holds). */
    method Push(value: T) returns (s: Status)
      requires Valid()
      requires closed || !IsFull()
      modifies this, slots
      ensures Valid()
      ensures s == if old(closed) then Closed else Success
      ensures closed == old(closed) && cidx == old(cidx)
      ensures s == Success ==> (Contents == old(Contents) + [value]
                             && slots[..] == old(slots[..])[old(pidx) := value]
                             && pidx == Ring.Next(old(pidx), capacity))
      ensures s != Success ==> (Contents == old(Contents)
                             && slots[..] == old(slots[..])
                             && pidx == old(pidx))
    {
      if closed {
        return Closed;
      }
      Put(value);
      s := Success;
    }

    /** `push_wait_until`, once its timed wait for room has returned: still
        full and open means the deadline passed. */
    method PushWaitUntil(value: T) returns (s: Status)
      requires Valid()
      modifies this, slots
      ensures Valid()
      ensures s == if old(closed) then Closed
                   else if |old(Contents)| == capacity - 1 then Timeout
                   else Success
      ensures closed == old(closed) && cidx == old(cidx)
      ensures s == Success ==> (Contents == old(Contents) + [value]
                             && slots[..] == old(slots[..])[old(pidx) := value]
                             && pidx == Ring.Next(old(pidx), capacity))
      ensures s != Success ==> (Contents == old(Contents)
                             && slots[..] == old(slots[..])
                             && pidx == old(pidx))
    {
      if closed {
        return Closed;
      }
      if IsFull() {
        return Timeout;
      }
      Put(value);
      s := Success;
    }

    /** `push_wait_for`: forwards to `push_wait_until` with the deadline
        "now plus the duration". */
    method PushWaitFor(value: T) returns (s: Status)
      requires Valid()
      modifies this, slots
      ensures Valid()
      ensures s == if old(closed) then Closed
                   else if |old(Contents)| == capacity - 1 then Timeout
                   else Success
      ensures closed == old(closed) && cidx == old(cidx)
      ensures s == Success ==> (Contents == old(Contents) + [value]
                             && slots[..] == old(slots[..])[old(pidx) := value]
                             && pidx == Ring.Next(old(pidx), capacity))
      ensures s != Success ==> (Contents == old(Contents)
                             && slots[..] == old(slots[..])
                             && pidx == old(pidx))
    {
      s := PushWaitUntil(value);
    }

    /** `try_pop`: on an empty channel answers `Closed` or `Empty`; otherwise
        hands out the oldest value, even when the channel is closed, so a
        closed channel drains before it reports `Closed`. `value` is the
        caller's variable, left as it was unless the pop succeeds. */
    method TryPop(value: T) returns (s: Status, value': T)
      requires Valid()
      modifies this
      ensures Valid()
      ensures s == if old(Contents) != [] then Success
                   else if old(closed) then Closed
                   else Empty
      ensures closed == old(closed) && pidx == old(pidx)
      ensures s == Success ==> (value' == old(Contents)[0]
                             && Contents == old(Contents)[1..]
                             && cidx == Ring.Next(old(cidx), capacity))
      ensures s != Success ==> (value' == value
                             && Contents == old(Contents)
                             && cidx == old(cidx))
    {
      if IsEmpty() {
        return if closed then Closed else Empty, value;
      }
      value' := Take();
      s := Success;
    }

    /** `pop`, once its wait for data has returned (the wait's predicate
        `!(is_empty_() && !is_closed_())` holds). Unlike `try_pop` it checks
        closed first: a closed channel answers `Closed` and keeps its values. */
    method Pop(value: T) returns (s: Status, value': T)
      requires Valid()
      requires closed || !IsEmpty()
      modifies this
      ensures Valid()
      ensures s == if old(closed) then Closed else Success
      ensures closed == old(closed) && pidx == old(pidx)
      ensures s == Success ==> (value' == old(Contents)[0]
                             && Contents == old(Contents)[1..]
                             && cidx == Ring.Next(old(cidx), capacity))
      ensures s != Success ==> (value' == value
                             && Contents == old(Contents)
                             && cidx == old(cidx))
    {
      if closed {
        return Closed, value;
      }
      value' := Take();
      s := Success;
    }

    /** `pop_wait_until`, once its timed wait for data has returned: closed is
        checked first, and still empty and open means the deadline passed. */
    method PopWaitUntil(value: T) returns (s: Status, value': T)
      requires Valid()
      modifies this
      ensures Valid()
      ensures s == if old(closed) then Closed
                   else if old(Contents) == [] then Timeout
                   else Success
      ensures closed == old(closed) && pidx == old(pidx)
      ensures s == Success ==> (value' == old(Contents)[0]
                             && Contents == old(Contents)[1..]
                             && cidx == Ring.Next(old(cidx), capacity))
      ensures s != Success ==> (value' == value
                             && Contents == old(Contents)
                             && cidx == old(cidx))
    {
      if closed {
        return Closed, value;
      }
      if IsEmpty() {
        return Timeout, value;
      }
      value' := Take();
      s := Success;
    }

    /** `pop_wait_for`: forwards to `pop_wait_until`. */
    method PopWaitFor(value: T) returns (s: Status, value': T)
      requires Valid()
      modifies this
      ensures Valid()
      ensures s == if old(closed) then Closed
                   else if old(Contents) == [] then Timeout
                   else Success
      ensures closed == old(closed) && pidx == old(pidx)
      ensures s == Success ==> (value' == old(Contents)[0]
                             && Contents == old(Contents)[1..]
                             && cidx == Ring.Next(old(cidx), capacity))
      ensures s != Success ==> (value' == value
                             && Contents == old(Contents)
                             && cidx == old(cidx))
    {
      s, value' := PopWaitUntil(value);
    }
  }

  /** Construction with the capacity check: a capacity below 2 or not a power
      of two raises `length_error`; any other yields an open, empty channel. */
  method NewChannel<T(0)>(capacity: SizeT) returns (r: Result<Channel<T>, LengthError>)
    ensures r.Err? <==> capacity < 2 || !IsPowerOfTwo(capacity)
    ensures r.Err? ==> r.error == LengthError("buffer capacity is invalid")
    ensures r.Ok? ==> && fresh(r.value) && fresh(r.value.slots) && r.value.Valid()
                      && r.value.capacity == capacity
                      && r.value.pidx == 0 && r.value.cidx == 0
                      && !r.value.closed && r.value.Contents == []
  {
    if Rejected(capacity) {
      return Err(LengthError("buffer capacity is invalid"));
    }
    var ch := new Channel<T>(capacity);
    r := Ok(ch);
  }
}
