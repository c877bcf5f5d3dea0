# Bounded channel of the capture pipeline, in Dafny

This project models `tcn::buffered_channel<T>` (`buffered_channel.h`), a
bounded, closable FIFO queue. The Orbbec capture test (`main.cpp`) connects
its capture, decode and display stages with `pcpd::dataflow::buffered_channel`
from `pcpd_core/dataflow/buffered_channel.h`. That is another package's copy of
the class with the same interface, and it is not part of this model.

The channel is a ring buffer. It has:

- a fixed array of `capacity` slots;
- a producer index, where the next push writes;
- a consumer index, where the next pop reads;
- a `closed` flag that is never reset.

Both indices advance modulo the capacity. One slot always stays unused, so
the channel is empty when the indices are equal and full when the producer
index is one step behind the consumer index.

Every operation runs under the channel's mutex. Each one is therefore modelled
as one sequential step of a Dafny class, `BufferedChannel.Channel`. The class
has the array, the two indices and the flag. Its ghost field `Contents` holds
the live values, oldest first. `Valid()` ties `Contents` to the ring. Each
method's postcondition gives:

- the status it returns (`Success | Empty | Full | Closed | Timeout`);
- the new `Contents`: a value appended, the oldest value removed, or unchanged;
- what happens to the slots and the indices.

Files:

- `ring.dfy` (module `Ring`): index arithmetic, the live window of the ring,
  and the lemmas that a push appends and a pop removes the front.
- `capacity.dfy` (module `Capacity`): the constructor's capacity test
  `2 > c || c & (c - 1) != 0`, proved equal to "below 2 or not a power of two".
- `channel.dfy` (module `BufferedChannel`): the class and the construction
  that can fail.
- `properties.dfy` (module `ChannelProperties`): properties a caller can rely
  on, proved from the class contracts alone. A pure reference semantics
  (`Step` for one call, `Run` for a sequence of calls) is proved FIFO, and
  `Replay` shows that real calls on the class follow it. The module also
  covers the `capacity - 1` bound, `try_pop` draining a closed channel while
  `pop` refuses it, and every push after `close` answering `Closed`.

Blocking and timed operations are modelled at the moment their wait returns
with the lock held. Other threads may have changed the channel while it
waited; the method starts from the state they left.

- `closed` never reverts. So the closed check before the wait and the one
  after it give the same answer as one check on that state.
- `wait_until` with a predicate returns the predicate's value. So a timed
  push reports `Timeout` exactly when the channel is still full and open at
  that moment, and a timed pop when it is still empty and open. The clock
  therefore plays no part in the model.
- An untimed wait returns only once its predicate holds. That predicate is the
  precondition of `Push` and `Pop`.

Two behaviours of the code are worth stating outright:

- The constructor rejects capacities below 2 and capacities that are not a
  power of two (buffered_channel.h:73). `NewChannel` returns
  `Err(LengthError(...))` for both.
- `pop`, `pop_wait_for` and `pop_wait_until` check `closed` first. They answer
  `Closed` even while values remain (buffered_channel.h:267-269, 328-330).
  Only `try_pop` drains (251-257). `Pop`, `PopWaitUntil` and
  `PopRefusesClosed` state this.

## Model

| member | source | states |
|---|---|---|
| Ring.Next | buffered_channel.h:111 | an advanced index stays below the capacity and wraps to 0 exactly after the last slot |
| Ring.Count | buffered_channel.h:58-64 | fewer than `capacity` values are live; none exactly when the indices are equal (`is_empty_`); `capacity - 1` exactly when the consumer index is one step past the producer index (`is_full_`) |
| Ring.Live | buffered_channel.h:52-56 | the live values are the `Count` slots from the consumer index onward, wrapping round the array |
| Ring.LivePush | buffered_channel.h:110-111 | writing at the producer index of a ring that is not full, then advancing that index, appends the value to the live values |
| Ring.LivePop | buffered_channel.h:258-259 | in a ring that is not empty, the slot at the consumer index holds the oldest live value, and advancing that index removes exactly that value |
| Capacity.BitAnd | buffered_channel.h:73 | bitwise AND of two naturals; the result is at most either operand |
| Capacity.PowerOfTwoTest | buffered_channel.h:73 | for n >= 1, `n & (n - 1)` is zero exactly when n is a power of two |
| Capacity.Rejected | buffered_channel.h:73-75 | the constructor's guard holds exactly for capacities below 2 or not a power of two |
| BufferedChannel.NewChannel | buffered_channel.h:71-77 | a capacity below 2 or not a power of two yields `length_error("buffer capacity is invalid")`; any other yields a fresh, open, empty channel with both indices 0 |
| BufferedChannel.Channel.constructor | buffered_channel.h:71-77 | for an accepted capacity, all slots are allocated, both indices are 0, the channel is open and holds nothing |
| BufferedChannel.Channel.IsFull | buffered_channel.h:58-60 | full exactly when `capacity - 1` values are held |
| BufferedChannel.Channel.IsEmpty | buffered_channel.h:62-64 | empty exactly when no value is held |
| BufferedChannel.Channel.IsClosed | buffered_channel.h:88-91 | reports the closed flag |
| BufferedChannel.Channel.Close | buffered_channel.h:93-100 | afterwards the channel is closed whatever it was before (idempotent); the held values and the indices are unchanged, and only the flag may change |
| BufferedChannel.Channel.Put | buffered_channel.h:110-111 | on a channel that is not full, writes the value at the producer index, advances that index and appends the value; the consumer index and the flag are unchanged |
| BufferedChannel.Channel.Take | buffered_channel.h:258-259 | on a channel that is not empty, returns the oldest value, removes it and advances the consumer index; the producer index and the flag are unchanged |
| BufferedChannel.Channel.TryPush | buffered_channel.h:102-128 | `Closed` if closed, even with room; else `Full` if `capacity - 1` values are held; else `Success` with the value appended at the producer slot. On failure the values, slots and indices are unchanged |
| BufferedChannel.Channel.Push | buffered_channel.h:130-174 | once its wait for room has returned: `Closed` with nothing changed if closed, else `Success` with the value appended |
| BufferedChannel.Channel.PushWaitUntil | buffered_channel.h:190-249 | once its timed wait has returned: `Closed` if closed; `Timeout` if still full and open; else `Success` with the value appended. On `Closed` or `Timeout` nothing changes |
| BufferedChannel.Channel.PushWaitFor | buffered_channel.h:176-188 | the same outcome as `PushWaitUntil`, to which it forwards |
| BufferedChannel.Channel.TryPop | buffered_channel.h:251-262 | when values are held, `Success` with the oldest one removed and handed out, even on a closed channel; otherwise `Closed` or `Empty` with nothing changed and the caller's variable untouched |
| BufferedChannel.Channel.Pop | buffered_channel.h:264-286 | once its wait for data has returned: `Closed` with the values kept if closed, even when values remain; else `Success` with the oldest value removed and handed out |
| BufferedChannel.Channel.PopWaitUntil | buffered_channel.h:322-350 | once its timed wait has returned: `Closed` if closed, even when values remain; `Timeout` if empty and open; else `Success` with the oldest value. On `Closed` or `Timeout` nothing changes |
| BufferedChannel.Channel.PopWaitFor | buffered_channel.h:315-320 | the same outcome as `PopWaitUntil`, to which it forwards |
| ChannelProperties.Step | buffered_channel.h:93-350 | the reference step of one call on the held values and the flag: a successful push appends its value, a successful pop removes the front one, so the held values plus the pushed value equal the popped value plus the new held values; fewer than `capacity` stay held; the flag never reverts and `close` sets it; a push on a closed channel answers `Closed`; a `push` or `pop` whose wait has returned never answers `Timeout` |
| ChannelProperties.Run | buffered_channel.h:71-77 | the reference run from a new, open, empty channel yields one status per call and holds fewer than `capacity` values throughout |
| ChannelProperties.RunFifo | buffered_channel.h:102-262 | in the reference run, the values popped followed by those still held are exactly the values whose push succeeded, in push order |
| ChannelProperties.RunClosed | buffered_channel.h:93-100 | in the reference run, the flag is set exactly when some call was `close` |
| ChannelProperties.RunPushAfterClose | buffered_channel.h:102-106 | in the reference run, every push made after a `close` answers `Closed` |
| ChannelProperties.RunBlockingNoTimeout | buffered_channel.h:130-286 | in a reference run where every `push` and `pop` is made once its wait has returned, none of them answers `Timeout`: each succeeds or finds the channel closed |
| ChannelProperties.Apply | buffered_channel.h:93-350 | one call on a valid channel (a `push` or `pop` once its wait has returned) returns the status and popped value of the reference step, and leaves the held values and the flag that step gives |
| ChannelProperties.Replay | buffered_channel.h:102-350 | for any sequence of calls to `try_push`, `push_wait_for`, `push`, `try_pop`, `pop_wait_for`, `pop` and `close` on a new channel, each `push` and `pop` made once its wait has returned, the statuses returned, the values popped and the values drained afterwards are those of the reference run; hence FIFO (nothing lost or duplicated), fewer than `capacity` held, every push after a `close` answers `Closed`, and no `push` or `pop` answers `Timeout` |
| ChannelProperties.Fill | buffered_channel.h:102-114 | pushing values into an open channel with room for all of them appends them all, in order |
| ChannelProperties.Drain | buffered_channel.h:251-262 | calling `try_pop` until it fails hands out exactly the held values, oldest first, and leaves the channel empty |
| ChannelProperties.PushAllThenPopAll | buffered_channel.h:110-111 | fewer than `capacity` values pushed into a new channel come back out in the same order |
| ChannelProperties.CapacityBound | buffered_channel.h:58-60 | a new channel accepts exactly `capacity - 1` values before `try_push` reports `Full`; after one pop it accepts another |
| ChannelProperties.CloseDrains | buffered_channel.h:251-257 | with two values held in a closed channel of capacity 4, a push answers `Closed`, then `try_pop` returns both values in order, then `Closed` |
| ChannelProperties.PopRefusesClosed | buffered_channel.h:264-279 | with a value held in a closed channel, `pop` and `pop_wait_for` answer `Closed` and keep it, while `try_pop` then hands it out |

## Left out

- Mutex, condition variables and their `notify_one` / `notify_all` calls: these are synchronisation only. Each operation is one atomic step, and a blocking wait is represented by the state in which it returns.
- Clocks: `detail::convert`, `system_clock::now()` and the deadline arithmetic. The outcome of a timed operation depends only on the state at which its wait returns (see above), so no deadline input is needed.
- BufferedChannel.Channel.Push: a call on a full, open channel that no other thread ever changes blocks for ever. The model only covers calls whose wait has returned, which its precondition states.
- BufferedChannel.Channel.Pop: a call on an empty, open channel that no other thread ever changes blocks for ever. The model only covers calls whose wait has returned, which its precondition states.
- Moving out of a slot: a pop leaves a moved-from value in the slot. The model leaves the slot's old value there, and no operation reads it again before it is overwritten.
- The copy and move overloads of the push operations behave the same and are one method each.
- The destructor, which closes the channel and frees the slots, is memory management.
- `value_pop`, the `iterator` class and `begin` / `end` are not modelled. `value_pop` binds the `void` result of `wait` to a variable (buffered_channel.h:296), so it is ill-formed for every `T` wherever it is instantiated, including through the iterator, which is built on it.
- The pipeline in `main.cpp` (capture callback, decode and display threads, stop flag, statistics), the decoders, `Rational` and the FFmpeg wrappers are I/O, GPU and foreign-library calls; they are not part of this model.
- Index width: `pidx_` and `cidx_` are `std::size_t`. The largest accepted capacity is 2^63, so `pidx_ + 1` never wraps, and unbounded naturals model the indices exactly.
- BufferedChannel.NewChannel: allocation failure is not modelled. `new slot_type[capacity_]` (buffered_channel.h:76) can still throw `std::bad_alloc` or `std::bad_array_new_length` for a very large accepted capacity such as 2^63, where `NewChannel` returns `Ok`.
