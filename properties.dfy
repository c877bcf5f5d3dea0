/** What callers of `buffered_channel` can rely on, proved from the contracts
    of the channel's operations alone: values come out in the order they went
    in, at most `capacity - 1` are ever held, `try_pop` drains a closed channel
    while `pop` refuses at once, and once closed a channel accepts nothing. */
module ChannelProperties {
  import opened BufferedChannel
  import opened Capacity

  /** One call on a channel, as a thread would make it under the lock. The
      untimed `push` and `pop` (`PushOp`, `PopOp`) are taken at the moment
      their wait returns, so they are only made where `Ready` holds. */
  datatype Op<T> = TryPushOp(v: T) | PushWaitForOp(v: T) | PushOp(v: T) | TryPopOp | PopWaitForOp | PopOp | CloseOp

  predicate IsPush<T>(op: Op<T>)
  {
    op.TryPushOp? || op.PushWaitForOp? || op.PushOp?
  }

  /** The calls that wait without a deadline. */
  predicate IsBlocking<T>(op: Op<T>)
  {
    op.PushOp? || op.PopOp?
  }

  /** `push` and `pop` block until their wait predicate holds:
      `!(is_full_() && !is_closed_())` and `!(is_empty_() && !is_closed_())`.
      Every other call can be made at any time. */
  predicate Ready<T>(op: Op<T>, held: seq<T>, closed: bool, capacity: nat)
  {
    match op
    case PushOp(_) => closed || |held| < capacity - 1
    case PopOp => closed || held != []
    case _ => true
  }

  /** The values of the pushes that succeeded, in the order they were made. */
  function Accepted<T>(ops: seq<Op<T>>, statuses: seq<Status>): seq<T>
    requires |ops| == |statuses|
  {
    if ops == [] then []
    else
      var n := |ops| - 1;
      Accepted(ops[..n], statuses[..n])
      + (if IsPush(ops[n]) && statuses[n] == Success then [ops[n].v] else [])
  }

  /** What one call answers and leaves behind: its status, the value it
      popped (if any), the values then held and the closed flag. */
  datatype Outcome<T> = Outcome(status: Status, popped: seq<T>, held: seq<T>, closed: bool)

  /** The reference step of one call, on the held values and the flag alone
      (no ring, no indices). `close` returns nothing and is given `Success`.
      The pushed value joins the held ones at the back and the popped one
      leaves them at the front; fewer than `capacity` stay held; the flag
      never reverts; a closed channel accepts no push. `push` and `pop` have
      the outcome of their timed forms, which is never `Timeout` once their
      wait has returned. */
  function Step<T>(op: Op<T>, held: seq<T>, closed: bool, capacity: nat): (o: Outcome<T>)
    requires |held| < capacity
    ensures held + (if IsPush(op) && o.status == Success then [op.v] else []) == o.popped + o.held
    ensures |o.held| < capacity
    ensures closed || op.CloseOp? ==> o.closed
    ensures o.closed ==> closed || op.CloseOp?
    ensures closed && IsPush(op) ==> o.status == Closed
    ensures IsBlocking(op) && Ready(op, held, closed, capacity) ==> o.status != Timeout
  {
    match op
    case TryPushOp(v) =>
      if closed then Outcome(Closed, [], held, closed)
      else if |held| == capacity - 1 then Outcome(Full, [], held, closed)
      else Outcome(Success, [], held + [v], closed)
    case PushWaitForOp(v) =>
      if closed then Outcome(Closed, [], held, closed)
      else if |held| == capacity - 1 then Outcome(Timeout, [], held, closed)
      else Outcome(Success, [], held + [v], closed)
    case PushOp(v) =>
      if closed then Outcome(Closed, [], held, closed)
      else if |held| == capacity - 1 then Outcome(Timeout, [], held, closed)
      else Outcome(Success, [], held + [v], closed)
    case TryPopOp =>
      if held != [] then Outcome(Success, [held[0]], held[1..], closed)
      else Outcome(if closed then Closed else Empty, [], held, closed)
    case PopWaitForOp =>
      if closed then Outcome(Closed, [], held, closed)
      else if held == [] then Outcome(Timeout, [], held, closed)
      else Outcome(Success, [held[0]], held[1..], closed)
    case PopOp =>
      if closed then Outcome(Closed, [], held, closed)
      else if held == [] then Outcome(Timeout, [], held, closed)
      else Outcome(Success, [held[0]], held[1..], closed)
    case CloseOp =>
      Outcome(Success, [], held, true)
  }

  /** A whole run of calls on a new channel: every status, every popped value
      in order, and the values and flag left at the end. */
  datatype Trace<T> = Trace(statuses: seq<Status>, delivered: seq<T>, held: seq<T>, closed: bool)

  /** The reference run: `Step` applied to each call in turn, from an open,
      empty channel. */
  function Run<T>(capacity: nat, ops: seq<Op<T>>): (t: Trace<T>)
    requires capacity >= 1
    ensures |t.statuses| == |ops|
    ensures |t.held| < capacity
    decreases |ops|
  {
    if ops == [] then Trace([], [], [], false)
    else
      var t := Run(capacity, ops[..|ops| - 1]);
      var o := Step(ops[|ops| - 1], t.held, t.closed, capacity);
      Trace(t.statuses + [o.status], t.delivered + o.popped, o.held, o.closed)
  }

  /** `Run` of one more call is one more `Step`. */
  lemma RunLast<T>(capacity: nat, front: seq<Op<T>>, op: Op<T>)
    requires capacity >= 1
    ensures var t := Run(capacity, front);
            var o := Step(op, t.held, t.closed, capacity);
            Run(capacity, front + [op]) == Trace(t.statuses + [o.status], t.delivered + o.popped, o.held, o.closed)
  {
    assert (front + [op])[..|front|] == front;
  }

  /** The inductive step of `RunFifo`: the last call keeps the popped values
      followed by the held ones equal to the accepted ones. */
  lemma FifoStep<T>(capacity: nat, ops: seq<Op<T>>)
    requires capacity >= 1 && ops != []
    requires var t := Run(capacity, ops[..|ops| - 1]);
             Accepted(ops[..|ops| - 1], t.statuses) == t.delivered + t.held
    ensures Accepted(ops, Run(capacity, ops).statuses) == Run(capacity, ops).delivered + Run(capacity, ops).held
  {
    var n := |ops| - 1;
    var op := ops[n];
    var t := Run(capacity, ops[..n]);
    var o := Step(op, t.held, t.closed, capacity);
    var pushed := if IsPush(op) && o.status == Success then [op.v] else [];
    var r := Run(capacity, ops);
    assert r.statuses[..n] == t.statuses && r.statuses[n] == o.status;
    assert Accepted(ops, r.statuses) == (t.delivered + t.held) + pushed;
    assert t.held + pushed == o.popped + o.held;
    SeqShift(t.delivered, t.held, pushed, o.popped, o.held);
  }

  /** Moving a middle piece from one side of a concatenation to the other. */
  lemma SeqShift<T>(d: seq<T>, h: seq<T>, p: seq<T>, q: seq<T>, h': seq<T>)
    requires h + p == q + h'
    ensures (d + h) + p == (d + q) + h'
  {
    calc {
      (d + h) + p;
      d + (h + p);
      d + (q + h');
      (d + q) + h';
    }
  }

  /** FIFO for the reference run: the values popped, followed by those still
      held, are exactly the values of the successful pushes, in push order. */
  lemma {:induction false} RunFifo<T>(capacity: nat, ops: seq<Op<T>>)
    requires capacity >= 1
    ensures Accepted(ops, Run(capacity, ops).statuses) == Run(capacity, ops).delivered + Run(capacity, ops).held
    decreases |ops|
  {
    if ops != [] {
      var n := |ops| - 1;
      RunFifo(capacity, ops[..n]);
      FifoStep(capacity, ops);
    }
  }

  /** The reference run's flag is set exactly when some call was `close`. */
  lemma {:induction false} RunClosed<T>(capacity: nat, ops: seq<Op<T>>)
    requires capacity >= 1
    ensures Run(capacity, ops).closed <==> exists i :: 0 <= i < |ops| && ops[i].CloseOp?
    decreases |ops|
  {
    if ops != [] {
      var n := |ops| - 1;
      var front := ops[..n];
      RunClosed(capacity, front);
      if Run(capacity, ops).closed && !ops[n].CloseOp? {
        var i :| 0 <= i < |front| && front[i].CloseOp?;
        assert ops[i].CloseOp?;
      }
      if exists i :: 0 <= i < n && ops[i].CloseOp? {
        var i :| 0 <= i < n && ops[i].CloseOp?;
        assert front[i].CloseOp?;
      }
    }
  }

  /** In the reference run, every push made after a `close` answers `Closed`. */
  lemma {:induction false} RunPushAfterClose<T>(capacity: nat, ops: seq<Op<T>>)
    requires capacity >= 1
    ensures forall i, j :: 0 <= i < j < |ops| && ops[i].CloseOp? && IsPush(ops[j]) ==> Run(capacity, ops).statuses[j] == Closed
    decreases |ops|
  {
    if ops != [] {
      var n := |ops| - 1;
      var front := ops[..n];
      RunPushAfterClose(capacity, front);
      RunClosed(capacity, front);
      var t := Run(capacity, front);
      assert Run(capacity, ops).statuses[..n] == t.statuses;
      forall i, j | 0 <= i < j < |ops| && ops[i].CloseOp? && IsPush(ops[j])
        ensures Run(capacity, ops).statuses[j] == Closed
      {
        assert front[i].CloseOp?;
        if j < n {
          assert IsPush(front[j]);
          assert Run(capacity, ops).statuses[j] == t.statuses[j];
        }
      }
    }
  }

  /** One call of a replay on `ch`: its status and the value it popped, if
      any, are those of the reference step, and so are the values held and
      the flag afterwards. A `push` or `pop` is made once its wait has
      returned. */
  method Apply<T(0)>(ch: Channel<T>, op: Op<T>, init: T) returns (s: Status, popped: seq<T>)
    requires ch.Valid()
    requires Ready(op, ch.Contents, ch.closed, ch.capacity)
    modifies ch, ch.slots
    ensures ch.Valid()
    ensures Step(op, old(ch.Contents), old(ch.closed), ch.capacity) == Outcome(s, popped, ch.Contents, ch.closed)
  {
    popped := [];
    var x: T;
    match op {
      case TryPushOp(v) =>
        s := ch.TryPush(v);
      case PushWaitForOp(v) =>
        s := ch.PushWaitFor(v);
      case PushOp(v) =>
        s := ch.Push(v);
      case TryPopOp =>
        s, x := ch.TryPop(init);
        if s == Success {
          popped := [x];
        }
      case PopWaitForOp =>
        s, x := ch.PopWaitFor(init);
        if s == Success {
          popped := [x];
        }
      case PopOp =>
        s, x := ch.Pop(init);
        if s == Success {
          popped := [x];
        }
      case CloseOp =>
        ch.Close();
        s := Success;
    }
  }

  /** Every `push` and `pop` in `ops` is made once its wait has returned, in
      the state the calls before it leave. */
  ghost predicate Waited<T>(capacity: nat, ops: seq<Op<T>>)
    requires capacity >= 1
  {
    forall i :: 0 <= i < |ops| ==> Ready(ops[i], Run(capacity, ops[..i]).held, Run(capacity, ops[..i]).closed, capacity)
  }

  /** A prefix of the calls keeps its blocking calls' waits. */
  lemma WaitedPrefix<T>(capacity: nat, ops: seq<Op<T>>, n: nat)
    requires capacity >= 1 && n <= |ops| && Waited(capacity, ops)
    ensures Waited(capacity, ops[..n])
  {
    forall i | 0 <= i < n
      ensures Ready(ops[..n][i], Run(capacity, ops[..n][..i]).held, Run(capacity, ops[..n][..i]).closed, capacity)
    {
      assert ops[..n][..i] == ops[..i];
    }
  }

  /** The inductive step of `RunBlockingNoTimeout`, for the last call. */
  lemma NoTimeoutStep<T>(capacity: nat, ops: seq<Op<T>>)
    requires capacity >= 1 && ops != []
    requires forall j :: 0 <= j < |ops| - 1 && IsBlocking(ops[j]) ==> Run(capacity, ops[..|ops| - 1]).statuses[j] != Timeout
    requires Ready(ops[|ops| - 1], Run(capacity, ops[..|ops| - 1]).held, Run(capacity, ops[..|ops| - 1]).closed, capacity)
    ensures forall j :: 0 <= j < |ops| && IsBlocking(ops[j]) ==> Run(capacity, ops).statuses[j] != Timeout
  {
    var n := |ops| - 1;
    var t := Run(capacity, ops[..n]);
    assert Run(capacity, ops).statuses[..n] == t.statuses;
    forall j | 0 <= j < n && IsBlocking(ops[j])
      ensures Run(capacity, ops).statuses[j] != Timeout
    {
      assert Run(capacity, ops).statuses[j] == t.statuses[j];
    }
  }

  /** In the reference run, a `push` or `pop` made once its wait has returned
      never answers `Timeout`: it succeeds or finds the channel closed. */
  lemma {:induction false} RunBlockingNoTimeout<T>(capacity: nat, ops: seq<Op<T>>)
    requires capacity >= 1 && Waited(capacity, ops)
    ensures forall j :: 0 <= j < |ops| && IsBlocking(ops[j]) ==> Run(capacity, ops).statuses[j] != Timeout
    decreases |ops|
  {
    if ops != [] {
      var n := |ops| - 1;
      WaitedPrefix(capacity, ops, n);
      RunBlockingNoTimeout(capacity, ops[..n]);
      NoTimeoutStep(capacity, ops);
    }
  }

  /** One round of `Replay`'s loop: call `i` on `ch` extends the reference
      run of the calls before it by that call. */
  method ReplayStep<T(0)>(ch: Channel<T>, ops: seq<Op<T>>, i: nat, init: T, statuses: seq<Status>, delivered: seq<T>)
    returns (statuses': seq<Status>, delivered': seq<T>)
    requires ch.Valid() && ch.capacity >= 1 && i < |ops|
    requires Run(ch.capacity, ops[..i]) == Trace(statuses, delivered, ch.Contents, ch.closed)
    requires Ready(ops[i], ch.Contents, ch.closed, ch.capacity)
    modifies ch, ch.slots
    ensures ch.Valid()
    ensures Run(ch.capacity, ops[..i + 1]) == Trace(statuses', delivered', ch.Contents, ch.closed)
  {
    RunLast(ch.capacity, ops[..i], ops[i]);
    assert ops[..i] + [ops[i]] == ops[..i + 1];
    var s, popped := Apply(ch, ops[i], init);
    statuses' := statuses + [s];
    delivered' := delivered + popped;
  }

  /** FIFO under any order of calls: running any sequence of calls on a new
      channel and then draining it with `try_pop`, the statuses the calls
      returned and the values they popped (`statuses`, `delivered`) and the
      values drained afterwards (`left`) are those of the reference run
      `Run`. The link to the class is `Apply`, which proves that each call
      has the outcome of `Step`; the loop carries that over to the whole run.
      Hence the values popped during the run followed by those drained are
      exactly the values whose push succeeded, in push order; fewer than
      `capacity` were left; after a `close`, every push answers `Closed`; and
      no `push` or `pop` answers `Timeout`. Since every operation runs under
      the channel's mutex, this covers every interleaving of calls to
      `try_push`, `push_wait_for`, `push`, `try_pop`, `pop_wait_for`, `pop`
      and `close`, each blocking call taken once its wait has returned.
      `init` is what the consumer's variable holds before a pop. */
  method Replay<T(0)>(capacity: SizeT, ops: seq<Op<T>>, init: T)
    returns (statuses: seq<Status>, delivered: seq<T>, left: seq<T>)
    requires !Rejected(capacity) && Waited(capacity, ops)
    ensures statuses == Run(capacity, ops).statuses
    ensures delivered == Run(capacity, ops).delivered
    ensures left == Run(capacity, ops).held
    ensures Accepted(ops, statuses) == delivered + left
    ensures |left| < capacity
    ensures forall i, j :: 0 <= i < j < |ops| && ops[i].CloseOp? && IsPush(ops[j]) ==> statuses[j] == Closed
    ensures forall j :: 0 <= j < |ops| && IsBlocking(ops[j]) ==> statuses[j] != Timeout
  {
    var ch := new Channel<T>(capacity);
    statuses, delivered := [], [];
    var i := 0;
    while i < |ops|
      invariant 0 <= i <= |ops|
      invariant ch.Valid() && ch.capacity == capacity && fresh(ch.slots)
      invariant Run(capacity, ops[..i]) == Trace(statuses, delivered, ch.Contents, ch.closed)
    {
      statuses, delivered := ReplayStep(ch, ops, i, init, statuses, delivered);
      i := i + 1;
    }
    assert ops[..|ops|] == ops;
    left := Drain(ch, init);
    RunFifo(capacity, ops);
    RunPushAfterClose(capacity, ops);
    RunBlockingNoTimeout(capacity, ops);
  }

  /** `try_pop` until it stops succeeding: hands out everything held. */
  method Drain<T(0)>(ch: Channel<T>, init: T) returns (out: seq<T>)
    requires ch.Valid()
    modifies ch
    ensures ch.Valid()
    ensures out == old(ch.Contents) && ch.Contents == []
  {
    out := [];
    var more := true;
    while more
      invariant ch.Valid()
      invariant out + ch.Contents == old(ch.Contents)
      invariant !more ==> ch.Contents == []
      decreases |ch.Contents|, more
    {
      var s, x := ch.TryPop(init);
      if s == Success {
        out := out + [x];
      } else {
        more := false;
      }
    }
  }

  /** `try_push` every value of `xs`, in order, into an open channel with
      room for all of them: each push succeeds. */
  method Fill<T(0)>(ch: Channel<T>, xs: seq<T>)
    requires ch.Valid() && !ch.closed
    requires |ch.Contents| + |xs| < ch.capacity
    modifies ch, ch.slots
    ensures ch.Valid() && !ch.closed
    ensures ch.Contents == old(ch.Contents) + xs
  {
    var i := 0;
    while i < |xs|
      invariant 0 <= i <= |xs|
      invariant ch.Valid() && !ch.closed
      invariant ch.Contents == old(ch.Contents) + xs[..i]
    {
      var s := ch.TryPush(xs[i]);
      assert xs[..i + 1] == xs[..i] + [xs[i]];
      i := i + 1;
    }
    assert xs[..|xs|] == xs;
  }

  /** Pushing fewer than `capacity` values into a new channel and then
      popping until `try_pop` stops succeeding gives them back in the same
      order. */
  method PushAllThenPopAll<T(0)>(capacity: SizeT, xs: seq<T>, init: T) returns (ys: seq<T>)
    requires !Rejected(capacity) && |xs| < capacity
    ensures ys == xs
  {
    var ch := new Channel<T>(capacity);
    Fill(ch, xs);
    ys := Drain(ch, init);
  }

  /** A new channel takes exactly `capacity - 1` values before `try_push`
      reports `Full`; after one pop it takes one more. */
  method CapacityBound<T(0)>(capacity: SizeT, v: T)
    returns (accepted: nat, whenFull: Status, popped: Status, again: Status)
    requires !Rejected(capacity)
    ensures accepted == capacity - 1
    ensures whenFull == Full && popped == Success && again == Success
  {
    var ch := new Channel<T>(capacity);
    accepted := 0;
    whenFull := ch.TryPush(v);
    while whenFull == Success
      invariant ch.Valid() && ch.capacity == capacity && !ch.closed
      invariant whenFull == Success || whenFull == Full
      invariant |ch.Contents| == accepted + (if whenFull == Success then 1 else 0)
      invariant whenFull == Full ==> |ch.Contents| == capacity - 1
      decreases capacity - accepted
    {
      accepted := accepted + 1;
      whenFull := ch.TryPush(v);
    }
    var x;
    popped, x := ch.TryPop(v);
    again := ch.TryPush(v);
  }

  /** Two values pushed into a channel of capacity 4 that is then closed:
      further pushes answer `Closed`, but `try_pop` still hands out both
      values in order before it answers `Closed`. */
  method CloseDrains<T(0)>(a: T, b: T)
    returns (pushed: Status, s1: Status, x1: T, s2: Status, x2: T, s3: Status)
    ensures pushed == Closed
    ensures s1 == Success && x1 == a
    ensures s2 == Success && x2 == b
    ensures s3 == Closed
  {
    assert IsPowerOfTwo(4) by { assert IsPowerOfTwo(2); }
    var ch := new Channel<T>(4);
    var s := ch.TryPush(a);
    s := ch.TryPush(b);
    ch.Close();
    pushed := ch.PushWaitFor(a);
    var x3;
    s1, x1 := ch.TryPop(b);
    s2, x2 := ch.TryPop(a);
    s3, x3 := ch.TryPop(a);
  }

  /** On a closed channel that still holds a value, `pop` and `pop_wait_for`
      answer `Closed` and leave it in place, while `try_pop` hands it out. */
  method PopRefusesClosed<T(0)>(a: T, b: T)
    returns (popped: Status, timed: Status, tried: Status, x: T)
    ensures popped == Closed && timed == Closed
    ensures tried == Success && x == a
  {
    assert IsPowerOfTwo(2);
    var ch := new Channel<T>(2);
    var s := ch.TryPush(a);
    ch.Close();
    var y;
    popped, y := ch.Pop(b);
    timed, y := ch.PopWaitFor(b);
    tried, x := ch.TryPop(b);
  }
}
