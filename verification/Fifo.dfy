/**
 The bounded first-in first-out queue that EncoderCQ stands for, as a step function on values,
 and the queue that EncoderCQ really is once its full test is taken as written.
 Both are total: a dequeue that would have to wait answers Blocked and changes nothing.
 */
module Fifo {
  import opened Bytes

  datatype Msg = Success | Stopped | NoElement | Full | Blocked | Done

  datatype Op<T> = Enqueue(x: T) | Dequeue | Clear | Start | Stop

  datatype Reply<T> = Reply(msg: Msg, item: Option<T>)

  datatype Queue<T> = Queue(capacity: nat, items: seq<T>, stopped: bool, waits: bool)

  /** One operation on the intended queue. */
  function Step<T>(q: Queue<T>, op: Op<T>): (Queue<T>, Reply<T>) {
    match op
    case Enqueue(x) =>
      if q.stopped then (q, Reply(Stopped, None))
      else if |q.items| >= q.capacity then (q, Reply(Full, None))
      else (q.(items := q.items + [x]), Reply(Success, None))
    case Dequeue =>
      if q.items == [] && !q.waits then (q, Reply(NoElement, None))
      else if q.stopped then (q, Reply(Stopped, None))
      else if q.items == [] then (q, Reply(Blocked, None))
      else (q.(items := q.items[1..]), Reply(Success, Some(q.items[0])))
    case Clear => (q.(items := []), Reply(Done, None))
    case Start => (q.(stopped := false), Reply(Done, None))
    case Stop => (q.(stopped := true), Reply(Done, None))
  }

  function Run<T>(q: Queue<T>, ops: seq<Op<T>>): Queue<T>
    decreases |ops|
  {
    if ops == [] then q else Run(Step(q, ops[0]).0, ops[1..])
  }

  function Replies<T>(q: Queue<T>, ops: seq<Op<T>>): seq<Reply<T>>
    decreases |ops|
  {
    if ops == [] then [] else [Step(q, ops[0]).1] + Replies(Step(q, ops[0]).0, ops[1..])
  }

  /** The input an operation answered with Success put into the queue. */
  function Taken<T>(op: Op<T>, reply: Reply<T>): seq<T> {
    if op.Enqueue? && reply.msg == Success then [op.x] else []
  }

  /** The inputs a run answered Success to, in order; read off operations and replies only. */
  function Accepted<T>(ops: seq<Op<T>>, replies: seq<Reply<T>>): seq<T>
    requires |ops| == |replies|
  {
    if ops == [] then [] else Taken(ops[0], replies[0]) + Accepted(ops[1..], replies[1..])
  }

  /** What leaves the queue: handed to a consumer, or released by clear. */
  datatype Departure<T> = Delivered(x: T) | Dropped(x: T)

  function Leaving<T>(q: Queue<T>, op: Op<T>): seq<Departure<T>> {
    var reply := Step(q, op).1;
    if reply.item.Some? then [Delivered(reply.item.value)]
    else if op.Clear? then DropAll(q.items)
    else []
  }

  function Departures<T>(q: Queue<T>, ops: seq<Op<T>>): seq<Departure<T>>
    decreases |ops|
  {
    if ops == [] then [] else Leaving(q, ops[0]) + Departures(Step(q, ops[0]).0, ops[1..])
  }

  function DropAll<T>(items: seq<T>): seq<Departure<T>> {
    seq(|items|, i requires 0 <= i < |items| => Dropped(items[i]))
  }

  function Values<T>(ds: seq<Departure<T>>): seq<T> {
    seq(|ds|, i requires 0 <= i < |ds| => ds[i].x)
  }

  /** The values handed to consumers, read off the replies only. */
  function Outputs<T>(replies: seq<Reply<T>>): seq<T> {
    if replies == [] then []
    else (if replies[0].item.Some? then [replies[0].item.value] else []) + Outputs(replies[1..])
  }

  function DeliveredOnly<T>(ds: seq<Departure<T>>): seq<T> {
    if ds == [] then []
    else (if ds[0].Delivered? then [ds[0].x] else []) + DeliveredOnly(ds[1..])
  }

  lemma {:induction false} RepliesLength<T>(q: Queue<T>, ops: seq<Op<T>>)
    ensures |Replies(q, ops)| == |ops|
    decreases |ops|
  {
    if ops != [] {
      RepliesLength(Step(q, ops[0]).0, ops[1..]);
    }
  }

  /**
   Over any run, everything held at the start and everything accepted leaves exactly once and in
   order, or is still held at the end; never more than the capacity is held.
   */
  lemma {:induction false} FirstInFirstOut<T>(q: Queue<T>, ops: seq<Op<T>>)
    requires |q.items| <= q.capacity
    ensures |Replies(q, ops)| == |ops|
    ensures q.items + Accepted(ops, Replies(q, ops)) == Values(Departures(q, ops)) + Run(q, ops).items
    ensures |Run(q, ops).items| <= q.capacity == Run(q, ops).capacity
    decreases |ops|
  {
    RepliesLength(q, ops);
    if ops != [] {
      var (q', reply) := Step(q, ops[0]);
      StepConserves(q, ops[0]);
      FirstInFirstOut(q', ops[1..]);
      assert Replies(q, ops)[1..] == Replies(q', ops[1..]);
      var inputs, more := Taken(ops[0], reply), Accepted(ops[1..], Replies(q', ops[1..]));
      var now, rest := Leaving(q, ops[0]), Departures(q', ops[1..]);
      ValuesAppend(now, rest);
      assert Departures(q, ops) == now + rest && Accepted(ops, Replies(q, ops)) == inputs + more;
      Regroup(q.items, inputs, Values(now), q'.items, more, Values(rest), Run(q', ops[1..]).items);
    }
  }

  lemma Regroup<T>(held: seq<T>, inputs: seq<T>, now: seq<T>, held': seq<T>, more: seq<T>, rest: seq<T>, end: seq<T>)
    requires held + inputs == now + held' && held' + more == rest + end
    ensures held + (inputs + more) == (now + rest) + end
  {
    assert held + (inputs + more) == (held + inputs) + more;
    assert (now + held') + more == now + (held' + more);
  }

  lemma StepConserves<T>(q: Queue<T>, op: Op<T>)
    requires |q.items| <= q.capacity
    ensures var (q', reply) := Step(q, op);
            q.items + Taken(op, reply) == Values(Leaving(q, op)) + q'.items
            && |q'.items| <= q'.capacity == q.capacity
  {
    if Step(q, op).1.item.Some? {
      assert q.items == [q.items[0]] + q.items[1..];
    } else if op.Clear? {
      assert Values(DropAll(q.items)) == q.items;
    }
  }

  lemma ValuesAppend<T>(a: seq<Departure<T>>, b: seq<Departure<T>>)
    ensures Values(a + b) == Values(a) + Values(b)
  {
  }

  /** The delivered departures are exactly the outputs the consumers saw. */
  lemma {:induction false} OutputsAreDelivered<T>(q: Queue<T>, ops: seq<Op<T>>)
    ensures Outputs(Replies(q, ops)) == DeliveredOnly(Departures(q, ops))
    decreases |ops|
  {
    if ops != [] {
      var (q', reply) := Step(q, ops[0]);
      OutputsAreDelivered(q', ops[1..]);
      var rest := Departures(q', ops[1..]);
      assert Replies(q, ops)[1..] == Replies(q', ops[1..]);
      if reply.item.Some? {
        assert Departures(q, ops)[1..] == rest;
      } else if ops[0].Clear? {
        DropsDeliverNothing(DropAll(q.items), rest);
      } else {
        assert Departures(q, ops) == rest;
      }
    }
  }

  lemma {:induction false} DropsDeliverNothing<T>(drops: seq<Departure<T>>, rest: seq<Departure<T>>)
    requires forall d :: d in drops ==> d.Dropped?
    ensures DeliveredOnly(drops + rest) == DeliveredOnly(rest)
  {
    if drops == [] {
      assert drops + rest == rest;
    } else {
      assert (drops + rest)[1..] == drops[1..] + rest;
      assert drops[0] in drops;
      DropsDeliverNothing(drops[1..], rest);
    }
  }

  /** Without a clear, the outputs followed by the held items are the held items followed by the accepted inputs. */
  lemma OutputsAreInputsInOrder<T>(q: Queue<T>, ops: seq<Op<T>>)
    requires |q.items| <= q.capacity
    requires Op.Clear !in ops
    ensures |Replies(q, ops)| == |ops|
    ensures q.items + Accepted(ops, Replies(q, ops)) == Outputs(Replies(q, ops)) + Run(q, ops).items
  {
    FirstInFirstOut(q, ops);
    OutputsAreDelivered(q, ops);
    NothingDropped(q, ops);
  }

  lemma {:induction false} NothingDropped<T>(q: Queue<T>, ops: seq<Op<T>>)
    requires Op.Clear !in ops
    ensures Values(Departures(q, ops)) == DeliveredOnly(Departures(q, ops))
    decreases |ops|
  {
    if ops != [] {
      var (q', reply) := Step(q, ops[0]);
      assert ops[0] in ops;
      NothingDropped(q', ops[1..]);
      var ds := Departures(q, ops);
      if reply.item.Some? {
        assert ds[1..] == Departures(q', ops[1..]);
        assert Values(ds) == [ds[0].x] + Values(ds[1..]);
      } else {
        assert ds == Departures(q', ops[1..]);
      }
    }
  }

  /** A stop/start pair loses and reorders nothing, whatever is tried in between short of clear. */
  lemma {:induction false} StopStartKeepsItems<T>(q: Queue<T>, ops: seq<Op<T>>)
    requires forall op :: op in ops ==> op.Enqueue? || op.Dequeue? || op.Stop?
    ensures Run(q, [Op.Stop] + ops + [Op.Start]) == q.(stopped := false)
    ensures Outputs(Replies(q, [Op.Stop] + ops + [Op.Start])) == []
  {
    StoppedIsFrozen(q.(stopped := true), ops);
    var all := [Op.Stop] + ops + [Op.Start];
    assert all[1..] == ops + [Op.Start];
    assert Replies(q, all)[1..] == Replies(q.(stopped := true), ops + [Op.Start]);
  }

  lemma {:induction false} StoppedIsFrozen<T>(q: Queue<T>, ops: seq<Op<T>>)
    requires q.stopped
    requires forall op :: op in ops ==> op.Enqueue? || op.Dequeue? || op.Stop?
    ensures Run(q, ops + [Op.Start]) == q.(stopped := false)
    ensures Outputs(Replies(q, ops + [Op.Start])) == []
  {
    var all := ops + [Op.Start];
    if ops == [] {
      assert all[1..] == [];
      assert Replies(q, all)[1..] == [];
    } else {
      assert ops[0] in ops;
      assert all[1..] == ops[1..] + [Op.Start];
      StoppedIsFrozen(q, ops[1..]);
      assert Step(q, ops[0]).0 == q;
      assert Replies(q, all)[1..] == Replies(q, all[1..]);
    }
  }

  // ----- The queue as shipped -----

  /** The held items together with the ring position the oldest of them follows. */
  datatype Ring<T> = Ring(front: nat, q: Queue<T>)

  function Rear<T>(r: Ring<T>): nat {
    var p := r.front + |r.q.items|;
    if p <= r.q.capacity then p else p - (r.q.capacity + 1)
  }

  ghost predicate ValidRing<T>(r: Ring<T>) {
    r.front <= r.q.capacity && |r.q.items| <= r.q.capacity
  }

  /** The index state in which the full test as written lets a full queue through. */
  predicate BlindSpot<T>(r: Ring<T>) {
    r.front == 0 && Rear(r) == r.q.capacity
  }

  function NextPosition(p: nat, capacity: nat): nat {
    if p == capacity then 0 else p + 1
  }

  /** One operation as EncoderCQ performs it: the full test is front == rear + 1, without wrap-around. */
  function ShippedStep<T>(r: Ring<T>, op: Op<T>): (Ring<T>, Reply<T>) {
    match op
    case Enqueue(x) =>
      if r.q.stopped then (r, Reply(Stopped, None))
      else if r.front == Rear(r) + 1 then (r, Reply(Full, None))
      else if NextPosition(Rear(r), r.q.capacity) == r.front then
        (r.(q := r.q.(items := [])), Reply(Success, None))
      else (r.(q := r.q.(items := r.q.items + [x])), Reply(Success, None))
    case Dequeue =>
      var (q', reply) := Step(r.q, Dequeue);
      (Ring(if reply.item.Some? then NextPosition(r.front, r.q.capacity) else r.front, q'), reply)
    case Clear => (Ring(0, r.q.(items := [])), Reply(Done, None))
    case Start => (r.(q := r.q.(stopped := false)), Reply(Done, None))
    case Stop => (r.(q := r.q.(stopped := true)), Reply(Done, None))
  }

  function ShippedRun<T>(r: Ring<T>, ops: seq<Op<T>>): Ring<T>
    decreases |ops|
  {
    if ops == [] then r else ShippedRun(ShippedStep(r, ops[0]).0, ops[1..])
  }

  function ShippedReplies<T>(r: Ring<T>, ops: seq<Op<T>>): seq<Reply<T>>
    decreases |ops|
  {
    if ops == [] then []
    else [ShippedStep(r, ops[0]).1] + ShippedReplies(ShippedStep(r, ops[0]).0, ops[1..])
  }

  predicate BlindEnqueue<T>(r: Ring<T>, op: Op<T>) {
    op.Enqueue? && !r.q.stopped && BlindSpot(r)
  }

  predicate HitsBlindSpot<T>(r: Ring<T>, ops: seq<Op<T>>)
    decreases |ops|
  {
    ops != [] && (BlindEnqueue(r, ops[0]) || HitsBlindSpot(ShippedStep(r, ops[0]).0, ops[1..]))
  }

  /**
   The full test as written and the intended one disagree in exactly one index state, where the
   queue is full; an enqueue there is acknowledged and every element, the new one included, is gone.
   */
  lemma ShippedStepDeparture<T>(r: Ring<T>, op: Op<T>)
    requires ValidRing(r)
    ensures ValidRing(ShippedStep(r, op).0)
    ensures (r.front == Rear(r) + 1) != (|r.q.items| == r.q.capacity) <==> BlindSpot(r)
    ensures BlindSpot(r) ==> |r.q.items| == r.q.capacity
    ensures BlindEnqueue(r, op) ==>
              ShippedStep(r, op) == (r.(q := r.q.(items := [])), Reply(Success, None))
              && Step(r.q, op) == (r.q, Reply(Full, None))
    ensures !BlindEnqueue(r, op) ==>
              ShippedStep(r, op).0.q == Step(r.q, op).0 && ShippedStep(r, op).1 == Step(r.q, op).1
  {
    if op.Enqueue? && !r.q.stopped {
      assert |r.q.items| == r.q.capacity <==> NextPosition(Rear(r), r.q.capacity) == r.front;
    }
  }

  /** A run of the shipped queue answers like the bounded FIFO iff it never enqueues in the blind spot. */
  lemma {:induction false} ShippedRefinesIff<T>(r: Ring<T>, ops: seq<Op<T>>)
    requires ValidRing(r)
    ensures ShippedReplies(r, ops) == Replies(r.q, ops) <==> !HitsBlindSpot(r, ops)
    ensures !HitsBlindSpot(r, ops) ==> ShippedRun(r, ops).q == Run(r.q, ops)
    ensures ValidRing(ShippedRun(r, ops))
    decreases |ops|
  {
    if ops != [] {
      ShippedStepDeparture(r, ops[0]);
      var (r', reply) := ShippedStep(r, ops[0]);
      ShippedRefinesIff(r', ops[1..]);
      var shipped, intended := ShippedReplies(r, ops), Replies(r.q, ops);
      assert shipped[0] == reply && intended[0] == Step(r.q, ops[0]).1;
      assert shipped[1..] == ShippedReplies(r', ops[1..]);
      if !BlindEnqueue(r, ops[0]) {
        assert intended[1..] == Replies(r'.q, ops[1..]);
      }
    }
  }

  /** The blind spot is reached from an empty queue by filling it: capacity + 1 enqueues are all accepted. */
  lemma {:induction false} FillingLosesEverything<T>(n: nat, held: seq<T>, xs: seq<T>, last: T)
    requires |held| + |xs| == n
    ensures var r := Ring(0, Queue(n, held, false, true));
            var ops := seq(|xs|, i requires 0 <= i < |xs| => Op.Enqueue(xs[i])) + [Op.Enqueue(last)];
            HitsBlindSpot(r, ops) && ShippedRun(r, ops).q.items == []
    decreases |xs|
  {
    var r := Ring(0, Queue(n, held, false, true));
    var ops := seq(|xs|, i requires 0 <= i < |xs| => Op.Enqueue(xs[i])) + [Op.Enqueue(last)];
    if xs == [] {
      assert ops[1..] == [];
      assert BlindEnqueue(r, ops[0]);
    } else {
      var rest := xs[1..];
      assert ops[1..] == seq(|rest|, i requires 0 <= i < |rest| => Op.Enqueue(rest[i])) + [Op.Enqueue(last)];
      assert ShippedStep(r, ops[0]).0 == Ring(0, Queue(n, held + [xs[0]], false, true));
      FillingLosesEverything(n, held + [xs[0]], rest, last);
    }
  }

  // ----- What a running queue does for its users -----

  /** n attempts to take an element. */
  function Dequeues<T>(n: nat): seq<Op<T>> {
    seq(n, _ => Op.Dequeue)
  }

  function Enqueues<T>(xs: seq<T>): seq<Op<T>> {
    seq(|xs|, i requires 0 <= i < |xs| => Op.Enqueue(xs[i]))
  }

  /** A running queue hands out what it holds, oldest first, and keeps the rest. */
  lemma {:induction false} DequeuesDeliver<T>(r: Ring<T>, n: nat)
    requires ValidRing(r) && !r.q.stopped && n <= |r.q.items|
    ensures var replies := ShippedReplies(r, Dequeues(n));
            |replies| == n && (forall i :: 0 <= i < n ==> replies[i] == Reply(Success, Some(r.q.items[i])))
    ensures Outputs(ShippedReplies(r, Dequeues(n))) == r.q.items[..n]
    ensures var r' := ShippedRun(r, Dequeues(n));
            ValidRing(r') && r'.q == r.q.(items := r.q.items[n..]) && Rear(r') == Rear(r)
    decreases n
  {
    if n > 0 {
      var (r', reply) := ShippedStep(r, Op<T>.Dequeue);
      var ops := Dequeues<T>(n);
      assert ops[0] == Op.Dequeue && ops[1..] == Dequeues(n - 1);
      DequeuesDeliver(r', n - 1);
      var replies := ShippedReplies(r, ops);
      assert replies[1..] == ShippedReplies(r', Dequeues(n - 1));
      assert r.q.items[..n] == [r.q.items[0]] + r.q.items[1..][..n - 1];
      assert r.q.items[n..] == r.q.items[1..][n - 1..];
    }
  }

  /** A running queue accepts elements up to its capacity, in order. */
  lemma {:induction false} EnqueuesAccepted<T>(r: Ring<T>, xs: seq<T>)
    requires ValidRing(r) && !r.q.stopped && |r.q.items| + |xs| <= r.q.capacity
    ensures var replies := ShippedReplies(r, Enqueues(xs));
            |replies| == |xs| && (forall i :: 0 <= i < |xs| ==> replies[i] == Reply(Success, None))
    ensures var r' := ShippedRun(r, Enqueues(xs));
            ValidRing(r') && r' == r.(q := r.q.(items := r.q.items + xs))
    decreases |xs|
  {
    if xs == [] {
      assert r.q.items + xs == r.q.items;
    } else {
      var (r', reply) := ShippedStep(r, Op.Enqueue(xs[0]));
      var ops := Enqueues(xs);
      assert ops[0] == Op.Enqueue(xs[0]) && ops[1..] == Enqueues(xs[1..]);
      EnqueueHasRoom(r, xs[0]);
      EnqueuesAccepted(r', xs[1..]);
      assert ShippedReplies(r, ops)[1..] == ShippedReplies(r', Enqueues(xs[1..]));
      assert r.q.items + [xs[0]] + xs[1..] == r.q.items + xs;
    }
  }

  lemma EnqueueHasRoom<T>(r: Ring<T>, x: T)
    requires ValidRing(r) && !r.q.stopped && |r.q.items| < r.q.capacity
    ensures ShippedStep(r, Op.Enqueue(x)) == (r.(q := r.q.(items := r.q.items + [x])), Reply(Success, None))
  {
    ShippedStepDeparture(r, Op.Enqueue(x));
  }

  /** What fits into a running queue comes out again behind what was there before. */
  lemma RoundTrip<T>(r: Ring<T>, xs: seq<T>)
    requires ValidRing(r) && !r.q.stopped && |r.q.items| + |xs| <= r.q.capacity
    ensures var r' := ShippedRun(r, Enqueues(xs));
            Outputs(ShippedReplies(r', Dequeues(|r.q.items| + |xs|))) == r.q.items + xs
  {
    EnqueuesAccepted(r, xs);
    var all := r.q.items + xs;
    DequeuesDeliver(r.(q := r.q.(items := all)), |all|);
    assert all[..|all|] == all;
  }

  /**
   What each answer tells: an element was put in or handed out iff the queue runs and has room, by
   the test as written, or an element; a refusal changes nothing and gives the reason.
   */
  lemma AnswersTell<T>(r: Ring<T>, op: Op<T>)
    requires ValidRing(r) && (op.Enqueue? || op.Dequeue?)
    ensures var (r', reply) := ShippedStep(r, op);
            && (reply.msg == Success <==>
                  !r.q.stopped && if op.Enqueue? then |r.q.items| < r.q.capacity || BlindSpot(r) else r.q.items != [])
            && (reply.item.Some? <==> op.Dequeue? && reply.msg == Success)
            && (reply.msg == Full <==> op.Enqueue? && !r.q.stopped && |r.q.items| == r.q.capacity && !BlindSpot(r))
            && (reply.msg == NoElement <==> op.Dequeue? && r.q.items == [] && !r.q.waits)
            && (reply.msg == Stopped <==> r.q.stopped && reply.msg != NoElement)
            && (reply.msg == Blocked <==> op.Dequeue? && r.q.items == [] && r.q.waits && !r.q.stopped)
            && (reply.msg != Success ==> r' == r)
  {
    ShippedStepDeparture(r, op);
  }

  // ----- Position 0, for which the source has no cell -----

  /** The operation writes or reads the element at position 0, index -1 of the source's array. */
  predicate TouchesZero<T>(r: Ring<T>, op: Op<T>) {
    match op
    case Enqueue(_) => ShippedStep(r, op).1.msg == Success && NextPosition(Rear(r), r.q.capacity) == 0
    case Dequeue => ShippedStep(r, op).1.item.Some? && NextPosition(r.front, r.q.capacity) == 0
    case _ => false
  }

  predicate RunTouchesZero<T>(r: Ring<T>, ops: seq<Op<T>>)
    decreases |ops|
  {
    ops != [] && (TouchesZero(r, ops[0]) || RunTouchesZero(ShippedStep(r, ops[0]).0, ops[1..]))
  }

  /** The most enqueues answered Success between two clears, k of them before the run. */
  function MostAccepted<T>(ops: seq<Op<T>>, replies: seq<Reply<T>>, k: nat): (n: nat)
    requires |ops| == |replies|
    ensures n >= k
  {
    if ops == [] then k
    else if ops[0].Clear? then
      var n := MostAccepted(ops[1..], replies[1..], 0);
      if n < k then k else n
    else MostAccepted(ops[1..], replies[1..], k + |Taken(ops[0], replies[0])|)
  }

  lemma {:induction false} ShippedRepliesLength<T>(r: Ring<T>, ops: seq<Op<T>>)
    ensures |ShippedReplies(r, ops)| == |ops|
    decreases |ops|
  {
    if ops != [] {
      ShippedRepliesLength(ShippedStep(r, ops[0]).0, ops[1..]);
    }
  }

  /** A run from the empty queue stays in the source's cells iff at most capacity enqueues succeed between clears. */
  lemma StaysInCellsIff<T>(q: Queue<T>, ops: seq<Op<T>>)
    requires q.items == []
    ensures |ShippedReplies(Ring(0, q), ops)| == |ops|
    ensures RunTouchesZero(Ring(0, q), ops) <==> MostAccepted(ops, ShippedReplies(Ring(0, q), ops), 0) > q.capacity
  {
    UnwrappedStaysInCellsIff(Ring(0, q), ops);
  }

  /** The same for a run that continues after rear enqueues without a wrap. */
  lemma {:induction false} UnwrappedStaysInCellsIff<T>(r: Ring<T>, ops: seq<Op<T>>)
    requires ValidRing(r) && r.front <= Rear(r)
    ensures |ShippedReplies(r, ops)| == |ops|
    ensures RunTouchesZero(r, ops) <==> MostAccepted(ops, ShippedReplies(r, ops), Rear(r)) > r.q.capacity
    decreases |ops|
  {
    ShippedRepliesLength(r, ops);
    if ops != [] {
      var (r', reply) := ShippedStep(r, ops[0]);
      var replies := ShippedReplies(r, ops);
      assert replies[0] == reply && replies[1..] == ShippedReplies(r', ops[1..]);
      UnwrappedStep(r, ops[0]);
      if !TouchesZero(r, ops[0]) {
        UnwrappedStaysInCellsIff(r', ops[1..]);
      } else {
        assert MostAccepted(ops, replies, Rear(r)) >= Rear(r) + 1;
      }
    }
  }

  lemma UnwrappedStep<T>(r: Ring<T>, op: Op<T>)
    requires ValidRing(r) && r.front <= Rear(r)
    ensures var (r', reply) := ShippedStep(r, op);
            if TouchesZero(r, op) then op.Enqueue? && Rear(r) == r.q.capacity && |Taken(op, reply)| == 1
            else ValidRing(r') && r'.q.capacity == r.q.capacity && r'.front <= Rear(r')
                 && Rear(r') == if op.Clear? then 0 else Rear(r) + |Taken(op, reply)|
  {
  }
}
