/**
 From the capture callback to the codec: buffers go into the shipped queue, the audio loop takes
 them out, pads one with zeros when it notices that the silent flag changed, and frames them.
 A run starts at initialize and ends before stop.
 */
module AudioPipeline {
  import opened Arithmetic
  import opened Bytes
  import opened Fifo
  import opened Reframer
  import opened AvClock

  datatype Element = Element(data: seq<byte>, fake: bool)

  /** The audio queue, the framing and clock state, and the loop's own copy of the silent flag. */
  datatype Pipe = Pipe(ring: Ring<Element>, av: Av, silent: bool)

  datatype Event =
    | Capture(data: seq<byte>)
    | SilentTick
    | Iterate(isSilent: bool, videoPts: nat)

  function SilentElement(f: Format): Element
    requires f.Valid()
  {
    Element(Zeros(SilentBytes(f)), true)
  }

  predicate Resyncs(p: Pipe, e: Element, isSilent: bool) {
    p.silent != isSilent && e.fake != isSilent
  }

  /** The source clears a negative number of bytes when the padding is negative; such an iteration is not described. */
  predicate Legal(f: Format, p: Pipe, event: Event)
    requires f.Valid()
  {
    event.Iterate? ==>
      var item := ShippedStep(p.ring, Dequeue).1.item;
      item.Some? && Resyncs(p, item.value, event.isSilent) ==>
        Paddable(f, |item.value.data|, event.videoPts, p.av.framer.pts)
  }

  function Padding(f: Format, p: Pipe, e: Element, isSilent: bool, videoPts: nat): nat
    requires f.Valid()
    requires Resyncs(p, e, isSilent) ==> Paddable(f, |e.data|, videoPts, p.av.framer.pts)
  {
    if Resyncs(p, e, isSilent) then PaddedSize(f, |e.data|, videoPts, p.av.framer.pts) - |e.data| else 0
  }

  function PipeStep(f: Format, silentAt: nat -> bool, p: Pipe, event: Event): Pipe
    requires f.Valid() && Legal(f, p, event)
  {
    match event
    case Capture(data) => p.(ring := ShippedStep(p.ring, Enqueue(Element(data, false))).0)
    case SilentTick => p.(ring := ShippedStep(p.ring, Enqueue(SilentElement(f))).0)
    case Iterate(isSilent, videoPts) =>
      var (ring, reply) := ShippedStep(p.ring, Dequeue);
      if reply.item.None? then p
      else
        var e := reply.item.value;
        var data := e.data + Zeros(Padding(f, p, e, isSilent, videoPts));
        Pipe(ring, FeedAv(f, p.av, data, silentAt), if Resyncs(p, e, isSilent) then isSilent else p.silent)
  }

  /** The input an event offers to the queue. */
  function Offered(f: Format, event: Event): Option<Element>
    requires f.Valid()
  {
    match event
    case Capture(data) => Some(Element(data, false))
    case SilentTick => Some(SilentElement(f))
    case Iterate(_, _) => None
  }

  /** A pipeline with its history: every element enqueue acknowledged, and the padding of each one taken out. */
  datatype Trace = Trace(pipe: Pipe, accepted: seq<Element>, pads: seq<nat>)

  function TraceStep(f: Format, silentAt: nat -> bool, t: Trace, event: Event): Trace
    requires f.Valid() && Legal(f, t.pipe, event)
  {
    var pipe := PipeStep(f, silentAt, t.pipe, event);
    match Offered(f, event)
    case Some(x) =>
      var msg := ShippedStep(t.pipe.ring, Enqueue(x)).1.msg;
      Trace(pipe, if msg == Success then t.accepted + [x] else t.accepted, t.pads)
    case None =>
      var item := ShippedStep(t.pipe.ring, Dequeue).1.item;
      Trace(pipe, t.accepted,
            if item.Some? then t.pads + [Padding(f, t.pipe, item.value, event.isSilent, event.videoPts)] else t.pads)
  }

  ghost predicate Initial(t: Trace) {
    && t.accepted == [] && t.pads == [] && t.pipe.av == AV_INITIAL
    && t.pipe.ring.front == 0 && t.pipe.ring.q.items == []
  }

  /** ts is a run: the state before the first event, then the state after each. */
  ghost predicate IsRun(f: Format, silentAt: nat -> bool, ts: seq<Trace>, events: seq<Event>)
    requires f.Valid()
  {
    && |ts| == |events| + 1
    && Initial(ts[0])
    && forall i :: 0 <= i < |events| ==>
         Legal(f, ts[i].pipe, events[i]) && ts[i + 1] == TraceStep(f, silentAt, ts[i], events[i])
  }

  /** Some event of the run enqueues while front is 0 and rear is maxsize. */
  ghost predicate LosesElements(f: Format, ts: seq<Trace>, events: seq<Event>)
    requires f.Valid() && |ts| == |events| + 1
  {
    exists i :: 0 <= i < |events| && Loses(f, ts[i], events[i])
  }

  ghost predicate Loses(f: Format, t: Trace, event: Event)
    requires f.Valid()
  {
    Offered(f, event).Some? && BlindEnqueue(t.pipe.ring, Enqueue(Offered(f, event).value))
  }

  /** The elements taken out, each followed by its padding. */
  function Weave(taken: seq<Element>, pads: seq<nat>): seq<byte>
    requires |taken| == |pads|
  {
    if taken == [] then []
    else
      var n := |taken| - 1;
      Weave(taken[..n], pads[..n]) + (taken[n].data + Zeros(pads[n]))
  }

  /** The accepted elements are those taken out, then those queued; the bytes taken out are framed, then carried. */
  ghost predicate Conserved(t: Trace) {
    && |t.pads| <= |t.accepted|
    && t.accepted[|t.pads|..] == t.pipe.ring.q.items
    && FrameBytes(t.pipe.av.framer.sent) + t.pipe.av.framer.carry == Weave(t.accepted[..|t.pads|], t.pads)
  }

  ghost predicate Short(t: Trace) {
    |t.pads| + |t.pipe.ring.q.items| < |t.accepted|
  }

  lemma StepKeepsConserved(f: Format, silentAt: nat -> bool, t: Trace, event: Event)
    requires f.Valid() && Legal(f, t.pipe, event)
    requires ValidRing(t.pipe.ring) && Conserved(t) && !Loses(f, t, event)
    ensures Conserved(TraceStep(f, silentAt, t, event))
  {
    match Offered(f, event)
    case Some(x) => OfferKeepsConserved(f, silentAt, t, event, x);
    case None => IterateKeepsConserved(f, silentAt, t, event);
  }

  lemma OfferKeepsConserved(f: Format, silentAt: nat -> bool, t: Trace, event: Event, x: Element)
    requires f.Valid() && Legal(f, t.pipe, event) && Offered(f, event) == Some(x)
    requires ValidRing(t.pipe.ring) && Conserved(t) && !Loses(f, t, event)
    ensures Conserved(TraceStep(f, silentAt, t, event))
  {
    var t' := TraceStep(f, silentAt, t, event);
    ShippedStepDeparture(t.pipe.ring, Enqueue(x));
    if ShippedStep(t.pipe.ring, Enqueue(x)).1.msg == Success {
      assert t'.accepted[|t.pads|..] == t.accepted[|t.pads|..] + [x];
      assert t'.accepted[..|t.pads|] == t.accepted[..|t.pads|];
    }
  }

  lemma IterateKeepsConserved(f: Format, silentAt: nat -> bool, t: Trace, event: Event)
    requires f.Valid() && Legal(f, t.pipe, event) && event.Iterate?
    requires ValidRing(t.pipe.ring) && Conserved(t)
    ensures Conserved(TraceStep(f, silentAt, t, event))
  {
    var item := ShippedStep(t.pipe.ring, Dequeue).1.item;
    if item.Some? {
      var e := item.value;
      var pad := Padding(f, t.pipe, e, event.isSilent, event.videoPts);
      var data := e.data + Zeros(pad);
      CopiesAgree(f, t.pipe.av, data, silentAt);
      FeedConserves(f, t.pipe.av.framer, data);
      PrefixSnoc(t.accepted, |t.pads|);
      WeaveSnoc(t.accepted[..|t.pads|], t.pads, e, pad);
    }
  }

  lemma PrefixSnoc(accepted: seq<Element>, n: nat)
    requires n < |accepted|
    ensures accepted[..n + 1] == accepted[..n] + [accepted[n]]
    ensures accepted[n..][0] == accepted[n] && accepted[n..][1..] == accepted[n + 1..]
  {
  }

  lemma WeaveSnoc(taken: seq<Element>, pads: seq<nat>, e: Element, pad: nat)
    requires |taken| == |pads|
    ensures Weave(taken + [e], pads + [pad]) == Weave(taken, pads) + (e.data + Zeros(pad))
  {
    var all, more := taken + [e], pads + [pad];
    assert all[..|taken|] == taken && more[..|taken|] == pads && all[|taken|] == e && more[|taken|] == pad;
  }

  lemma StepKeepsShort(f: Format, silentAt: nat -> bool, t: Trace, event: Event)
    requires f.Valid() && Legal(f, t.pipe, event) && ValidRing(t.pipe.ring)
    ensures Short(t) ==> Short(TraceStep(f, silentAt, t, event))
    ensures Conserved(t) && Loses(f, t, event) ==> Short(TraceStep(f, silentAt, t, event))
  {
    if Offered(f, event).Some? {
      ShippedStepDeparture(t.pipe.ring, Enqueue(Offered(f, event).value));
    }
  }

  lemma StepKeepsRing(f: Format, silentAt: nat -> bool, t: Trace, event: Event)
    requires f.Valid() && Legal(f, t.pipe, event) && ValidRing(t.pipe.ring)
    ensures ValidRing(TraceStep(f, silentAt, t, event).pipe.ring)
  {
    match Offered(f, event)
    case Some(x) => ShippedStepDeparture(t.pipe.ring, Enqueue(x));
    case None => ShippedStepDeparture(t.pipe.ring, Dequeue);
  }

  lemma StepKeepsClock(f: Format, silentAt: nat -> bool, t: Trace, event: Event)
    requires f.Valid() && Legal(f, t.pipe, event) && InSync(f, t.pipe.av, silentAt)
    ensures InSync(f, TraceStep(f, silentAt, t, event).pipe.av, silentAt)
  {
    if event.Iterate? {
      var item := ShippedStep(t.pipe.ring, Dequeue).1.item;
      if item.Some? {
        var pad := Padding(f, t.pipe, item.value, event.isSilent, event.videoPts);
        FeedKeepsSync(f, t.pipe.av, item.value.data + Zeros(pad), silentAt);
      }
    }
  }

  /** Over every run frames, pts and video requests are in step. */
  lemma {:induction false} RunInStep(f: Format, silentAt: nat -> bool, ts: seq<Trace>, events: seq<Event>)
    requires f.Valid() && IsRun(f, silentAt, ts, events)
    ensures ValidRing(ts[|events|].pipe.ring)
    ensures InSync(f, ts[|events|].pipe.av, silentAt)
    decreases |events|
  {
    if events == [] {
      InitiallyInSync(f, silentAt);
    } else {
      var n := |events| - 1;
      RunInStep(f, silentAt, ts[..n + 1], events[..n]);
      StepKeepsRing(f, silentAt, ts[n], events[n]);
      StepKeepsClock(f, silentAt, ts[n], events[n]);
    }
  }

  lemma LosesNext(f: Format, ts: seq<Trace>, events: seq<Event>, n: nat)
    requires f.Valid() && |ts| == |events| + 1 && |events| == n + 1
    ensures LosesElements(f, ts, events) <==> LosesElements(f, ts[..n + 1], events[..n]) || Loses(f, ts[n], events[n])
  {
    if LosesElements(f, ts, events) && !Loses(f, ts[n], events[n]) {
      var i :| 0 <= i < |events| && Loses(f, ts[i], events[i]);
      assert Loses(f, ts[..n + 1][i], events[..n][i]);
    }
    if LosesElements(f, ts[..n + 1], events[..n]) {
      var i :| 0 <= i < n && Loses(f, ts[..n + 1][i], events[..n][i]);
      assert Loses(f, ts[i], events[i]);
    }
  }

  /**
   At the end of every run, hence after each of its events: the bytes are all accounted for iff no
   enqueue met the queue's blind spot.
   */
  lemma {:induction false} AudioIsConservedIff(f: Format, silentAt: nat -> bool, ts: seq<Trace>, events: seq<Event>)
    requires f.Valid() && IsRun(f, silentAt, ts, events)
    ensures Conserved(ts[|events|]) <==> !LosesElements(f, ts, events)
    ensures LosesElements(f, ts, events) ==> Short(ts[|events|])
    decreases |events|
  {
    if events != [] {
      var n := |events| - 1;
      AudioIsConservedIff(f, silentAt, ts[..n + 1], events[..n]);
      RunInStep(f, silentAt, ts[..n + 1], events[..n]);
      StepKeepsShort(f, silentAt, ts[n], events[n]);
      LosesNext(f, ts, events, n);
      if !LosesElements(f, ts, events) {
        StepKeepsConserved(f, silentAt, ts[n], events[n]);
      }
    }
  }

  /** In bytes: frames, then carry, then queue are the accepted buffers with the padding where it was inserted. */
  lemma AudioBytesEndToEnd(f: Format, silentAt: nat -> bool, ts: seq<Trace>, events: seq<Event>)
    requires f.Valid() && IsRun(f, silentAt, ts, events) && !LosesElements(f, ts, events)
    ensures var t := ts[|events|];
            |t.pads| + |t.pipe.ring.q.items| == |t.accepted|
            && var pads := t.pads + seq(|t.pipe.ring.q.items|, _ => 0);
               FrameBytes(t.pipe.av.framer.sent) + t.pipe.av.framer.carry + QueuedBytes(t.pipe.ring.q.items)
               == Weave(t.accepted, pads)
  {
    AudioIsConservedIff(f, silentAt, ts, events);
    var t := ts[|events|];
    var taken := t.accepted[..|t.pads|];
    WeaveQueued(taken, t.pads, t.pipe.ring.q.items);
    assert t.accepted == taken + t.pipe.ring.q.items;
  }

  function QueuedBytes(items: seq<Element>): seq<byte> {
    if items == [] then [] else QueuedBytes(items[..|items| - 1]) + items[|items| - 1].data
  }

  lemma {:induction false} WeaveQueued(taken: seq<Element>, pads: seq<nat>, items: seq<Element>)
    requires |taken| == |pads|
    ensures Weave(taken + items, pads + seq(|items|, _ => 0)) == Weave(taken, pads) + QueuedBytes(items)
    decreases |items|
  {
    var none := seq(|items|, _ => 0);
    if items == [] {
      assert taken + items == taken && pads + none == pads;
    } else {
      var m := |items| - 1;
      var all, n := taken + items, |taken| + m;
      WeaveQueued(taken, pads, items[..m]);
      assert all[..n] == taken + items[..m];
      assert (pads + none)[..n] == pads + seq(m, _ => 0);
      assert items[m].data + Zeros(0) == items[m].data;
    }
  }

  // ----- Which element is padded -----

  /** The iteration takes out the oldest queued element. */
  predicate Takes(t: Trace, event: Event) {
    event.Iterate? && !t.pipe.ring.q.stopped && t.pipe.ring.q.items != []
  }

  /** It takes out one that is not of the flag's kind: captured while the flag is silent, made up while it is not. */
  predicate TakesOld(t: Trace, event: Event, flag: bool) {
    Takes(t, event) && t.pipe.ring.q.items[0].fake == !flag
  }

  ghost predicate SeenOld(ts: seq<Trace>, events: seq<Event>, i: nat, n: nat, flag: bool)
    requires i <= n <= |events| < |ts|
  {
    exists k :: i <= k < n && TakesOld(ts[k], events[k], flag)
  }

  /** Bytes by which the video clock leads the audio clock, rounded down; none when it is behind. */
  function Lead(f: Format, videoPts: nat, audioPts: nat): int
    requires f.Valid()
  {
    var ticks := videoPts * f.rate - audioPts * f.fps;
    if ticks < 0 then 0 else f.audioBytes * ticks / f.fps
  }

  /** What one event does to queue, padding and the loop's copy of the flag. */
  lemma StepPads(f: Format, silentAt: nat -> bool, t: Trace, event: Event)
    requires f.Valid() && Legal(f, t.pipe, event) && ValidRing(t.pipe.ring)
    ensures var t' := TraceStep(f, silentAt, t, event);
            if !Takes(t, event) then t'.pads == t.pads && t'.pipe.silent == t.pipe.silent
            else
              && t'.pipe.ring.q.items == t.pipe.ring.q.items[1..]
              && if TakesOld(t, event, event.isSilent) && t.pipe.silent != event.isSilent
                 then t'.pads == t.pads + [Lead(f, event.videoPts, t.pipe.av.framer.pts)]
                      && t'.pipe.silent == event.isSilent
                 else t'.pads == t.pads + [0] && t'.pipe.silent == t.pipe.silent
  {
    if event.Iterate? {
      AnswersTell(t.pipe.ring, Dequeue);
      if Takes(t, event) {
        DequeueTakesFirst(t.pipe.ring);
        var e := t.pipe.ring.q.items[0];
        PaddedSizeIsExact(f, |e.data|, event.videoPts, t.pipe.av.framer.pts);
      }
    }
  }

  lemma DequeueTakesFirst(r: Ring<Element>)
    requires ValidRing(r) && !r.q.stopped && r.q.items != []
    ensures ShippedStep(r, Dequeue).1.item == Some(r.q.items[0])
    ensures ShippedStep(r, Dequeue).0.q.items == r.q.items[1..]
  {
    DequeuesDeliver(r, 1);
    var ops := Dequeues<Element>(1);
    assert ops[0] == Op.Dequeue && ops[1..] == [];
    assert ShippedReplies(r, ops)[0] == ShippedStep(r, Dequeue).1;
    assert ShippedRun(r, ops) == ShippedStep(r, Dequeue).0;
  }

  /** While the flag keeps its value, the loop's copy takes it with the first element that is not of its kind. */
  lemma {:induction false} FlagFollows(f: Format, silentAt: nat -> bool, ts: seq<Trace>, events: seq<Event>,
                                       i: nat, n: nat, flag: bool)
    requires f.Valid() && IsRun(f, silentAt, ts, events) && i <= n <= |events|
    requires forall k :: i <= k < n && events[k].Iterate? ==> events[k].isSilent == flag
    ensures ts[n].pipe.silent == if SeenOld(ts, events, i, n, flag) then flag else ts[i].pipe.silent
    decreases n
  {
    if i < n {
      var m := n - 1;
      FlagFollows(f, silentAt, ts, events, i, m, flag);
      RingAt(f, silentAt, ts, events, m);
      StepPads(f, silentAt, ts[m], events[m]);
      if SeenOld(ts, events, i, m, flag) {
        var k :| i <= k < m && TakesOld(ts[k], events[k], flag);
        assert SeenOld(ts, events, i, n, flag);
      }
    }
  }

  lemma RingAt(f: Format, silentAt: nat -> bool, ts: seq<Trace>, events: seq<Event>, n: nat)
    requires f.Valid() && IsRun(f, silentAt, ts, events) && n <= |events|
    ensures ValidRing(ts[n].pipe.ring) && InSync(f, ts[n].pipe.av, silentAt)
  {
    RunInStep(f, silentAt, ts[..n + 1], events[..n]);
  }

  /**
   On every run, while the flag keeps its value: the first element taken out that is not of its
   kind is padded by the lead of the video clock, if the loop's copy was behind the flag; every
   other one is framed as it is.
   */
  lemma FirstOldIsPadded(f: Format, silentAt: nat -> bool, ts: seq<Trace>, events: seq<Event>,
                         i: nat, n: nat, flag: bool)
    requires f.Valid() && IsRun(f, silentAt, ts, events) && i <= n < |events|
    requires forall k :: i <= k <= n && events[k].Iterate? ==> events[k].isSilent == flag
    requires Takes(ts[n], events[n])
    ensures var first :=
              ts[i].pipe.silent != flag && TakesOld(ts[n], events[n], flag) && !SeenOld(ts, events, i, n, flag);
            ts[n + 1].pads
            == ts[n].pads + [if first then Lead(f, events[n].videoPts, ts[n].pipe.av.framer.pts) else 0]
  {
    FlagFollows(f, silentAt, ts, events, i, n, flag);
    RingAt(f, silentAt, ts, events, n);
    StepPads(f, silentAt, ts[n], events[n]);
  }

  /**
   With that element the bytes framed and carried come to the video time in bytes, rounded down,
   plus what had been carried and the element itself, unless video is behind.
   */
  lemma FirstOldMeetsVideo(f: Format, silentAt: nat -> bool, ts: seq<Trace>, events: seq<Event>,
                           i: nat, n: nat, flag: bool)
    requires f.Valid() && IsRun(f, silentAt, ts, events) && i <= n < |events|
    requires forall k :: i <= k <= n && events[k].Iterate? ==> events[k].isSilent == flag
    requires ts[i].pipe.silent != flag && TakesOld(ts[n], events[n], flag) && !SeenOld(ts, events, i, n, flag)
    requires VideoNotBehind(f, events[n].videoPts, ts[n].pipe.av.framer.pts)
    ensures var before, after := ts[n].pipe.av.framer, ts[n + 1].pipe.av.framer;
            |FrameBytes(after.sent)| + |after.carry|
            == f.audioBytes * (events[n].videoPts * f.rate) / f.fps + |before.carry| + |ts[n].pipe.ring.q.items[0].data|
    ensures ts[n + 1].pipe.silent == flag
  {
    FirstOldIsPadded(f, silentAt, ts, events, i, n, flag);
    FlagFollows(f, silentAt, ts, events, i, n, flag);
    RingAt(f, silentAt, ts, events, n);
    StepPads(f, silentAt, ts[n], events[n]);
    var before, e, videoPts := ts[n].pipe.av.framer, ts[n].pipe.ring.q.items[0], events[n].videoPts;
    FedLength(f, silentAt, ts[n], events[n], ts[n + 1]);
    ResyncMeetsVideo(f, before, |e.data|, videoPts);
  }

  /** An iteration frames the element it takes and its padding. */
  lemma FedLength(f: Format, silentAt: nat -> bool, t: Trace, event: Event, t': Trace)
    requires f.Valid() && Legal(f, t.pipe, event) && ValidRing(t.pipe.ring) && Takes(t, event)
    requires t' == TraceStep(f, silentAt, t, event)
    ensures |t'.pads| == |t.pads| + 1
    ensures |FrameBytes(t'.pipe.av.framer.sent)| + |t'.pipe.av.framer.carry|
            == |FrameBytes(t.pipe.av.framer.sent)| + |t.pipe.av.framer.carry|
               + |t.pipe.ring.q.items[0].data| + t'.pads[|t.pads|]
  {
    DequeueTakesFirst(t.pipe.ring);
    var e := t.pipe.ring.q.items[0];
    var data := e.data + Zeros(t'.pads[|t.pads|]);
    CopiesAgree(f, t.pipe.av, data, silentAt);
    FeedConserves(f, t.pipe.av.framer, data);
  }

  /** With room in a running queue, a captured buffer goes in as it is, and a silent tick puts in 1/fps of zeros. */
  lemma OfferIsQueued(f: Format, silentAt: nat -> bool, t: Trace, event: Event)
    requires f.Valid() && ValidRing(t.pipe.ring) && !event.Iterate?
    requires !t.pipe.ring.q.stopped && |t.pipe.ring.q.items| < t.pipe.ring.q.capacity
    ensures var t', n := TraceStep(f, silentAt, t, event), |t.pipe.ring.q.items|;
            && |t'.pipe.ring.q.items| == n + 1 && t'.pipe.ring.q.items[..n] == t.pipe.ring.q.items
            && t'.accepted == t.accepted + [t'.pipe.ring.q.items[n]]
            && var e := t'.pipe.ring.q.items[n];
               if event.Capture? then e.data == event.data && !e.fake
               else e.fake && |e.data| * f.fps <= f.audioBytes * f.rate < (|e.data| + 1) * f.fps
                    && forall i :: 0 <= i < |e.data| ==> e.data[i] == 0
  {
    if event.Capture? {
      EnqueueHasRoom(t.pipe.ring, Element(event.data, false));
    } else {
      EnqueueHasRoom(t.pipe.ring, SilentElement(f));
      var total, per := f.audioBytes * f.rate, SilentBytes(f);
      assert total == f.fps * per + total % f.fps;
    }
  }

  // ----- Silent ticks over a run -----

  function FakeBytes(accepted: seq<Element>): nat {
    if accepted == [] then 0
    else
      var e := accepted[|accepted| - 1];
      FakeBytes(accepted[..|accepted| - 1]) + if e.fake then |e.data| else 0
  }

  /** The silent ticks among the first n events whose element enqueue acknowledged. */
  function TicksAccepted(ts: seq<Trace>, events: seq<Event>, n: nat): nat
    requires n <= |events| < |ts|
  {
    if n == 0 then 0
    else TicksAccepted(ts, events, n - 1) + if TickAccepted(ts[n - 1], events[n - 1], ts[n]) then 1 else 0
  }

  predicate TickAccepted(t: Trace, event: Event, t': Trace) {
    event.SilentTick? && |t'.accepted| > |t.accepted|
  }

  lemma {:induction false} FakeBytesOfTicks(f: Format, silentAt: nat -> bool, ts: seq<Trace>, events: seq<Event>,
                                            n: nat, size: nat)
    requires f.Valid() && IsRun(f, silentAt, ts, events) && n <= |events| && size == SilentBytes(f)
    ensures FakeBytes(ts[n].accepted) == TicksAccepted(ts, events, n) * size
  {
    if n > 0 {
      FakeBytesOfTicks(f, silentAt, ts, events, n - 1, size);
      FakeBytesStep(f, silentAt, ts[n - 1], events[n - 1], ts[n], size);
      MulStep(TicksAccepted(ts, events, n - 1), size);
    }
  }

  lemma FakeBytesStep(f: Format, silentAt: nat -> bool, t: Trace, event: Event, t': Trace, size: nat)
    requires f.Valid() && Legal(f, t.pipe, event) && t' == TraceStep(f, silentAt, t, event) && size == SilentBytes(f)
    ensures FakeBytes(t'.accepted) == FakeBytes(t.accepted) + if TickAccepted(t, event, t') then size else 0
  {
    if Offered(f, event).Some? && |t'.accepted| > |t.accepted| {
      assert t'.accepted[..|t.accepted|] == t.accepted;
    }
  }

  /**
   Over every run the silence of n accepted silent ticks falls short of the time they stand for,
   counted in 1/fps of a byte, by less than n bytes; by nothing iff fps divides.
   */
  lemma SilenceDriftsOverRun(f: Format, silentAt: nat -> bool, ts: seq<Trace>, events: seq<Event>)
    requires f.Valid() && IsRun(f, silentAt, ts, events) && TicksAccepted(ts, events, |events|) > 0
    ensures var n := TicksAccepted(ts, events, |events|);
            var short := n * (f.audioBytes * f.rate) - FakeBytes(ts[|events|].accepted) * f.fps;
            0 <= short < n * f.fps && (short == 0 <==> (f.audioBytes * f.rate) % f.fps == 0)
  {
    FakeBytesOfTicks(f, silentAt, ts, events, |events|, SilentBytes(f));
    SilentDrift(f, TicksAccepted(ts, events, |events|));
  }

  // ----- From one stream to the next -----

  /** While stopped, whatever is tried short of clear and start leaves the ring alone. */
  lemma {:induction false} StoppedRingIsFrozen(r: Ring<Element>, ops: seq<Op<Element>>)
    requires r.q.stopped && forall op :: op in ops ==> op.Enqueue? || op.Dequeue? || op.Stop?
    ensures ShippedRun(r, ops) == r
    decreases |ops|
  {
    if ops != [] {
      assert ops[0] in ops;
      assert ShippedStep(r, ops[0]).0 == r;
      StoppedRingIsFrozen(r, ops[1..]);
    }
  }

  /**
   stop, the clear of the loop that sees it, and the start of the next loop, with any enqueues and
   dequeues tried before and after the clear, give the next stream the state a run starts from.
   */
  lemma RestartIsInitial(r: Ring<Element>, before: seq<Op<Element>>, after: seq<Op<Element>>, silent: bool)
    requires forall op :: op in before + after ==> op.Enqueue? || op.Dequeue? || op.Stop?
    ensures var stopped := ShippedRun(ShippedStep(r, Op.Stop).0, before);
            var cleared := ShippedRun(ShippedStep(stopped, Op.Clear).0, after);
            Initial(Trace(Pipe(ShippedStep(cleared, Op.Start).0, AV_INITIAL, silent), [], []))
  {
    assert forall op :: op in before ==> op in before + after;
    assert forall op :: op in after ==> op in before + after;
    var stopped := ShippedStep(r, Op.Stop).0;
    StoppedRingIsFrozen(stopped, before);
    StoppedRingIsFrozen(ShippedStep(stopped, Op.Clear).0, after);
  }
}
