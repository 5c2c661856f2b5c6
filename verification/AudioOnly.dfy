/**
 The audio loop of image mode, where no video loop runs: while silent it makes up zeros and frames
 them right away, past the queue; otherwise it takes a buffer out and frames it, without padding and
 without a clock. Silence is framed by a thread of its own, so it may come at any point.
 */
module AudioOnly {
  import opened Arithmetic
  import opened Bytes
  import opened Fifo
  import opened Reframer
  import opened AvClock
  import opened AudioPipeline

  datatype Solo = Solo(ring: Ring<Element>, framer: Framer)

  datatype SoloEvent = Arrive(data: seq<byte>) | Silence | Take

  /** The element an event hands to the framing. */
  function Feeds(f: Format, s: Solo, event: SoloEvent): Option<Element>
    requires f.Valid()
  {
    match event
    case Arrive(_) => None
    case Silence => Some(SilentElement(f))
    case Take => ShippedStep(s.ring, Dequeue).1.item
  }

  function SoloStep(f: Format, s: Solo, event: SoloEvent): Solo
    requires f.Valid()
  {
    var ring := match event
      case Arrive(data) => ShippedStep(s.ring, Enqueue(Element(data, false))).0
      case Silence => s.ring
      case Take => ShippedStep(s.ring, Dequeue).0;
    match Feeds(f, s, event)
    case None => Solo(ring, s.framer)
    case Some(e) => Solo(ring, Feed(f, s.framer, e.data))
  }

  /**
   The loop with its history: the elements enqueue acknowledged, those framed, and the acknowledged
   ones and the silences in the order they came in.
   */
  datatype History = History(solo: Solo, accepted: seq<Element>, fed: seq<Element>, arrived: seq<Element>)

  function HistoryStep(f: Format, h: History, event: SoloEvent): History
    requires f.Valid()
  {
    var feeds := Feeds(f, h.solo, event);
    History(SoloStep(f, h.solo, event),
            if Acknowledged(h.solo, event) then h.accepted + [Element(event.data, false)] else h.accepted,
            if feeds.Some? then h.fed + [feeds.value] else h.fed,
            h.arrived + Arrival(f, h.solo, event))
  }

  function Arrival(f: Format, s: Solo, event: SoloEvent): seq<Element>
    requires f.Valid()
  {
    if event.Silence? then [SilentElement(f)]
    else if Acknowledged(s, event) then [Element(event.data, false)]
    else []
  }

  predicate Acknowledged(s: Solo, event: SoloEvent) {
    event.Arrive? && ShippedStep(s.ring, Enqueue(Element(event.data, false))).1.msg == Success
  }

  ghost predicate SoloInitial(h: History) {
    && h.accepted == [] && h.fed == [] && h.arrived == [] && h.solo.framer == INITIAL
    && h.solo.ring.front == 0 && h.solo.ring.q.items == []
  }

  ghost predicate IsSoloRun(f: Format, hs: seq<History>, events: seq<SoloEvent>)
    requires f.Valid()
  {
    && |hs| == |events| + 1
    && SoloInitial(hs[0])
    && forall i :: 0 <= i < |events| ==> hs[i + 1] == HistoryStep(f, hs[i], events[i])
  }

  predicate Overruns(h: History, event: SoloEvent) {
    event.Arrive? && BlindEnqueue(h.solo.ring, Enqueue(Element(event.data, false)))
  }

  /** What was captured among the framed elements. */
  function Captured(fed: seq<Element>): seq<Element> {
    if fed == [] then []
    else
      var e := fed[|fed| - 1];
      Captured(fed[..|fed| - 1]) + if e.fake then [] else [e]
  }

  lemma CapturedSnoc(fed: seq<Element>, e: Element)
    ensures Captured(fed + [e]) == Captured(fed) + if e.fake then [] else [e]
    ensures QueuedBytes(fed + [e]) == QueuedBytes(fed) + e.data
    ensures FakeBytes(fed + [e]) == FakeBytes(fed) + if e.fake then |e.data| else 0
  {
    assert (fed + [e])[..|fed|] == fed;
  }

  /** Leaving the silence out, the framed elements and then the queued ones are those accepted, in order. */
  ghost predicate SoloConserved(h: History) {
    Captured(h.fed) + h.solo.ring.q.items == h.accepted
  }

  ghost predicate SoloShort(h: History) {
    |Captured(h.fed)| + |h.solo.ring.q.items| < |h.accepted|
  }

  /** Only captured elements are queued; frames and then carry are the bytes of the framed elements. */
  ghost predicate SoloValid(f: Format, h: History) {
    && ValidRing(h.solo.ring) && Framed(f, h.solo.framer)
    && (forall e :: e in h.solo.ring.q.items ==> !e.fake)
    && FrameBytes(h.solo.framer.sent) + h.solo.framer.carry == QueuedBytes(h.fed)
  }

  lemma StepKeepsValid(f: Format, h: History, event: SoloEvent)
    requires f.Valid() && SoloValid(f, h)
    ensures SoloValid(f, HistoryStep(f, h, event))
  {
    match event
    case Arrive(data) => ShippedStepDeparture(h.solo.ring, Enqueue(Element(data, false)));
    case Silence => FeedingKeepsBytes(f, h, SilentElement(f));
    case Take =>
      ShippedStepDeparture(h.solo.ring, Dequeue);
      if Feeds(f, h.solo, event).Some? {
        FeedingKeepsBytes(f, h, h.solo.ring.q.items[0]);
      }
  }

  lemma FeedingKeepsBytes(f: Format, h: History, e: Element)
    requires f.Valid() && SoloValid(f, h)
    ensures var framer := Feed(f, h.solo.framer, e.data);
            Framed(f, framer) && FrameBytes(framer.sent) + framer.carry == QueuedBytes(h.fed + [e])
  {
    FeedCounts(f, h.solo.framer, e.data);
    FeedConserves(f, h.solo.framer, e.data);
    CapturedSnoc(h.fed, e);
  }

  lemma StepKeepsConserved(f: Format, h: History, event: SoloEvent)
    requires f.Valid() && SoloValid(f, h) && SoloConserved(h) && !Overruns(h, event)
    ensures SoloConserved(HistoryStep(f, h, event))
  {
    match event
    case Arrive(data) => ArriveKeepsConserved(f, h, data);
    case Silence => SilenceKeepsConserved(f, h);
    case Take => TakeKeepsConserved(f, h);
  }

  lemma SilenceKeepsConserved(f: Format, h: History)
    requires f.Valid() && SoloConserved(h)
    ensures SoloConserved(HistoryStep(f, h, Silence))
  {
    CapturedSnoc(h.fed, SilentElement(f));
  }

  lemma ArriveKeepsConserved(f: Format, h: History, data: seq<byte>)
    requires f.Valid() && ValidRing(h.solo.ring) && SoloConserved(h) && !Overruns(h, Arrive(data))
    ensures SoloConserved(HistoryStep(f, h, Arrive(data)))
  {
    var x, items := Element(data, false), h.solo.ring.q.items;
    ShippedStepDeparture(h.solo.ring, Enqueue(x));
    assert Captured(h.fed) + (items + [x]) == Captured(h.fed) + items + [x];
  }

  lemma TakeKeepsConserved(f: Format, h: History)
    requires f.Valid() && SoloConserved(h) && forall e :: e in h.solo.ring.q.items ==> !e.fake
    ensures SoloConserved(HistoryStep(f, h, Take))
  {
    if Feeds(f, h.solo, Take).Some? {
      CapturedMoves(h.fed, h.solo.ring.q.items);
    }
  }

  lemma CapturedMoves(fed: seq<Element>, items: seq<Element>)
    requires items != [] && !items[0].fake
    ensures Captured(fed + [items[0]]) + items[1..] == Captured(fed) + items
  {
    CapturedSnoc(fed, items[0]);
    FirstMoves(Captured(fed), items);
  }

  lemma FirstMoves(a: seq<Element>, items: seq<Element>)
    requires items != []
    ensures (a + [items[0]]) + items[1..] == a + items
  {
  }

  lemma StepKeepsShort(f: Format, h: History, event: SoloEvent)
    requires f.Valid() && SoloValid(f, h)
    ensures SoloShort(h) ==> SoloShort(HistoryStep(f, h, event))
    ensures SoloConserved(h) && Overruns(h, event) ==> SoloShort(HistoryStep(f, h, event))
  {
    match event
    case Arrive(data) => ShippedStepDeparture(h.solo.ring, Enqueue(Element(data, false)));
    case Silence => CapturedSnoc(h.fed, SilentElement(f));
    case Take => TakeKeepsShort(f, h);
  }

  lemma TakeKeepsShort(f: Format, h: History)
    requires f.Valid() && forall e :: e in h.solo.ring.q.items ==> !e.fake
    ensures SoloShort(h) ==> SoloShort(HistoryStep(f, h, Take))
  {
    if Feeds(f, h.solo, Take).Some? {
      CapturedSnoc(h.fed, h.solo.ring.q.items[0]);
    }
  }

  lemma {:induction false} SoloStaysValid(f: Format, hs: seq<History>, events: seq<SoloEvent>, n: nat)
    requires f.Valid() && IsSoloRun(f, hs, events) && n <= |events|
    ensures SoloValid(f, hs[n])
  {
    if n == 0 {
      assert Framed(f, INITIAL);
    } else {
      SoloStaysValid(f, hs, events, n - 1);
      StepKeepsValid(f, hs[n - 1], events[n - 1]);
    }
  }

  /** After n events of a run every accepted buffer is accounted for iff none enqueued in the queue's blind spot. */
  lemma {:induction false} SoloIsConservedIff(f: Format, hs: seq<History>, events: seq<SoloEvent>, n: nat)
    requires f.Valid() && IsSoloRun(f, hs, events) && n <= |events|
    ensures SoloConserved(hs[n]) <==> forall i :: 0 <= i < n ==> !Overruns(hs[i], events[i])
    ensures !SoloConserved(hs[n]) ==> SoloShort(hs[n])
  {
    if n > 0 {
      var m := n - 1;
      SoloIsConservedIff(f, hs, events, m);
      SoloStaysValid(f, hs, events, m);
      ConservedNext(f, hs[m], events[m], hs[n]);
    }
  }

  lemma ConservedNext(f: Format, h: History, event: SoloEvent, h': History)
    requires f.Valid() && SoloValid(f, h) && h' == HistoryStep(f, h, event)
    requires SoloConserved(h) || SoloShort(h)
    ensures SoloConserved(h') <==> SoloConserved(h) && !Overruns(h, event)
    ensures SoloConserved(h') || SoloShort(h')
  {
    StepKeepsShort(f, h, event);
    if SoloConserved(h) && !Overruns(h, event) {
      StepKeepsConserved(f, h, event);
    }
  }

  /** Frames and then carry are what was framed, silence and all, cut into as many full frames as it makes. */
  lemma SoloFramesInStep(f: Format, hs: seq<History>, events: seq<SoloEvent>, n: nat)
    requires f.Valid() && IsSoloRun(f, hs, events) && n <= |events|
    ensures Framed(f, hs[n].solo.framer)
    ensures FrameBytes(hs[n].solo.framer.sent) + hs[n].solo.framer.carry == QueuedBytes(hs[n].fed)
    ensures |hs[n].solo.framer.sent| == |QueuedBytes(hs[n].fed)| / f.FrameSize()
    ensures |hs[n].solo.framer.carry| == |QueuedBytes(hs[n].fed)| % f.FrameSize()
  {
    SoloStaysValid(f, hs, events, n);
    var framer := hs[n].solo.framer;
    FrameBytesLength(f, framer.sent);
    DivUnique(|QueuedBytes(hs[n].fed)|, f.FrameSize(), |framer.sent|, |framer.carry|);
  }

  lemma {:induction false} FrameBytesLength(f: Format, sent: seq<Frame>)
    requires f.Valid() && forall k :: 0 <= k < |sent| ==> |sent[k].bytes| == f.FrameSize()
    ensures |FrameBytes(sent)| == |sent| * f.FrameSize()
  {
    if sent != [] {
      FrameBytesLength(f, sent[..|sent| - 1]);
      MulStep(|sent| - 1, f.FrameSize());
    }
  }

  // ----- What is taken, and when -----

  function TakeAll(f: Format, h: History, n: nat): History
    requires f.Valid()
  {
    if n == 0 then h else HistoryStep(f, TakeAll(f, h, n - 1), Take)
  }

  /** n iterations frame the n oldest queued elements, one each and in order, unless the queue is stopped. */
  lemma {:induction false} TakesFrame(f: Format, h: History, n: nat)
    requires f.Valid() && ValidRing(h.solo.ring) && !h.solo.ring.q.stopped && n <= |h.solo.ring.q.items|
    ensures var h' := TakeAll(f, h, n);
            && h'.fed == h.fed + h.solo.ring.q.items[..n] && h'.solo.ring.q.items == h.solo.ring.q.items[n..]
            && ValidRing(h'.solo.ring) && !h'.solo.ring.q.stopped
  {
    var items := h.solo.ring.q.items;
    if n == 0 {
      assert h.fed + items[..0] == h.fed;
    } else {
      TakesFrame(f, h, n - 1);
      TakeOne(f, TakeAll(f, h, n - 1));
      OneMore(h.fed, items, n - 1);
    }
  }

  lemma OneMore(fed: seq<Element>, items: seq<Element>, n: nat)
    requires n < |items|
    ensures items[n..] != [] && (fed + items[..n]) + [items[n..][0]] == fed + items[..n + 1]
    ensures items[n..][1..] == items[n + 1..]
  {
  }

  lemma TakeOne(f: Format, h: History)
    requires f.Valid() && ValidRing(h.solo.ring) && !h.solo.ring.q.stopped && h.solo.ring.q.items != []
    ensures var h', items := HistoryStep(f, h, Take), h.solo.ring.q.items;
            && h'.fed == h.fed + [items[0]] && h'.solo.ring.q.items == items[1..]
            && ValidRing(h'.solo.ring) && !h'.solo.ring.q.stopped
  {
    DequeueTakesFirst(h.solo.ring);
    ShippedStepDeparture(h.solo.ring, Dequeue);
  }

  /** A buffer that arrives while there is room is queued; silence is framed whatever the queue holds. */
  lemma ArrivalsAreKept(f: Format, h: History, data: seq<byte>)
    requires f.Valid() && ValidRing(h.solo.ring) && !h.solo.ring.q.stopped
    ensures var items := h.solo.ring.q.items;
            |items| < h.solo.ring.q.capacity ==>
              HistoryStep(f, h, Arrive(data)).solo.ring.q.items == items + [Element(data, false)]
    ensures var h' := HistoryStep(f, h, Silence);
            && h'.solo.ring == h.solo.ring && |h'.fed| == |h.fed| + 1 && h.fed <= h'.fed
            && var e := h'.fed[|h.fed|];
               e.fake && |e.data| * f.fps <= f.audioBytes * f.rate < (|e.data| + 1) * f.fps
               && forall i :: 0 <= i < |e.data| ==> e.data[i] == 0
  {
    if |h.solo.ring.q.items| < h.solo.ring.q.capacity {
      EnqueueHasRoom(h.solo.ring, Element(data, false));
    }
    var total, per := f.audioBytes * f.rate, SilentBytes(f);
    assert total == f.fps * per + total % f.fps;
  }

  // ----- Order of arrival -----

  /** Everything that came in is framed, or will be, in the order it came in. */
  ghost predicate InOrder(h: History) {
    h.fed + h.solo.ring.q.items == h.arrived
  }

  /** A silence is framed while captured elements wait in the queue. */
  predicate Overtakes(h: History, event: SoloEvent) {
    event.Silence? && h.solo.ring.q.items != []
  }

  /** An event keeps the order of arrival iff it is no silence that overtakes and no enqueue in the blind spot. */
  lemma StepKeepsOrderIff(f: Format, h: History, event: SoloEvent)
    requires f.Valid() && SoloValid(f, h) && InOrder(h)
    ensures InOrder(HistoryStep(f, h, event)) <==> !Overtakes(h, event) && !Overruns(h, event)
  {
    var items := h.solo.ring.q.items;
    match event
    case Arrive(data) => ArriveOrder(f, h, data);
    case Silence => SwapsIff(h.fed, items, SilentElement(f));
    case Take =>
      if Feeds(f, h.solo, event).Some? {
        FirstMoves(h.fed, items);
      }
  }

  lemma ArriveOrder(f: Format, h: History, data: seq<byte>)
    requires f.Valid() && ValidRing(h.solo.ring) && InOrder(h)
    ensures InOrder(HistoryStep(f, h, Arrive(data))) <==> !Overruns(h, Arrive(data))
  {
    var x, h' := Element(data, false), HistoryStep(f, h, Arrive(data));
    ShippedStepDeparture(h.solo.ring, Enqueue(x));
    if Overruns(h, Arrive(data)) {
      assert |h'.fed + h'.solo.ring.q.items| < |h'.arrived|;
    } else {
      assert h.fed + (h.solo.ring.q.items + [x]) == h.arrived + [x];
    }
  }

  lemma SwapsIff(fed: seq<Element>, items: seq<Element>, silent: Element)
    requires silent.fake && forall e :: e in items ==> !e.fake
    ensures (fed + [silent]) + items == (fed + items) + [silent] <==> items == []
  {
    if items != [] {
      assert ((fed + [silent]) + items)[|fed|] == silent && ((fed + items) + [silent])[|fed|] == items[0];
      assert items[0] in items;
    }
  }

  /** A run frames everything in the order it came in, after each of its events, iff none of them is such an event. */
  lemma SoloInOrderIff(f: Format, hs: seq<History>, events: seq<SoloEvent>)
    requires f.Valid() && IsSoloRun(f, hs, events)
    ensures (forall i :: 0 <= i <= |events| ==> InOrder(hs[i]))
            <==> (forall i :: 0 <= i < |events| ==> !Overtakes(hs[i], events[i]) && !Overruns(hs[i], events[i]))
  {
    if forall i :: 0 <= i < |events| ==> !Overtakes(hs[i], events[i]) && !Overruns(hs[i], events[i]) {
      forall i | 0 <= i <= |events|
        ensures InOrder(hs[i])
      {
        OrderUpTo(f, hs, events, i);
      }
    }
    if forall i :: 0 <= i <= |events| ==> InOrder(hs[i]) {
      forall i | 0 <= i < |events|
        ensures !Overtakes(hs[i], events[i]) && !Overruns(hs[i], events[i])
      {
        SoloStaysValid(f, hs, events, i);
        assert InOrder(hs[i]) && InOrder(hs[i + 1]);
        StepKeepsOrderIff(f, hs[i], events[i]);
      }
    }
  }

  lemma {:induction false} OrderUpTo(f: Format, hs: seq<History>, events: seq<SoloEvent>, n: nat)
    requires f.Valid() && IsSoloRun(f, hs, events) && n <= |events|
    requires forall i :: 0 <= i < n ==> !Overtakes(hs[i], events[i]) && !Overruns(hs[i], events[i])
    ensures InOrder(hs[n])
  {
    if n > 0 {
      OrderUpTo(f, hs, events, n - 1);
      SoloStaysValid(f, hs, events, n - 1);
      StepKeepsOrderIff(f, hs[n - 1], events[n - 1]);
    }
  }

  // ----- Silence over a run -----

  function Silences(events: seq<SoloEvent>, n: nat): nat
    requires n <= |events|
  {
    if n == 0 then 0 else Silences(events, n - 1) + if events[n - 1].Silence? then 1 else 0
  }

  ghost predicate Grows(h: History, event: SoloEvent, h': History, size: nat) {
    FakeBytes(h'.fed) == FakeBytes(h.fed) + if event.Silence? then size else 0
  }

  lemma {:induction false} FakeBytesGrow(hs: seq<History>, events: seq<SoloEvent>, n: nat, size: nat)
    requires n <= |events| < |hs| && FakeBytes(hs[0].fed) == 0
    requires forall i :: 0 <= i < n ==> Grows(hs[i], events[i], hs[i + 1], size)
    ensures FakeBytes(hs[n].fed) == Silences(events, n) * size
  {
    if n > 0 {
      FakeBytesGrow(hs, events, n - 1, size);
      MulStep(Silences(events, n - 1), size);
      assert Grows(hs[n - 1], events[n - 1], hs[n], size);
    }
  }

  lemma FakeBytesNext(f: Format, h: History, event: SoloEvent, h': History, size: nat)
    requires f.Valid() && SoloValid(f, h) && h' == HistoryStep(f, h, event) && size == SilentBytes(f)
    ensures Grows(h, event, h', size)
  {
    if Feeds(f, h.solo, event).Some? {
      CapturedSnoc(h.fed, Feeds(f, h.solo, event).value);
    }
  }

  /** Every silence is framed, also when the queue is full; the drift is that of the loop with video. */
  lemma SoloSilenceDrifts(f: Format, hs: seq<History>, events: seq<SoloEvent>, n: nat)
    requires f.Valid() && IsSoloRun(f, hs, events) && n <= |events| && Silences(events, n) > 0
    ensures var count := Silences(events, n);
            var short := count * (f.audioBytes * f.rate) - FakeBytes(hs[n].fed) * f.fps;
            0 <= short < count * f.fps && (short == 0 <==> (f.audioBytes * f.rate) % f.fps == 0)
  {
    forall i | 0 <= i < n
      ensures Grows(hs[i], events[i], hs[i + 1], SilentBytes(f))
    {
      SoloStaysValid(f, hs, events, i);
      FakeBytesNext(f, hs[i], events[i], hs[i + 1], SilentBytes(f));
    }
    FakeBytesGrow(hs, events, n, SilentBytes(f));
    SilentDrift(f, Silences(events, n));
  }
}
