/**
 The image stream as a state machine: the steps of the compressor loop interleaved with sendFull
 requests, which come from the server's thread, and with one client joining and leaving.
 The JPEG codec is lossless and never fails here: a patch carries the pixels of its box.
 */
module DeltaStream {
  import opened Bytes
  import opened DirtyBox

  type Pixels = map<(nat, nat), seq<byte>>

  datatype Message = Init(w: nat, h: nat) | Patch(no: nat, box: Box, pixels: Pixels)

  /** Where the loop is: before the capture, the test of fullFlag, its two effects, the scan and send. */
  datatype Pc = AtGrab | AtTest | AtDrop | AtClear | AtSend

  datatype Loop = Loop(pc: Pc, width: nat, height: nat, prev: Option<Picture>, cur: Option<Picture>,
                       fullFlag: bool, no: nat)

  datatype Event =
    | Grab(pic: Picture)
    | TestFlag
    | DropPrev
    | ClearFlag
    | Send(box: Option<Box>)
    | RequestFull
    | Join
    | Leave

  ghost predicate LoopValid(l: Loop) {
    && (l.prev.Some? ==> Fits(l, l.prev.value))
    && (l.pc != AtGrab ==> l.cur.Some? && Fits(l, l.cur.value))
    && (l.pc == AtGrab ==> l.prev == l.cur)
    && (l.pc == AtClear ==> l.prev == None)
  }

  ghost predicate Fits(l: Loop, p: Picture) {
    p.Valid() && p.w == l.width && p.h == l.height
  }

  function Whole(l: Loop): Box {
    Box(0, 0, l.width, l.height)
  }

  /** The step the event stands for is the loop's next one; the box sent is what the scan reports. */
  ghost predicate Enabled(l: Loop, e: Event)
    requires LoopValid(l)
  {
    match e
    case Grab(pic) => l.pc == AtGrab && pic.Valid()
    case TestFlag => l.pc == AtTest
    case DropPrev => l.pc == AtDrop
    case ClearFlag => l.pc == AtClear
    case Send(box) =>
      l.pc == AtSend
      && if l.prev == None then box == Some(Whole(l)) else ScanResult(l.prev.value, l.cur.value, box)
    case _ => true
  }

  function PixelsIn(p: Picture, b: Box): (m: Pixels)
    requires p.Valid() && b.maxX <= p.w && b.maxY <= p.h
    ensures forall x: nat, y: nat :: (x, y) in m <==> InBox(b, x, y)
    ensures forall x: nat, y: nat :: InBox(b, x, y) ==> m[(x, y)] == PixelAt(p, x, y)
  {
    map x: nat, y: nat | b.minX <= x < b.maxX && b.minY <= y < b.maxY :: (x, y) := PixelAt(p, x, y)
  }

  lemma SentBoxFits(l: Loop, box: Option<Box>)
    requires LoopValid(l) && Enabled(l, Send(box))
    ensures box.Some? ==>
              box.value.minX < box.value.maxX <= l.width && box.value.minY < box.value.maxY <= l.height
  {
    if box.Some? {
      if l.prev == None {
        NonEmpty(l.cur.value);
      } else {
        BoxInFrame(l.prev.value, l.cur.value, box.value);
      }
    }
  }

  lemma NonEmpty(p: Picture)
    requires p.Valid()
    ensures p.w > 0 && p.h > 0
  {
  }

  ghost function LoopStep(l: Loop, e: Event): (Loop, Option<Message>)
    requires LoopValid(l) && Enabled(l, e)
  {
    match e
    case Grab(pic) =>
      if pic.w != l.width || pic.h != l.height then
        (Loop(AtTest, pic.w, pic.h, None, Some(pic), l.fullFlag, l.no), Some(Init(pic.w, pic.h)))
      else (l.(pc := AtTest, cur := Some(pic)), None)
    case TestFlag => (l.(pc := if l.fullFlag then AtDrop else AtSend), None)
    case DropPrev => (l.(pc := AtClear, prev := None), None)
    case ClearFlag => (l.(pc := AtSend, fullFlag := false), None)
    case Send(box) =>
      SentBoxFits(l, box);
      var l' := l.(pc := AtGrab, prev := l.cur);
      if box == None then (l', None)
      else (l'.(no := l.no + 1), Some(Patch(l.no, box.value, PixelsIn(l.cur.value, box.value))))
    case RequestFull => (l.(fullFlag := true), None)
    case Join => (l, None)
    case Leave => (l, None)
  }

  /** The loop after a capture, the flag test and its effects, none of them interrupted. */
  ghost function Prepared(l: Loop, pic: Picture): (r: Loop)
    requires LoopValid(l) && l.pc == AtGrab && pic.Valid()
    ensures LoopValid(r) && r.pc == AtSend && r.cur == Some(pic)
  {
    var grabbed := LoopStep(l, Grab(pic)).0;
    var tested := LoopStep(grabbed, TestFlag).0;
    if tested.pc == AtSend then tested else LoopStep(LoopStep(tested, DropPrev).0, ClearFlag).0
  }

  /** What an uninterrupted iteration puts on the wire. */
  ghost function Wire(l: Loop, pic: Picture, box: Option<Box>): seq<Message>
    requires LoopValid(l) && l.pc == AtGrab && pic.Valid() && Enabled(Prepared(l, pic), Send(box))
  {
    Messages(LoopStep(l, Grab(pic)).1) + Messages(LoopStep(Prepared(l, pic), Send(box)).1)
  }

  function Messages(m: Option<Message>): seq<Message> {
    if m == None then [] else [m.value]
  }

  lemma LoopStaysValid(l: Loop, e: Event)
    requires LoopValid(l) && Enabled(l, e)
    ensures LoopValid(LoopStep(l, e).0)
  {
  }

  // ----- One client -----

  /**
   What a client draws, and the size it was last told since it joined; synced once a full patch has
   arrived since the join or the last resize.
   */
  datatype Client = Client(joined: bool, canvas: Pixels, synced: bool, size: Option<(nat, nat)>)

  const ABSENT := Client(false, map[], false, None)

  predicate IsFull(b: Box, w: nat, h: nat) {
    b == Box(0, 0, w, h)
  }

  function Receive(c: Client, m: Message, w: nat, h: nat): Client {
    if !c.joined then c
    else match m
      case Init(width, height) => c.(canvas := map[], synced := false, size := Some((width, height)))
      case Patch(_, box, pixels) => c.(canvas := c.canvas + pixels, synced := c.synced || IsFull(box, w, h))
  }

  function ReceiveAny(c: Client, message: Option<Message>, w: nat, h: nat): Client {
    match message
    case None => c
    case Some(m) => Receive(c, m, w, h)
  }

  /** The loop, the client, the last picture handled, and the last one sent whose box reached the bottom-right pixel. */
  datatype System = System(l: Loop, client: Client, shown: Option<Picture>, corner: Option<Picture>)

  ghost function SystemStep(s: System, e: Event): System
    requires LoopValid(s.l) && Enabled(s.l, e)
  {
    var (l', message) := LoopStep(s.l, e);
    var client :=
      if e.Join? then ABSENT.(joined := true)
      else if e.Leave? then ABSENT
      else ReceiveAny(s.client, message, l'.width, l'.height);
    var reached := e.Send? && e.box.Some? && InBox(e.box.value, l'.width - 1, l'.height - 1);
    System(l', client, if e.Send? then s.l.cur else s.shown, if reached then s.l.cur else s.corner)
  }

  ghost predicate Initial(s: System) {
    && s.l.pc == AtGrab && s.l.prev == None && s.l.cur == None
    && s.client == ABSENT && s.shown == None && s.l.no == 0
  }

  ghost predicate IsRun(ss: seq<System>, es: seq<Event>) {
    && |ss| == |es| + 1
    && Initial(ss[0])
    && IsSegment(ss, es)
  }

  ghost predicate IsSegment(ss: seq<System>, es: seq<Event>) {
    && |ss| == |es| + 1
    && forall i :: 0 <= i < |es| ==>
         LoopValid(ss[i].l) && Enabled(ss[i].l, es[i]) && ss[i + 1] == SystemStep(ss[i], es[i])
  }

  /** The canvas shows p at every pixel but possibly the bottom-right one. */
  ghost predicate Agrees(canvas: Pixels, p: Picture)
    requires p.Valid()
  {
    forall x: nat, y: nat :: x < p.w && y < p.h && !IsCorner(p.w, p.h, x, y) ==> Shows(canvas, p, x, y)
  }

  ghost predicate Shows(canvas: Pixels, p: Picture, x: nat, y: nat)
    requires p.Valid() && x < p.w && y < p.h
  {
    (x, y) in canvas && canvas[(x, y)] == PixelAt(p, x, y)
  }

  ghost predicate Inv(s: System) {
    && LoopValid(s.l)
    && (s.l.prev.Some? ==> s.shown == s.l.prev)
    && (s.l.pc == AtGrab ==> s.shown == s.l.prev)
    && (s.client.synced ==>
          && s.client.joined
          && s.shown.Some? && Fits(s.l, s.shown.value) && Agrees(s.client.canvas, s.shown.value)
          && s.corner.Some? && Fits(s.l, s.corner.value) && ShowsCorner(s.client.canvas, s.corner.value))
  }

  ghost predicate ShowsCorner(canvas: Pixels, p: Picture)
    requires p.Valid()
  {
    NonEmpty(p);
    Shows(canvas, p, p.w - 1, p.h - 1)
  }

  /** The canvas once the patch, if there is one, is drawn. */
  ghost function Drawn(canvas: Pixels, p: Picture, box: Option<Box>): Pixels
    requires p.Valid() && (box.Some? ==> box.value.maxX <= p.w && box.value.maxY <= p.h)
  {
    if box == None then canvas else canvas + PixelsIn(p, box.value)
  }

  /** Drawing what the scan reports carries a canvas from the previous picture to the current one. */
  lemma DeltaKeepsAgreement(canvas: Pixels, prev: Picture, cur: Picture, box: Option<Box>)
    requires Comparable(prev, cur) && ScanResult(prev, cur, box) && Agrees(canvas, prev)
    ensures (box.Some? ==> box.value.maxX <= cur.w && box.value.maxY <= cur.h)
            && Agrees(Drawn(canvas, cur, box), cur)
  {
    if box.Some? {
      BoxInFrame(prev, cur, box.value);
    }
    forall x: nat, y: nat | x < cur.w && y < cur.h && !IsCorner(cur.w, cur.h, x, y)
      ensures Shows(Drawn(canvas, cur, box), cur, x, y)
    {
      if box == None || !InBox(box.value, x, y) {
        assert Shows(canvas, prev, x, y);
        assert !Hot(prev, cur, x, y);
        HotIff(prev, cur, x, y);
      }
    }
  }

  lemma FullPatchAgrees(canvas: Pixels, cur: Picture)
    requires cur.Valid()
    ensures Agrees(Drawn(canvas, cur, Some(Box(0, 0, cur.w, cur.h))), cur)
  {
  }

  lemma CornerDrawn(canvas: Pixels, corner: Option<Picture>, cur: Picture, box: Option<Box>)
    requires cur.Valid() && (box.Some? ==> box.value.maxX <= cur.w && box.value.maxY <= cur.h)
    ensures box.Some? && InBox(box.value, cur.w - 1, cur.h - 1) ==> ShowsCorner(Drawn(canvas, cur, box), cur)
    ensures !(box.Some? && InBox(box.value, cur.w - 1, cur.h - 1)) && corner.Some? && corner.value.Valid()
            && corner.value.w == cur.w && corner.value.h == cur.h && ShowsCorner(canvas, corner.value)
            ==> ShowsCorner(Drawn(canvas, cur, box), corner.value)
  {
    NonEmpty(cur);
  }

  /** Whatever is sent, a client synced afterwards agrees with the current picture. */
  lemma SentAgrees(l: Loop, canvas: Pixels, synced: bool, box: Option<Box>)
    requires LoopValid(l) && Enabled(l, Send(box))
    requires synced ==> l.prev == None || Agrees(canvas, l.prev.value)
    requires box.Some? ==> box.value.maxX <= l.width && box.value.maxY <= l.height
    ensures synced || box == Some(Whole(l)) ==> Agrees(Drawn(canvas, l.cur.value, box), l.cur.value)
  {
    if box == Some(Whole(l)) {
      FullPatchAgrees(canvas, l.cur.value);
    } else if synced {
      DeltaKeepsAgreement(canvas, l.prev.value, l.cur.value, box);
    }
  }

  lemma SentCanvas(s: System, box: Option<Box>)
    requires LoopValid(s.l) && Enabled(s.l, Send(box))
    ensures box.Some? ==> box.value.maxX <= s.l.width && box.value.maxY <= s.l.height
    ensures var client := SystemStep(s, Send(box)).client;
            && (s.client.joined ==> client.canvas == Drawn(s.client.canvas, s.l.cur.value, box))
            && client.joined == s.client.joined
            && (client.synced <==> s.client.synced || (s.client.joined && box == Some(Whole(s.l))))
  {
    SentBoxFits(s.l, box);
  }

  lemma SendKeepsInv(s: System, box: Option<Box>)
    requires Inv(s) && Enabled(s.l, Send(box))
    ensures Inv(SystemStep(s, Send(box)))
  {
    SentCanvas(s, box);
    LoopStaysValid(s.l, Send(box));
    SentAgrees(s.l, s.client.canvas, s.client.synced, box);
    CornerDrawn(s.client.canvas, s.corner, s.l.cur.value, box);
  }

  lemma StepKeepsInv(s: System, e: Event)
    requires Inv(s) && Enabled(s.l, e)
    ensures Inv(SystemStep(s, e))
  {
    LoopStaysValid(s.l, e);
    if e.Send? {
      SendKeepsInv(s, e.box);
    }
  }

  lemma {:induction false} RunKeepsInv(ss: seq<System>, es: seq<Event>)
    requires IsRun(ss, es)
    ensures Inv(ss[|es|])
    decreases |es|
  {
    if es != [] {
      var n := |es| - 1;
      RunKeepsInv(ss[..n + 1], es[..n]);
      StepKeepsInv(ss[n], es[n]);
    }
  }

  /**
   The delta stream refines sending every frame: in every interleaving, whenever the loop is between
   two iterations, a client that has had a full patch since it joined or the size last changed shows
   the last captured frame at every pixel but possibly the bottom-right one, which is that of the
   last frame whose patch reached it.
   */
  lemma DeltaRefinesFullFrames(ss: seq<System>, es: seq<Event>)
    requires IsRun(ss, es)
    requires ss[|es|].l.pc == AtGrab && ss[|es|].client.synced
    ensures var s := ss[|es|];
            s.l.cur.Some? && Fits(s.l, s.l.cur.value) && Agrees(s.client.canvas, s.l.cur.value)
            && s.corner.Some? && Fits(s.l, s.corner.value)
            && (Shows(s.client.canvas, s.l.cur.value, s.l.width - 1, s.l.height - 1)
                <==> PixelAt(s.corner.value, s.l.width - 1, s.l.height - 1)
                     == PixelAt(s.l.cur.value, s.l.width - 1, s.l.height - 1))
  {
    RunKeepsInv(ss, es);
  }

  // ----- What goes over the wire -----

  /** Everything sent to the sockets during the run, in order. */
  ghost function Wires(ss: seq<System>, es: seq<Event>): seq<Message>
    requires IsSegment(ss, es)
    decreases |es|
  {
    if es == [] then []
    else
      var n := |es| - 1;
      Wires(ss[..n + 1], es[..n]) + Messages(LoopStep(ss[n].l, es[n]).1)
  }

  /** The sizes announced among the messages. */
  function Announced(wire: seq<Message>): seq<(nat, nat)> {
    if wire == [] then []
    else
      var m := wire[|wire| - 1];
      Announced(wire[..|wire| - 1]) + if m.Init? then [(m.w, m.h)] else []
  }

  /** The numbers of the patches among the messages. */
  function Numbers(wire: seq<Message>): seq<nat> {
    if wire == [] then []
    else
      var m := wire[|wire| - 1];
      Numbers(wire[..|wire| - 1]) + if m.Patch? then [m.no] else []
  }

  /** There are so many patches, and they carry consecutive numbers. */
  ghost predicate NumberedFrom(first: nat, wire: seq<Message>, count: nat) {
    |Numbers(wire)| == count && forall k :: 0 <= k < count ==> Numbers(wire)[k] == first + k
  }

  /** The size of the last picture captured, at first the one the loop was started with. */
  function LastSize(start: (nat, nat), es: seq<Event>): (nat, nat) {
    if es == [] then start
    else
      var e := es[|es| - 1];
      if e.Grab? then (e.pic.w, e.pic.h) else LastSize(start, es[..|es| - 1])
  }

  /** The captured sizes that differ from the one before. */
  function SizeChanges(start: (nat, nat), es: seq<Event>): seq<(nat, nat)> {
    if es == [] then []
    else
      var e, before := es[|es| - 1], es[..|es| - 1];
      SizeChanges(start, before)
      + if e.Grab? && (e.pic.w, e.pic.h) != LastSize(start, before) then [(e.pic.w, e.pic.h)] else []
  }

  /** The iterations that found something to send. */
  function Reports(es: seq<Event>): nat {
    if es == [] then 0 else Reports(es[..|es| - 1]) + Reported(es[|es| - 1])
  }

  function Reported(e: Event): nat {
    if e.Send? && e.box.Some? then 1 else 0
  }

  lemma WireSnoc(wire: seq<Message>, m: Option<Message>)
    ensures Announced(wire + Messages(m))
            == Announced(wire) + if m.Some? && m.value.Init? then [(m.value.w, m.value.h)] else []
    ensures Numbers(wire + Messages(m)) == Numbers(wire) + if m.Some? && m.value.Patch? then [m.value.no] else []
  {
    if m == None {
      assert wire + Messages(m) == wire;
    } else {
      assert (wire + [m.value])[..|wire|] == wire;
    }
  }

  /** What one step adds to the wire, and how it counts patches and keeps the size. */
  lemma StepWire(l: Loop, e: Event)
    requires LoopValid(l) && Enabled(l, e)
    ensures var (l', m) := LoopStep(l, e);
            && (m.Some? && m.value.Init? <==> Resizes(l, e))
            && (m.Some? && m.value.Patch? <==> e.Send? && e.box.Some?)
            && (Resizes(l, e) ==> (m.value.w, m.value.h) == (e.pic.w, e.pic.h))
            && (e.Send? && e.box.Some? ==> m.value.no == l.no)
            && l'.no == l.no + (if e.Send? && e.box.Some? then 1 else 0)
            && (l'.width, l'.height) == if e.Grab? then (e.pic.w, e.pic.h) else (l.width, l.height)
  {
  }

  ghost predicate Resizes(l: Loop, e: Event) {
    e.Grab? && (e.pic.w, e.pic.h) != (l.width, l.height)
  }

  /** Loop states and messages of a run, each with what StepWire says of it. */
  ghost predicate Told(l: Loop, e: Event, l': Loop, m: Option<Message>) {
    && l'.no == l.no + (if e.Send? && e.box.Some? then 1 else 0)
    && (l'.width, l'.height) == (if e.Grab? then (e.pic.w, e.pic.h) else (l.width, l.height))
    && match m
       case None => !Resizes(l, e) && !(e.Send? && e.box.Some?)
       case Some(Init(w, h)) => Resizes(l, e) && (w, h) == (e.pic.w, e.pic.h)
       case Some(Patch(no, _, _)) => e.Send? && e.box.Some? && no == l.no
  }

  /**
   The sizes announced are exactly those in which a captured picture differs from the one before it,
   and the patches are numbered one by one, one for each iteration that found something to send.
   */
  lemma {:induction false} WireTells(ss: seq<System>, es: seq<Event>)
    requires IsSegment(ss, es)
    ensures Announced(Wires(ss, es)) == SizeChanges((ss[0].l.width, ss[0].l.height), es)
    ensures NumberedFrom(ss[0].l.no, Wires(ss, es), Reports(es))
    ensures ss[|es|].l.no == ss[0].l.no + Reports(es)
    ensures (ss[|es|].l.width, ss[|es|].l.height) == LastSize((ss[0].l.width, ss[0].l.height), es)
    decreases |es|
  {
    if es != [] {
      var n := |es| - 1;
      WireTells(ss[..n + 1], es[..n]);
      StepWire(ss[n].l, es[n]);
      var m := LoopStep(ss[n].l, es[n]).1;
      assert Told(ss[n].l, es[n], ss[n + 1].l, m);
      SizesNext((ss[0].l.width, ss[0].l.height), Wires(ss[..n + 1], es[..n]), es, ss[n].l, ss[n + 1].l, m);
      NumbersNext(ss[0].l.no, Wires(ss[..n + 1], es[..n]), Reports(es[..n]), es[n], ss[n].l, ss[n + 1].l, m);
    }
  }

  lemma SizesNext(start: (nat, nat), wire: seq<Message>, es: seq<Event>, l: Loop, l': Loop, m: Option<Message>)
    requires es != [] && Told(l, es[|es| - 1], l', m)
    requires Announced(wire) == SizeChanges(start, es[..|es| - 1])
    requires (l.width, l.height) == LastSize(start, es[..|es| - 1])
    ensures Announced(wire + Messages(m)) == SizeChanges(start, es) && (l'.width, l'.height) == LastSize(start, es)
  {
    WireSnoc(wire, m);
  }

  lemma NumbersNext(first: nat, wire: seq<Message>, count: nat, e: Event, l: Loop, l': Loop, m: Option<Message>)
    requires Told(l, e, l', m) && NumberedFrom(first, wire, count) && l.no == first + count
    ensures NumberedFrom(first, wire + Messages(m), count + Reported(e)) && l'.no == first + count + Reported(e)
  {
    NumbersSnoc(wire, m);
  }

  lemma NumbersSnoc(wire: seq<Message>, m: Option<Message>)
    ensures Numbers(wire + Messages(m)) == Numbers(wire) + if m.Some? && m.value.Patch? then [m.value.no] else []
  {
    WireSnoc(wire, m);
  }

  /** A patch lies inside the frame it was cut from, and carries its pixels. */
  lemma PatchesFit(l: Loop, e: Event)
    requires LoopValid(l) && Enabled(l, e)
    ensures var m := LoopStep(l, e).1;
            m.Some? && m.value.Patch? ==>
              && e.Send? && e.box == Some(m.value.box) && m.value.no == l.no
              && m.value.box.minX < m.value.box.maxX <= l.width && m.value.box.minY < m.value.box.maxY <= l.height
              && forall x: nat, y: nat :: InBox(m.value.box, x, y) ==>
                   x < l.cur.value.w && y < l.cur.value.h
                   && (x, y) in m.value.pixels && m.value.pixels[(x, y)] == PixelAt(l.cur.value, x, y)
  {
    if e.Send? {
      SentBoxFits(l, e.box);
    }
  }

  /** The client knows the size the loop works with, if it knows one. */
  ghost predicate SizeInv(s: System) {
    s.client.size.Some? ==> s.client.joined && s.client.size.value == (s.l.width, s.l.height)
  }

  lemma StepKeepsSize(s: System, e: Event)
    requires LoopValid(s.l) && Enabled(s.l, e) && SizeInv(s)
    ensures SizeInv(SystemStep(s, e))
    ensures Resizes(s.l, e) && s.client.joined ==> SystemStep(s, e).client.size == Some((e.pic.w, e.pic.h))
    ensures !Resizes(s.l, e) && !e.Join? && !e.Leave? ==> SystemStep(s, e).client.size == s.client.size
    ensures !e.Join? && !e.Leave? ==> SystemStep(s, e).client.joined == s.client.joined
  {
    StepWire(s.l, e);
  }

  lemma {:induction false} SizesUpTo(ss: seq<System>, es: seq<Event>)
    requires IsRun(ss, es)
    ensures SizeInv(ss[|es|])
    decreases |es|
  {
    if es != [] {
      var n := |es| - 1;
      SizesUpTo(ss[..n + 1], es[..n]);
      StepKeepsSize(ss[n], es[n]);
    }
  }

  lemma CaptureFits(ss: seq<System>, es: seq<Event>)
    requires IsRun(ss, es)
    ensures var l := ss[|es|].l; LoopValid(l) && (l.cur.Some? ==> Fits(l, l.cur.value))
  {
    RunKeepsInv(ss, es);
  }

  /**
   On every run a client that has been told a size since it joined was told that of the last
   captured frame, every patch sent lies inside it, and a captured frame of another size is
   announced to every joined client at once.
   */
  lemma ClientKnowsSize(ss: seq<System>, es: seq<Event>, n: nat)
    requires IsRun(ss, es) && n <= |es|
    ensures var s := ss[n];
            s.client.size.Some? ==>
              && s.client.joined && (s.l.cur.Some? ==> s.client.size.value == (s.l.cur.value.w, s.l.cur.value.h))
              && (n < |es| && es[n].Send? && es[n].box.Some? ==>
                    es[n].box.value.maxX <= s.client.size.value.0 && es[n].box.value.maxY <= s.client.size.value.1)
    ensures n < |es| && Resizes(ss[n].l, es[n]) && ss[n].client.joined ==>
              ss[n + 1].client.size == Some((es[n].pic.w, es[n].pic.h))
  {
    SizesUpTo(ss[..n + 1], es[..n]);
    CaptureFits(ss[..n + 1], es[..n]);
    if n < |es| {
      StepKeepsSize(ss[n], es[n]);
      if es[n].Send? {
        SentBoxFits(ss[n].l, es[n].box);
      }
    }
  }

  /** A joined client has been told a size iff the size has changed since it joined. */
  lemma {:induction false} ToldIffResized(ss: seq<System>, es: seq<Event>, n: nat)
    requires IsSegment(ss, es) && 0 < n <= |es| && es[0] == Join
    requires forall i :: 0 < i < n ==> es[i] != Join && es[i] != Leave
    ensures SizeInv(ss[n]) && ss[n].client.joined
    ensures ss[n].client.size.Some? <==> exists i :: 0 < i < n && Resizes(ss[i].l, es[i])
    decreases n
  {
    if n > 1 {
      ToldIffResized(ss, es, n - 1);
      StepKeepsSize(ss[n - 1], es[n - 1]);
    }
  }

  // ----- Full patches are not sent without need -----

  /** Sends for which the previous frame had been given up. */
  function Forced(ss: seq<System>, es: seq<Event>): nat
    requires |ss| == |es| + 1
  {
    if es == [] then 0
    else
      var n := |es| - 1;
      Forced(ss[..n + 1], es[..n]) + if ForcedBy(ss[n].l, es[n]) then 1 else 0
  }

  /** Resizes and requests for a full frame. */
  ghost function Occasions(ss: seq<System>, es: seq<Event>): nat
    requires |ss| == |es| + 1
  {
    if es == [] then 0
    else
      var n := |es| - 1;
      Occasions(ss[..n + 1], es[..n]) + if Occasion(ss[n].l, es[n]) then 1 else 0
  }

  /** Full patches that are due: one for a missing previous frame, one for a flag still to be served. */
  function Due(l: Loop): nat {
    (if l.prev == None then 1 else 0) + if l.fullFlag && l.pc != AtClear then 1 else 0
  }

  ghost predicate FlagUp(l: Loop) {
    l.pc == AtDrop || l.pc == AtClear ==> l.fullFlag
  }

  predicate ForcedBy(l: Loop, e: Event) {
    e.Send? && l.prev == None
  }

  ghost predicate Occasion(l: Loop, e: Event) {
    e.RequestFull? || Resizes(l, e)
  }

  lemma StepDue(l: Loop, e: Event)
    requires LoopValid(l) && Enabled(l, e) && FlagUp(l)
    ensures var l' := LoopStep(l, e).0;
            && FlagUp(l')
            && Due(l') + (if ForcedBy(l, e) then 1 else 0) <= Due(l) + (if Occasion(l, e) then 1 else 0)
  {
  }

  /** Each full patch answers a start, a resize or a request: never more than there were. */
  lemma {:induction false} FullPatchesAreAskedFor(ss: seq<System>, es: seq<Event>)
    requires IsRun(ss, es)
    ensures FlagUp(ss[|es|].l)
    ensures Forced(ss, es) + Due(ss[|es|].l) <= Due(ss[0].l) + Occasions(ss, es)
    decreases |es|
  {
    if es != [] {
      var n := |es| - 1;
      FullPatchesAreAskedFor(ss[..n + 1], es[..n]);
      StepDue(ss[n].l, es[n]);
    }
  }

  // ----- A full-frame request is never lost -----

  /** The next patch is sure to be full. */
  ghost predicate Armed(l: Loop) {
    l.prev == None || l.pc == AtDrop || (l.fullFlag && (l.pc == AtGrab || l.pc == AtTest))
  }

  function Sends(es: seq<Event>): nat {
    if es == [] then 0 else Sends(es[..|es| - 1]) + if es[|es| - 1].Send? then 1 else 0
  }

  ghost predicate FullPatchSent(ss: seq<System>, es: seq<Event>)
    requires |ss| == |es| + 1
  {
    exists i :: 0 <= i < |es| && es[i].Send? && es[i].box == Some(Whole(ss[i].l))
  }

  /** After a request either the next patch is full, or the flag is still up when the loop comes round. */
  ghost predicate Requested(l: Loop) {
    Armed(l) || (l.fullFlag && l.pc == AtSend)
  }

  lemma StepServes(l: Loop, e: Event)
    requires LoopValid(l) && Enabled(l, e)
    ensures Armed(l) ==> if e.Send? then e.box == Some(Whole(l)) else Armed(LoopStep(l, e).0)
    ensures Requested(l) && !Armed(l) ==> if e.Send? then Armed(LoopStep(l, e).0) else Requested(LoopStep(l, e).0)
  {
  }

  lemma {:induction false} RequestIsServed(ss: seq<System>, es: seq<Event>)
    requires IsSegment(ss, es) && es != [] && es[0] == RequestFull
    ensures FullPatchSent(ss, es) || (Sends(es) == 0 && Requested(ss[|es|].l)) || (Sends(es) == 1 && Armed(ss[|es|].l))
    decreases |es|
  {
    var n := |es| - 1;
    if n == 0 {
      assert Sends(es[..0]) == 0;
    } else {
      RequestIsServed(ss[..n + 1], es[..n]);
      StepServes(ss[n].l, es[n]);
      if FullPatchSent(ss[..n + 1], es[..n]) {
        var i :| 0 <= i < n && es[..n][i].Send? && es[..n][i].box == Some(Whole(ss[..n + 1][i].l));
        assert es[i].Send? && es[i].box == Some(Whole(ss[i].l));
      }
    }
  }

  /** In every interleaving, two sends of the loop after a sendFull at least one of them was a full patch. */
  lemma FullRequestNeverLost(ss: seq<System>, es: seq<Event>)
    requires IsSegment(ss, es) && es != [] && es[0] == RequestFull && Sends(es) >= 2
    ensures FullPatchSent(ss, es)
  {
    RequestIsServed(ss, es);
  }

  /** A joined client that is synced, or will be by the patch now being prepared. */
  ghost predicate Following(s: System) {
    s.client.joined && (s.client.synced || (s.l.prev == None && s.l.pc != AtGrab))
  }

  lemma {:induction false} StaysFollowing(ss: seq<System>, es: seq<Event>)
    requires IsSegment(ss, es) && Following(ss[0]) && Join !in es && Leave !in es
    ensures Following(ss[|es|])
    decreases |es|
  {
    if es != [] {
      var n := |es| - 1;
      assert es[n] in es;
      StaysFollowing(ss[..n + 1], es[..n]);
    }
  }

  lemma {:induction false} StaysJoined(ss: seq<System>, es: seq<Event>)
    requires IsSegment(ss, es) && ss[0].client.joined && Join !in es && Leave !in es
    ensures ss[|es|].client.joined
    decreases |es|
  {
    if es != [] {
      var n := |es| - 1;
      assert es[n] in es;
      StaysJoined(ss[..n + 1], es[..n]);
    }
  }

  /**
   A client that has joined and then asked for a full frame shows, between any two iterations from
   the second send on, the last captured frame but possibly its bottom-right pixel, through every
   later resize and request.
   */
  lemma JoinedClientCatchesUp(ss: seq<System>, es: seq<Event>, asked: nat)
    requires IsRun(ss, es) && asked < |es|
    requires ss[asked].client.joined && es[asked] == RequestFull
    requires Join !in es[asked..] && Leave !in es[asked..] && Sends(es[asked..]) >= 2
    requires ss[|es|].l.pc == AtGrab
    ensures var s := ss[|es|];
            s.l.cur.Some? && Fits(s.l, s.l.cur.value) && Agrees(s.client.canvas, s.l.cur.value)
  {
    SegmentSuffix(ss, es, asked);
    RequestSyncs(ss[asked..], es[asked..]);
    DeltaRefinesFullFrames(ss, es);
  }

  lemma SegmentSuffix(ss: seq<System>, es: seq<Event>, k: nat)
    requires IsSegment(ss, es) && k <= |es|
    ensures IsSegment(ss[k..], es[k..])
  {
    forall i | 0 <= i < |es[k..]|
      ensures LoopValid(ss[k..][i].l) && Enabled(ss[k..][i].l, es[k..][i])
              && ss[k..][i + 1] == SystemStep(ss[k..][i], es[k..][i])
    {
      assert ss[k..][i] == ss[k + i] && es[k..][i] == es[k + i] && ss[k..][i + 1] == ss[k + i + 1];
    }
  }

  lemma RequestSyncs(ss: seq<System>, es: seq<Event>)
    requires IsSegment(ss, es) && es != [] && es[0] == RequestFull && Sends(es) >= 2
    requires ss[0].client.joined && Join !in es && Leave !in es
    ensures Following(ss[|es|])
  {
    FullRequestNeverLost(ss, es);
    var i :| 0 <= i < |es| && es[i].Send? && es[i].box == Some(Whole(ss[i].l));
    FollowsFrom(ss, es, i);
  }

  lemma FollowsFrom(ss: seq<System>, es: seq<Event>, i: nat)
    requires IsSegment(ss, es) && i < |es| && es[i].Send? && es[i].box == Some(Whole(ss[i].l))
    requires ss[0].client.joined && Join !in es && Leave !in es
    ensures Following(ss[|es|])
  {
    JoinedBefore(ss, es, i);
    FullPatchSyncs(ss[i], es[i]);
    FollowingAfter(ss, es, i + 1);
  }

  lemma JoinedBefore(ss: seq<System>, es: seq<Event>, i: nat)
    requires IsSegment(ss, es) && i <= |es| && ss[0].client.joined && Join !in es && Leave !in es
    ensures ss[i].client.joined
  {
    StaysJoined(ss[..i + 1], es[..i]);
  }

  lemma FollowingAfter(ss: seq<System>, es: seq<Event>, i: nat)
    requires IsSegment(ss, es) && i <= |es| && Following(ss[i]) && Join !in es && Leave !in es
    ensures Following(ss[|es|])
  {
    SegmentSuffix(ss, es, i);
    StaysFollowing(ss[i..], es[i..]);
  }

  lemma FullPatchSyncs(s: System, e: Event)
    requires LoopValid(s.l) && Enabled(s.l, e) && s.client.joined
    requires e.Send? && e.box == Some(Whole(s.l))
    ensures Following(SystemStep(s, e))
  {
  }
}
