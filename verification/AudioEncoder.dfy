/**
 The audio side of Encoder.cpp: the state is updated in place and every method is tied to the step
 it performs on AudioPipeline's values. Sending a frame to the codec appends it to sent; requesting
 a video frame counts it in videoRequests.
 */
module AudioEncoding {
  import opened Bytes
  import opened Fifo
  import opened CircularQueue
  import opened Reframer
  import opened AvClock
  import opened AudioPipeline
  import opened AudioOnly

  datatype InitState = InitSuccess | AlreadyInit

  class AudioEncoder {
    const format: Format
    const audioCQ: EncoderCQ<Element>
    var audioTmpFrame: array<byte>
    var remainedAudioSize: nat
    var audioFramePts: nat
    var sent: seq<Frame>
    var videoRequests: nat
    var stopped: bool
    // Variables of encodeAudioLoop, which a new loop thread starts afresh.
    var silent: bool
    var videoSyncPts: nat

    ghost predicate Valid()
      reads this, audioCQ
    {
      && format.Valid()
      && audioCQ.Valid() && audioCQ.isWait
      && audioTmpFrame.Length == format.FrameSize()
      && remainedAudioSize < format.FrameSize()
      && (audioTmpFrame as object) != audioCQ.queue
    }

    ghost function Framing(): Framer
      reads this, audioCQ, audioTmpFrame
      requires Valid()
    {
      Framer(audioTmpFrame[..remainedAudioSize], audioFramePts, sent)
    }

    ghost function Clock(): Av
      reads this, audioCQ, audioTmpFrame
      requires Valid()
    {
      Av(Framing(), videoSyncPts, videoRequests)
    }

    ghost function State(): Pipe
      reads this, audioCQ, audioCQ.queue, audioTmpFrame
      requires Valid()
    {
      Pipe(audioCQ.State(), Clock(), silent)
    }

    constructor (format: Format, maxsize: nat)
      requires format.Valid()
      ensures Valid() && stopped && fresh(audioCQ) && fresh(audioCQ.queue) && fresh(audioTmpFrame)
      ensures State() == Pipe(Ring(0, Queue(maxsize, [], false, true)), AV_INITIAL, true)
    {
      this.format := format;
      audioCQ := new EncoderCQ(true, maxsize);
      audioTmpFrame := new byte[format.FrameSize()];
      remainedAudioSize, audioFramePts, sent, videoRequests := 0, 0, [], 0;
      stopped, silent, videoSyncPts := true, true, 0;
    }

    /** initialize, and the start of the loop thread it creates. */
    method Initialize(isSilent: bool) returns (state: InitState)
      requires Valid()
      modifies this, audioCQ
      ensures Valid() && !stopped
      ensures state == if old(stopped) then InitSuccess else AlreadyInit
      ensures state == AlreadyInit ==> State() == old(State())
      ensures state == InitSuccess ==>
                State() == Pipe(ShippedStep(old(State()).ring, Start).0, AV_INITIAL, isSilent)
    {
      if !stopped {
        return AlreadyInit;
      }
      stopped := false;
      audioFramePts := 0;
      remainedAudioSize := 0;
      audioTmpFrame := new byte[format.FrameSize()];
      sent, videoRequests := [], 0;
      audioCQ.Start();
      silent := isSilent;
      videoSyncPts := 0;
      state := InitSuccess;
      assert Clock() == AV_INITIAL;
    }

    /** stop, as far as audio goes; the freed codec contexts are not modelled. */
    method Stop() returns (done: bool)
      requires Valid()
      modifies this`stopped, audioCQ
      ensures Valid() && stopped && done == !old(stopped)
      ensures State() == if done then old(State()).(ring := ShippedStep(old(State()).ring, Op.Stop).0) else old(State())
    {
      if stopped {
        return false;
      }
      stopped := true;
      audioCQ.Stop();
      done := true;
    }

    /** What encodeAudioLoop does once it has seen the stop: the elements still queued are released. */
    method LeaveLoop() returns (freed: seq<Element>)
      requires Valid() && stopped
      modifies audioCQ
      ensures Valid()
      ensures State() == old(State()).(ring := ShippedStep(old(State()).ring, Op.Clear).0)
    {
      freed := audioCQ.Clear();
    }

    method EncodeAudio(data: seq<byte>) returns (accepted: bool)
      requires Valid()
      modifies audioCQ, audioCQ.queue
      ensures Valid()
      ensures stopped ==> !accepted && State() == old(State())
      ensures !stopped ==>
                State() == PipeStep(format, (_: nat) => false, old(State()), Capture(data))
                && OnlyState() == SoloStep(format, old(OnlyState()), Arrive(data))
                && (accepted <==> ShippedStep(old(State()).ring, Enqueue(Element(data, false))).1.msg == Success)
    {
      if stopped {
        return false;
      }
      var msg := audioCQ.Enqueue(Element(data, false));
      accepted := msg == Success;
    }

    /** The silent buffer the video loop queues with each frame it produces on its own. */
    method QueueSilence()
      requires Valid()
      modifies audioCQ, audioCQ.queue
      ensures Valid()
      ensures State() == PipeStep(format, (_: nat) => false, old(State()), SilentTick)
    {
      var size := format.audioBytes * format.rate / format.fps;
      assert size == SilentBytes(format);
      var _ := audioCQ.Enqueue(Element(Zeros(size), true));
    }

    method CopyIntoFrame(data: seq<byte>, from: nat, n: nat)
      requires Valid()
      requires from + n <= |data| && remainedAudioSize + n <= audioTmpFrame.Length
      modifies audioTmpFrame
      ensures audioTmpFrame[..remainedAudioSize + n] == old(audioTmpFrame[..remainedAudioSize]) + data[from..from + n]
    {
      forall i | 0 <= i < n {
        audioTmpFrame[remainedAudioSize + i] := data[from + i];
      }
    }

    /** Copy as much as the frame has room for; if that fills it, nothing is carried over any more. */
    method FillFrame(data: seq<byte>, encodedSize: nat) returns (copied: nat, full: bool)
      requires Valid() && encodedSize < |data|
      modifies this`remainedAudioSize, audioTmpFrame
      ensures Valid() && copied > 0 && encodedSize + copied <= |data|
      ensures full ==> remainedAudioSize == 0 && old(remainedAudioSize) + copied == format.FrameSize()
                       && audioTmpFrame[..] == old(audioTmpFrame[..remainedAudioSize])
                                               + data[encodedSize..encodedSize + copied]
      ensures !full ==> encodedSize + copied == |data|
                        && audioTmpFrame[..remainedAudioSize] == old(audioTmpFrame[..remainedAudioSize])
                                                                 + data[encodedSize..]
    {
      var restFrameSize := format.FrameSize() - remainedAudioSize;
      var restDataSize := |data| - encodedSize;
      full := restDataSize >= restFrameSize;
      if full {
        copied := restFrameSize;
        CopyIntoFrame(data, encodedSize, restFrameSize);
        assert audioTmpFrame[..] == audioTmpFrame[..remainedAudioSize + copied];
        remainedAudioSize := 0;
      } else {
        copied := restDataSize;
        CopyIntoFrame(data, encodedSize, restDataSize);
        assert data[encodedSize..] == data[encodedSize..encodedSize + copied];
        remainedAudioSize := remainedAudioSize + restDataSize;
      }
    }

    method EncodeAudioImpl(data: seq<byte>)
      requires Valid()
      modifies this`remainedAudioSize, this`audioFramePts, this`sent, audioTmpFrame
      ensures Valid()
      ensures Framing() == Feed(format, old(Framing()), data)
    {
      var size := |data|;
      var encodedSize := 0;
      Done(data);
      while encodedSize != size
        invariant Valid() && encodedSize <= size
        invariant Feed(format, Framing(), data[encodedSize..]) == Feed(format, old(Framing()), data)
        decreases size - encodedSize
      {
        ghost var before, rest := Framing(), data[encodedSize..];
        var copied, full := FillFrame(data, encodedSize);
        if !full {
          break;
        }
        assert rest[..copied] == data[encodedSize..encodedSize + copied];
        encodedSize := encodedSize + copied;
        FilledFrame(before, rest, copied);
        assert rest[copied..] == data[encodedSize..];
        sent := sent + [Frame(audioFramePts, audioTmpFrame[..])];
        audioFramePts := audioFramePts + format.nbSamples;
        assert audioTmpFrame[..remainedAudioSize] == [];
        assert Framing() == Filled(before, rest[..copied]);
      }
      if encodedSize == size {
        Done(data);
      }
    }

    lemma Done(data: seq<byte>)
      ensures data[0..] == data && data[|data|..] == []
    {
    }

    /** Filling up the frame and emitting it is the first step of feeding the rest of the buffer. */
    lemma FilledFrame(s: Framer, rest: seq<byte>, n: nat)
      requires format.Valid() && |s.carry| + n == format.FrameSize() && n <= |rest|
      ensures Feed(format, s, rest) == Feed(format, Filled(s, rest[..n]), rest[n..])
    {
      var t := s.(carry := s.carry + rest);
      assert t.carry[..format.FrameSize()] == s.carry + rest[..n];
      assert t.carry[format.FrameSize()..] == rest[n..] == [] + rest[n..];
      assert Emit(format, t) == Filled(s, rest[..n]).(carry := [] + rest[n..]);
    }

    /** The framer once the given bytes have completed the frame and it was sent. */
    ghost function Filled(s: Framer, bytes: seq<byte>): Framer {
      Framer([], s.pts + format.nbSamples, s.sent + [Frame(s.pts, s.carry + bytes)])
    }

    /** What the loop without video works on. */
    ghost function OnlyState(): Solo
      reads this, audioCQ, audioCQ.queue, audioTmpFrame
      requires Valid()
    {
      Solo(audioCQ.State(), Framing())
    }

    /** One iteration of the loop without video; the thread that frames the silence runs to its end at once. */
    method AudioOnlyIteration(isSilent: bool) returns (msg: Msg)
      requires Valid()
      requires !isSilent && audioCQ.front == audioCQ.rear ==> audioCQ.isStop
      modifies this`remainedAudioSize, this`audioFramePts, this`sent, audioTmpFrame, audioCQ
      ensures Valid()
      ensures OnlyState() == SoloStep(format, old(OnlyState()), if isSilent then Silence else Take)
      ensures msg == if isSilent then Success else ShippedStep(old(State()).ring, Dequeue).1.msg
    {
      if isSilent {
        var size := format.audioBytes * format.rate / format.fps;
        assert size == SilentBytes(format);
        EncodeAudioImpl(Zeros(size));
        msg := Success;
      } else {
        var item;
        msg, item := audioCQ.Dequeue();
        if msg == Stopped {
          return;
        }
        assert Framing() == old(Framing());
        EncodeAudioImpl(item.value.data);
      }
    }

    /** The element with as many zeros at the end as the two clock readings ask for. */
    method PadToVideo(data: seq<byte>, videoFramePts: nat) returns (padded: seq<byte>)
      requires format.Valid() && Paddable(format, |data|, videoFramePts, audioFramePts)
      ensures padded == data + Zeros(PaddedSize(format, |data|, videoFramePts, audioFramePts) - |data|)
      ensures VideoNotBehind(format, videoFramePts, audioFramePts) ==>
                padded == data + Zeros(PadBytes(format, videoFramePts, audioFramePts))
      ensures !VideoNotBehind(format, videoFramePts, audioFramePts) ==> padded == data
    {
      var videoTime := videoFramePts as real / format.fps as real;
      var audioTime := audioFramePts as real / format.rate as real;
      var syncDiff := videoTime - audioTime;
      var size := Truncate(|data| as real + (format.audioBytes * format.rate) as real * syncDiff);
      assert size == PaddedSize(format, |data|, videoFramePts, audioFramePts);
      PaddedSizeIsExact(format, |data|, videoFramePts, audioFramePts);
      padded := data + Zeros(size - |data|);
    }

    /**
     One iteration of the loop that also drives the video clock: take an element, pad it if the
     silent flag is seen to have changed, frame it, and request video frames.
     */
    method EncodeAudioIteration(isSilent: bool, videoFramePts: nat, silentAt: nat -> bool) returns (msg: Msg)
      requires Valid()
      requires audioCQ.front == audioCQ.rear ==> audioCQ.isStop
      requires Legal(format, State(), Iterate(isSilent, videoFramePts))
      modifies this`remainedAudioSize, this`audioFramePts, this`sent, this`silent, this`videoSyncPts,
               this`videoRequests, audioTmpFrame, audioCQ
      ensures Valid()
      ensures State() == PipeStep(format, silentAt, old(State()), Iterate(isSilent, videoFramePts))
      ensures msg == ShippedStep(old(State()).ring, Dequeue).1.msg
    {
      var item;
      msg, item := audioCQ.Dequeue();
      if msg == Stopped {
        return;
      }
      var element := item.value;
      var data := element.data;
      assert data == data + Zeros(0);
      if silent != isSilent && element.fake != isSilent {
        data := PadToVideo(data, videoFramePts);
        silent := isSilent;
      }
      assert data == element.data + Zeros(Padding(format, old(State()), element, isSilent, videoFramePts));
      assert Clock() == old(Clock());
      FrameWithClock(data, silentAt);
    }

    /** The video request, or the silent catching up, made before a frame is sent. */
    method TickVideo(isSilent: bool)
      requires format.Valid()
      modifies this`videoSyncPts, this`videoRequests
      ensures var before := Av(Framer([], audioFramePts, sent), old(videoSyncPts), old(videoRequests));
              var av := Tick(format, before, isSilent);
              videoSyncPts == av.sync && videoRequests == av.requests
    {
      if !isSilent {
        var syncPts := Rescale(format, audioFramePts);
        if syncPts != videoSyncPts {
          videoRequests := videoRequests + 1;
          videoSyncPts := syncPts;
        }
      } else {
        videoSyncPts := Rescale(format, audioFramePts);
      }
    }

    /** The framing written out inside encodeAudioLoop. */
    method FrameWithClock(data: seq<byte>, silentAt: nat -> bool)
      requires Valid()
      modifies this`remainedAudioSize, this`audioFramePts, this`sent, this`videoSyncPts, this`videoRequests,
               audioTmpFrame
      ensures Valid()
      ensures Clock() == FeedAv(format, old(Clock()), data, silentAt)
    {
      var size := |data|;
      var encodedSize := 0;
      Done(data);
      while encodedSize != size
        invariant Valid() && encodedSize <= size
        invariant FeedAv(format, Clock(), data[encodedSize..], silentAt) == FeedAv(format, old(Clock()), data, silentAt)
        decreases size - encodedSize
      {
        ghost var before, rest := Clock(), data[encodedSize..];
        var copied, full := FillFrame(data, encodedSize);
        if !full {
          break;
        }
        assert rest[..copied] == data[encodedSize..encodedSize + copied];
        encodedSize := encodedSize + copied;
        FilledFrameAv(before, rest, copied, silentAt);
        assert rest[copied..] == data[encodedSize..];
        TickVideo(silentAt(|sent|));
        sent := sent + [Frame(audioFramePts, audioTmpFrame[..])];
        audioFramePts := audioFramePts + format.nbSamples;
        assert audioTmpFrame[..remainedAudioSize] == [];
        assert Clock() == Tick(format, before, silentAt(|before.framer.sent|))
                          .(framer := Filled(before.framer, rest[..copied]));
      }
      if encodedSize == size {
        Done(data);
      }
    }

    lemma FilledFrameAv(av: Av, rest: seq<byte>, n: nat, silentAt: nat -> bool)
      requires format.Valid() && |av.framer.carry| + n == format.FrameSize() && n <= |rest|
      ensures FeedAv(format, av, rest, silentAt)
              == FeedAv(format, Tick(format, av, silentAt(|av.framer.sent|)).(framer := Filled(av.framer, rest[..n])),
                        rest[n..], silentAt)
    {
      var s := av.framer;
      var t := s.(carry := s.carry + rest);
      assert t.carry[..format.FrameSize()] == s.carry + rest[..n];
      assert t.carry[format.FrameSize()..] == rest[n..] == [] + rest[n..];
      assert Emit(format, t) == Filled(s, rest[..n]).(carry := [] + rest[n..]);
    }
  }
}
