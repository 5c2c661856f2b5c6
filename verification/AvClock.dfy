/**
 The clock the audio loop keeps while it frames: the pts of each frame is rescaled to video ticks
 and, unless the source is silent, a video frame is requested whenever the rescaled value moves.
 The silent flag is set by another thread, so its value is given frame by frame.
 */
module AvClock {
  import opened Arithmetic
  import opened Bytes
  import opened Reframer

  /** av_rescale_q from 1/rate to 1/fps: nearest, halves away from zero, for a non-negative pts. */
  function Rescale(f: Format, pts: nat): nat
    requires f.Valid()
  {
    var dividend: nat := pts * f.fps + f.rate / 2;
    DivNonNegative(dividend, f.rate);
    dividend / f.rate
  }

  /** The framer, videoSyncPts, and how many video frames have been requested since initialize. */
  datatype Av = Av(framer: Framer, sync: nat, requests: nat)

  const AV_INITIAL := Av(INITIAL, 0, 0)

  /** The decision taken for the frame about to be sent. */
  function Tick(f: Format, av: Av, silent: bool): Av
    requires f.Valid()
  {
    var tick := Rescale(f, av.framer.pts);
    if !silent && tick != av.sync then av.(sync := tick, requests := av.requests + 1)
    else av.(sync := tick)
  }

  /** The decision for one frame and its sending. */
  function SendFrame(f: Format, av: Av, silentAt: nat -> bool): Av
    requires f.Valid() && |av.framer.carry| >= f.FrameSize()
  {
    Tick(f, av, silentAt(|av.framer.sent|)).(framer := Emit(f, av.framer))
  }

  function DrainAv(f: Format, av: Av, silentAt: nat -> bool): Av
    requires f.Valid()
    decreases |av.framer.carry|
  {
    if |av.framer.carry| < f.FrameSize() then av
    else DrainAv(f, SendFrame(f, av, silentAt), silentAt)
  }

  function FeedAv(f: Format, av: Av, data: seq<byte>, silentAt: nat -> bool): Av
    requires f.Valid()
  {
    DrainAv(f, av.(framer := av.framer.(carry := av.framer.carry + data)), silentAt)
  }

  /** The framing inside encodeAudioLoop and encodeAudioImpl agree: the clock does not touch frames, pts or carry. */
  lemma {:induction false} CopiesAgree(f: Format, av: Av, data: seq<byte>, silentAt: nat -> bool)
    requires f.Valid()
    ensures FeedAv(f, av, data, silentAt).framer == Feed(f, av.framer, data)
  {
    DrainsAgree(f, av.(framer := av.framer.(carry := av.framer.carry + data)), silentAt);
  }

  lemma {:induction false} DrainsAgree(f: Format, av: Av, silentAt: nat -> bool)
    requires f.Valid()
    ensures DrainAv(f, av, silentAt).framer == Drain(f, av.framer)
    decreases |av.framer.carry|
  {
    if |av.framer.carry| >= f.FrameSize() {
      DrainsAgree(f, SendFrame(f, av, silentAt), silentAt);
    }
  }

  /** The rescaled pts of the last of the first n frames. */
  function SyncAfter(f: Format, n: nat): nat
    requires f.Valid()
  {
    if n == 0 then 0 else Rescale(f, (n - 1) * f.nbSamples)
  }

  /** How many of the first n frames were sounding and moved the rescaled pts. */
  function Requests(f: Format, silentAt: nat -> bool, n: nat): nat
    requires f.Valid()
  {
    if n == 0 then 0
    else Requests(f, silentAt, n - 1)
         + if !silentAt(n - 1) && SyncAfter(f, n) != SyncAfter(f, n - 1) then 1 else 0
  }

  /** The clock is that of the frames sent so far: videoSyncPts is the rescaled pts of the last one. */
  ghost predicate InSync(f: Format, av: Av, silentAt: nat -> bool)
    requires f.Valid()
  {
    && Framed(f, av.framer)
    && av.sync == SyncAfter(f, |av.framer.sent|)
    && av.requests == Requests(f, silentAt, |av.framer.sent|)
  }

  lemma InitiallyInSync(f: Format, silentAt: nat -> bool)
    requires f.Valid()
    ensures InSync(f, AV_INITIAL, silentAt)
  {
  }

  lemma FeedKeepsSync(f: Format, av: Av, data: seq<byte>, silentAt: nat -> bool)
    requires f.Valid() && InSync(f, av, silentAt)
    ensures InSync(f, FeedAv(f, av, data, silentAt), silentAt)
  {
    DrainKeepsSync(f, av.(framer := av.framer.(carry := av.framer.carry + data)), silentAt);
  }

  /** After each frame, sounding or silent, videoSyncPts is the rescaled pts of that very frame. */
  lemma FrameKeepsSync(f: Format, av: Av, silentAt: nat -> bool)
    requires f.Valid() && |av.framer.carry| >= f.FrameSize()
    requires InSync(f, av.(framer := av.framer.(carry := [])), silentAt)
    ensures var av' := SendFrame(f, av, silentAt);
            |av'.framer.sent| == |av.framer.sent| + 1
            && av'.sync == Rescale(f, av'.framer.sent[|av.framer.sent|].pts)
            && InSync(f, av'.(framer := av'.framer.(carry := [])), silentAt)
  {
    MulStep(|av.framer.sent|, f.nbSamples);
  }

  lemma {:induction false} DrainKeepsSync(f: Format, av: Av, silentAt: nat -> bool)
    requires f.Valid() && InSync(f, av.(framer := av.framer.(carry := [])), silentAt)
    ensures InSync(f, DrainAv(f, av, silentAt), silentAt)
    decreases |av.framer.carry|
  {
    if |av.framer.carry| >= f.FrameSize() {
      FrameKeepsSync(f, av, silentAt);
      DrainKeepsSync(f, SendFrame(f, av, silentAt), silentAt);
    }
  }

  // ----- Arithmetic of the rescaling -----

  /** Within half a tick, and in the middle between two ticks the later one: there is no other such value. */
  lemma RescaleIsNearest(f: Format, pts: nat)
    requires f.Valid()
    ensures 0 - f.rate < 2 * (Rescale(f, pts) * f.rate - pts * f.fps) <= f.rate
  {
    var dividend := pts * f.fps + f.rate / 2;
    assert dividend == f.rate * (dividend / f.rate) + dividend % f.rate;
  }

  lemma RescaleOfZero(f: Format)
    requires f.Valid()
    ensures Rescale(f, 0) == 0
  {
    DivSmall(f.rate / 2, f.rate);
  }

  /** One frame never moves the tick back, and by at most one when a frame is no longer than a tick. */
  lemma SyncMoves(f: Format, n: nat)
    requires f.Valid()
    ensures SyncAfter(f, n) <= SyncAfter(f, n + 1)
    ensures f.nbSamples * f.fps <= f.rate ==> SyncAfter(f, n + 1) <= SyncAfter(f, n) + 1
  {
    if n == 0 {
      RescaleOfZero(f);
    } else {
      MulStep(n - 1, f.nbSamples);
      var p, q := (n - 1) * f.nbSamples, n * f.nbSamples;
      assert q * f.fps == p * f.fps + f.nbSamples * f.fps;
      assert f.nbSamples * f.fps >= 0;
      DivMonotone(p * f.fps + f.rate / 2, q * f.fps + f.rate / 2, f.rate);
    }
  }

  ghost predicate Sounding(silentAt: nat -> bool, i: nat, j: nat) {
    forall k: nat :: i <= k < j ==> !silentAt(k)
  }

  /**
   Over a sounding stretch the requests never exceed the growth of the tick, and equal it when a
   frame is no longer than a tick.
   */
  lemma {:induction false} StretchRequests(f: Format, silentAt: nat -> bool, i: nat, j: nat)
    requires f.Valid() && i <= j && Sounding(silentAt, i, j)
    ensures Requests(f, silentAt, j) - Requests(f, silentAt, i) <= SyncAfter(f, j) - SyncAfter(f, i)
    ensures f.nbSamples * f.fps <= f.rate ==>
              Requests(f, silentAt, j) - Requests(f, silentAt, i) == SyncAfter(f, j) - SyncAfter(f, i)
    decreases j
  {
    if i < j {
      StretchRequests(f, silentAt, i, j - 1);
      SyncMoves(f, j - 1);
    }
  }

  lemma {:induction false} RequestsAtMostFrames(f: Format, silentAt: nat -> bool, n: nat)
    requires f.Valid()
    ensures Requests(f, silentAt, n + 1) <= n
  {
    if n == 0 {
      RescaleOfZero(f);
    } else {
      RequestsAtMostFrames(f, silentAt, n - 1);
    }
  }

  ghost predicate EveryTickRequested(f: Format)
    requires f.Valid()
  {
    forall i: nat, j: nat :: i <= j ==>
      Requests(f, (_: nat) => false, j) - Requests(f, (_: nat) => false, i) == SyncAfter(f, j) - SyncAfter(f, i)
  }

  /** Every tick of every all-sounding stretch is requested exactly when a frame is no longer than a tick. */
  lemma EveryTickRequestedIff(f: Format)
    requires f.Valid()
    ensures EveryTickRequested(f) <==> f.nbSamples * f.fps <= f.rate
  {
    var sounding: nat -> bool := (_: nat) => false;
    if f.nbSamples * f.fps <= f.rate {
      forall i: nat, j: nat | i <= j
        ensures Requests(f, sounding, j) - Requests(f, sounding, i) == SyncAfter(f, j) - SyncAfter(f, i)
      {
        StretchRequests(f, sounding, i, j);
      }
    } else {
      // After rate frames the tick has moved by nbSamples * fps, more than one a frame.
      RequestsAtMostFrames(f, sounding, f.rate);
      TickAfterOneRate(f);
      assert Requests(f, sounding, f.rate + 1) - Requests(f, sounding, 0) < SyncAfter(f, f.rate + 1) - SyncAfter(f, 0);
    }
  }

  lemma TickAfterOneRate(f: Format)
    requires f.Valid()
    ensures SyncAfter(f, f.rate + 1) == f.nbSamples * f.fps
  {
    var whole := f.nbSamples * f.fps;
    assert f.rate * f.nbSamples * f.fps == f.rate * whole;
    DivUnique(f.rate * whole + f.rate / 2, f.rate, whole, f.rate / 2);
  }

  /**
   No drift: from initialize on, an all-sounding run has requested one video frame per tick of the
   last frame sent, and that count is within half a tick of the audio clock.
   */
  lemma NoDrift(f: Format, av: Av, silentAt: nat -> bool)
    requires f.Valid() && f.nbSamples * f.fps <= f.rate
    requires InSync(f, av, silentAt) && |av.framer.sent| > 0 && Sounding(silentAt, 0, |av.framer.sent|)
    ensures av.requests == av.sync
    ensures var last := av.framer.sent[|av.framer.sent| - 1].pts;
            0 - f.rate <= 2 * (av.requests * f.rate - last * f.fps) <= f.rate
  {
    var n := |av.framer.sent|;
    StretchRequests(f, silentAt, 0, n);
    RescaleIsNearest(f, (n - 1) * f.nbSamples);
  }

  // ----- Silence and resynchronisation -----

  /** Bytes of the silent buffer queued with each silent video frame. */
  function SilentBytes(f: Format): nat
    requires f.Valid()
  {
    DivNonNegative(f.audioBytes * f.rate, f.fps);
    f.audioBytes * f.rate / f.fps
  }

  /**
   n silent ticks fall short of the video time, counted in 1/fps of a byte, by less than n bytes; by
   nothing iff fps divides.
   */
  lemma SilentDrift(f: Format, n: nat)
    requires f.Valid() && n > 0
    ensures var short := n * (f.audioBytes * f.rate) - n * SilentBytes(f) * f.fps;
            0 <= short < n * f.fps && (short == 0 <==> (f.audioBytes * f.rate) % f.fps == 0)
  {
    var total, per := f.audioBytes * f.rate, SilentBytes(f);
    var m := total % f.fps;
    assert total == f.fps * per + m;
    assert n * total == n * (f.fps * per) + n * m;
    assert n * (f.fps * per) == n * per * f.fps;
    MulBelow(n, m, f.fps);
  }

  /** The video clock has reached the audio clock. */
  predicate VideoNotBehind(f: Format, videoPts: nat, audioPts: nat) {
    videoPts * f.rate >= audioPts * f.fps
  }

  /** Zero bytes appended when the loop first sees the silent flag change; video must not be behind. */
  function PadBytes(f: Format, videoPts: nat, audioPts: nat): nat
    requires f.Valid() && VideoNotBehind(f, videoPts, audioPts)
  {
    var lead: nat := videoPts * f.rate - audioPts * f.fps;
    DivNonNegative(f.audioBytes * lead, f.fps);
    f.audioBytes * lead / f.fps
  }

  /** Conversion of a real to an integer, towards zero. */
  function Truncate(x: real): int {
    if x >= 0.0 then x.Floor else -((-x).Floor)
  }

  /** The padded size computed from the two clock readings, in exact arithmetic, then truncated. */
  function PaddedSize(f: Format, size: nat, videoPts: nat, audioPts: nat): int
    requires f.Valid()
  {
    var videoTime := videoPts as real / f.fps as real;
    var audioTime := audioPts as real / f.rate as real;
    Truncate(size as real + (f.audioBytes * f.rate) as real * (videoTime - audioTime))
  }

  /** The padding is not negative; the source clears that many bytes behind the element. */
  predicate Paddable(f: Format, size: nat, videoPts: nat, audioPts: nat)
    requires f.Valid()
  {
    PaddedSize(f, size, videoPts, audioPts) >= size
  }

  /**
   The padding is not negative iff video is not behind, or the element is empty and video is behind
   by less than a byte. It is the lead of the video clock in whole bytes, in the second case none.
   */
  lemma PaddedSizeIsExact(f: Format, size: nat, videoPts: nat, audioPts: nat)
    requires f.Valid()
    ensures Paddable(f, size, videoPts, audioPts)
            <==> VideoNotBehind(f, videoPts, audioPts)
                 || (size == 0 && f.audioBytes * (audioPts * f.fps - videoPts * f.rate) < f.fps)
    ensures VideoNotBehind(f, videoPts, audioPts) ==>
              PaddedSize(f, size, videoPts, audioPts) == size + PadBytes(f, videoPts, audioPts)
    ensures Paddable(f, size, videoPts, audioPts) && !VideoNotBehind(f, videoPts, audioPts) ==>
              PaddedSize(f, size, videoPts, audioPts) == size
  {
    if VideoNotBehind(f, videoPts, audioPts) {
      PaddedAhead(f, size, videoPts, audioPts);
    } else {
      PaddedBehind(f, size, videoPts, audioPts);
    }
  }

  lemma PaddedAhead(f: Format, size: nat, videoPts: nat, audioPts: nat)
    requires f.Valid() && VideoNotBehind(f, videoPts, audioPts)
    ensures PaddedSize(f, size, videoPts, audioPts) == size + PadBytes(f, videoPts, audioPts)
  {
    var lead: nat := videoPts * f.rate - audioPts * f.fps;
    var scaled := f.audioBytes * lead;
    assert scaled >= 0;
    PaddedSizeAs(f, size, videoPts, audioPts, lead);
    FloorOfQuotient(size, scaled, f.fps);
    DivNonNegative(scaled, f.fps);
  }

  lemma PaddedBehind(f: Format, size: nat, videoPts: nat, audioPts: nat)
    requires f.Valid() && !VideoNotBehind(f, videoPts, audioPts)
    ensures var late := f.audioBytes * (audioPts * f.fps - videoPts * f.rate);
            (Paddable(f, size, videoPts, audioPts) <==> size == 0 && late < f.fps)
            && (Paddable(f, size, videoPts, audioPts) ==> PaddedSize(f, size, videoPts, audioPts) == size)
  {
    var lag := audioPts * f.fps - videoPts * f.rate;
    PaddedSizeAs(f, size, videoPts, audioPts, -lag);
    Opposite(f.audioBytes, lag, f.fps);
    MulAtLeast(f.audioBytes, lag);
    TruncatedBehind(size, f.audioBytes * lag, f.fps);
  }

  lemma PaddedSizeAs(f: Format, size: nat, videoPts: nat, audioPts: nat, lead: int)
    requires f.Valid() && lead == videoPts * f.rate - audioPts * f.fps
    ensures PaddedSize(f, size, videoPts, audioPts)
            == Truncate(size as real + (f.audioBytes * lead) as real / f.fps as real)
  {
    ClockDifference(f, videoPts, audioPts);
  }

  lemma QuotientIsZero(a: nat, d: nat)
    requires d > 0
    ensures a / d >= 0 && (a / d == 0 <==> a < d)
  {
    DivNonNegative(a, d);
    if a < d {
      DivSmall(a, d);
    } else {
      DivStep(a, d);
      DivNonNegative(a - d, d);
    }
  }

  lemma Opposite(a: int, b: int, d: nat)
    requires d > 0
    ensures (a * -b) as real / d as real == -((a * b) as real / d as real)
  {
    assert a * -b == -(a * b);
    var x := (a * b) as real;
    assert (-(a * b)) as real == -x;
    assert -x / d as real == -(x / d as real);
  }

  /** Taking away a positive quotient leaves less after truncation, unless nothing less is left. */
  lemma TruncatedBehind(size: nat, a: nat, d: nat)
    requires a > 0 && d > 0
    ensures var r := Truncate(size as real - a as real / d as real);
            (r >= size <==> size == 0 && a < d) && (size == 0 && a < d ==> r == 0)
  {
    var x := a as real / d as real;
    FloorOfQuotient(0, a, d);
    assert x.Floor == a / d by {
      assert 0 as real + x == x;
    }
    QuotientIsZero(a, d);
    assert x > 0.0;
  }

  lemma ClockDifference(f: Format, videoPts: nat, audioPts: nat)
    requires f.Valid()
    ensures (f.audioBytes * f.rate) as real * (videoPts as real / f.fps as real - audioPts as real / f.rate as real)
            == (f.audioBytes * (videoPts * f.rate - audioPts * f.fps)) as real / f.fps as real
  {
    var ab, r, p, v, a := f.audioBytes as real, f.rate as real, f.fps as real, videoPts as real, audioPts as real;
    assert (f.audioBytes * f.rate) as real == ab * r;
    assert (f.audioBytes * (videoPts * f.rate - audioPts * f.fps)) as real == ab * (v * r - a * p);
    Reals(ab, r, p, v, a);
  }

  lemma Reals(ab: real, r: real, p: real, v: real, a: real)
    requires r > 0.0 && p > 0.0
    ensures ab * r * (v / p - a / r) == ab * (v * r - a * p) / p
  {
    var x, y := v / p, a / r;
    assert v == x * p && a == y * r;
    assert v * r - a * p == r * p * (x - y);
    assert ab * (v * r - a * p) == ab * r * (x - y) * p;
  }

  lemma FloorOfQuotient(size: int, a: int, d: nat)
    requires d > 0
    ensures (size as real + a as real / d as real).Floor == size + a / d
  {
    var q, m := a / d, a % d;
    assert a == d * q + m;
    assert a as real == d as real * q as real + m as real;
    var x := a as real / d as real;
    var y := m as real / d as real;
    assert x == q as real + y;
    assert 0.0 <= y < 1.0;
  }

  /**
   Once the padded element is fed, the bytes framed, carried and fed add up to the video time in
   bytes, rounded down, plus the carry and the element; exactly the video time when fps divides rate.
   */
  lemma ResyncMeetsVideo(f: Format, s: Framer, size: nat, videoPts: nat)
    requires f.Valid() && Framed(f, s) && VideoNotBehind(f, videoPts, s.pts)
    ensures f.audioBytes * s.pts + |s.carry| + (size + PadBytes(f, videoPts, s.pts))
            == f.audioBytes * (videoPts * f.rate) / f.fps + |s.carry| + size
    ensures |FrameBytes(s.sent)| == f.audioBytes * s.pts
    ensures f.rate % f.fps == 0 ==>
              f.audioBytes * (videoPts * f.rate) / f.fps == f.audioBytes * (videoPts * (f.rate / f.fps))
  {
    PadReachesVideo(f.audioBytes, f.rate, f.fps, videoPts, s.pts);
    FramedLength(f, s, |s.sent|);
    assert s.sent[..|s.sent|] == s.sent;
    Rearrange(|s.sent|, f.nbSamples, f.audioBytes);
    if f.rate % f.fps == 0 {
      WholeTicks(f.audioBytes, f.rate, f.fps, videoPts);
    }
  }

  lemma PadReachesVideo(bytes: nat, rate: nat, fps: nat, videoPts: nat, audioPts: nat)
    requires fps > 0
    ensures bytes * (videoPts * rate - audioPts * fps) / fps == bytes * (videoPts * rate) / fps - bytes * audioPts
  {
    var video, audio := bytes * (videoPts * rate), bytes * audioPts;
    assert bytes * (videoPts * rate - audioPts * fps) == video - bytes * (audioPts * fps);
    Rearrange(bytes, audioPts, fps);
    var q, m := video / fps, video % fps;
    assert fps * (q - audio) == fps * q - fps * audio;
    DivUnique(video - fps * audio, fps, q - audio, m);
  }

  lemma WholeTicks(bytes: nat, rate: nat, fps: nat, videoPts: nat)
    requires fps > 0 && rate % fps == 0
    ensures bytes * (videoPts * rate) / fps == bytes * (videoPts * (rate / fps))
  {
    var k := rate / fps;
    assert rate == fps * k;
    Rearrange(videoPts, k, fps);
    Rearrange(bytes, videoPts * k, fps);
    DivUnique(fps * (bytes * (videoPts * k)), fps, bytes * (videoPts * k), 0);
  }

  lemma {:induction false} FramedLength(f: Format, s: Framer, n: nat)
    requires f.Valid() && Framed(f, s) && n <= |s.sent|
    ensures |FrameBytes(s.sent[..n])| == n * f.FrameSize()
  {
    if n > 0 {
      FramedLength(f, s, n - 1);
      assert s.sent[..n][..n - 1] == s.sent[..n - 1];
      MulStep(n - 1, f.FrameSize());
    }
  }
}
