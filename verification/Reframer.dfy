/**
 What the framing loops of Encoder.cpp compute: buffers of any size cut into frames of a fixed
 number of bytes, each stamped with a running pts, with the rest carried over to the next buffer.
 Byte counts ignore channels, as the source does.
 */
module Reframer {
  import opened Arithmetic
  import opened Bytes

  datatype Format = Format(nbSamples: nat, audioBytes: nat, rate: nat, fps: nat) {
    predicate Valid() {
      nbSamples > 0 && audioBytes > 0 && rate > 0 && fps > 0
    }

    function FrameSize(): (n: nat)
      ensures Valid() ==> n > 0
    {
      nbSamples * audioBytes
    }
  }

  datatype Frame = Frame(pts: nat, bytes: seq<byte>)

  /** Bytes not yet framed, the pts of the next frame, and every frame handed to the codec since initialize. */
  datatype Framer = Framer(carry: seq<byte>, pts: nat, sent: seq<Frame>)

  const INITIAL := Framer([], 0, [])

  function Emit(f: Format, s: Framer): Framer
    requires f.Valid() && |s.carry| >= f.FrameSize()
  {
    Framer(s.carry[f.FrameSize()..], s.pts + f.nbSamples, s.sent + [Frame(s.pts, s.carry[..f.FrameSize()])])
  }

  function Drain(f: Format, s: Framer): Framer
    requires f.Valid()
    decreases |s.carry|
  {
    if |s.carry| < f.FrameSize() then s else Drain(f, Emit(f, s))
  }

  function Feed(f: Format, s: Framer, data: seq<byte>): Framer
    requires f.Valid()
  {
    Drain(f, s.(carry := s.carry + data))
  }

  function FrameBytes(sent: seq<Frame>): seq<byte> {
    if sent == [] then [] else FrameBytes(sent[..|sent| - 1]) + sent[|sent| - 1].bytes
  }

  /**
   Between calls the carry is shorter than a frame, and the n-th frame since initialize, counting
   from 0, has pts n * nbSamples and the full size.
   */
  ghost predicate Framed(f: Format, s: Framer) {
    && |s.carry| < f.FrameSize()
    && s.pts == |s.sent| * f.nbSamples
    && forall k :: 0 <= k < |s.sent| ==> s.sent[k].pts == k * f.nbSamples && |s.sent[k].bytes| == f.FrameSize()
  }

  /** Nothing is lost, invented or moved: frames, then carry, are what was framed, then carried, then fed. */
  lemma FeedConserves(f: Format, s: Framer, data: seq<byte>)
    requires f.Valid()
    ensures var r := Feed(f, s, data);
            FrameBytes(r.sent) + r.carry == FrameBytes(s.sent) + s.carry + data
            && |r.carry| < f.FrameSize()
  {
    DrainConserves(f, s.(carry := s.carry + data));
    assert FrameBytes(s.sent) + (s.carry + data) == FrameBytes(s.sent) + s.carry + data;
  }

  lemma {:induction false} DrainConserves(f: Format, s: Framer)
    requires f.Valid()
    ensures var r := Drain(f, s);
            FrameBytes(r.sent) + r.carry == FrameBytes(s.sent) + s.carry && |r.carry| < f.FrameSize()
    decreases |s.carry|
  {
    if |s.carry| >= f.FrameSize() {
      var e := Emit(f, s);
      DrainConserves(f, e);
      assert e.sent[..|e.sent| - 1] == s.sent;
      calc {
        FrameBytes(e.sent) + e.carry;
        FrameBytes(s.sent) + s.carry[..f.FrameSize()] + s.carry[f.FrameSize()..];
        FrameBytes(s.sent) + (s.carry[..f.FrameSize()] + s.carry[f.FrameSize()..]);
        { assert s.carry[..f.FrameSize()] + s.carry[f.FrameSize()..] == s.carry; }
        FrameBytes(s.sent) + s.carry;
      }
    }
  }

  /** Feeding keeps Framed and the frames already sent, adds (carry + data) / size frames and carries the remainder. */
  lemma FeedCounts(f: Format, s: Framer, data: seq<byte>)
    requires f.Valid() && Framed(f, s)
    ensures var r := Feed(f, s, data);
            Framed(f, r) && s.sent <= r.sent
            && |r.sent| == |s.sent| + (|s.carry| + |data|) / f.FrameSize()
            && |r.carry| == (|s.carry| + |data|) % f.FrameSize()
  {
    DrainCounts(f, s.(carry := s.carry + data));
  }

  lemma {:induction false} DrainCounts(f: Format, s: Framer)
    requires f.Valid() && Framed(f, s.(carry := []))
    ensures var r := Drain(f, s);
            Framed(f, r) && s.sent <= r.sent
            && |r.sent| == |s.sent| + |s.carry| / f.FrameSize()
            && |r.carry| == |s.carry| % f.FrameSize()
    decreases |s.carry|
  {
    if |s.carry| >= f.FrameSize() {
      var e := Emit(f, s);
      DivStep(|s.carry|, f.FrameSize());
      MulStep(|s.sent|, f.nbSamples);
      DrainCounts(f, e);
    } else {
      DivSmall(|s.carry|, f.FrameSize());
    }
  }

  /** Bytes k * size up to (k + 1) * size. */
  ghost predicate IsBlock(block: seq<byte>, stream: seq<byte>, size: nat, k: nat) {
    0 <= k * size <= (k + 1) * size <= |stream| && block == stream[k * size..(k + 1) * size]
  }

  lemma BlockShift(block: seq<byte>, stream: seq<byte>, size: nat, k: nat)
    requires size <= |stream| && k > 0 && IsBlock(block, stream[size..], size, k - 1)
    ensures IsBlock(block, stream, size, k)
  {
    MulStep(k - 1, size);
    MulStep(k, size);
  }

  /** The k-th new frame is the k-th block of the carried and fed bytes. */
  lemma {:induction false} FeedCutsInOrder(f: Format, s: Framer, data: seq<byte>, k: nat)
    requires f.Valid() && Framed(f, s)
    requires k < (|s.carry| + |data|) / f.FrameSize()
    ensures var r := Feed(f, s, data);
            |s.sent| + k < |r.sent| && IsBlock(r.sent[|s.sent| + k].bytes, s.carry + data, f.FrameSize(), k)
  {
    DrainCutsInOrder(f, s.(carry := s.carry + data), k);
  }

  lemma {:induction false} DrainCutsInOrder(f: Format, s: Framer, k: nat)
    requires f.Valid() && Framed(f, s.(carry := []))
    requires k < |s.carry| / f.FrameSize()
    ensures var r := Drain(f, s);
            |s.sent| + k < |r.sent| && IsBlock(r.sent[|s.sent| + k].bytes, s.carry, f.FrameSize(), k)
    decreases |s.carry|
  {
    var size := f.FrameSize();
    if |s.carry| < size {
      DivSmall(|s.carry|, size);
    }
    DivStep(|s.carry|, size);
    MulStep(|s.sent|, f.nbSamples);
    var e := Emit(f, s);
    DrainCounts(f, e);
    if k > 0 {
      DrainCutsInOrder(f, e, k - 1);
      BlockShift(Drain(f, s).sent[|s.sent| + k].bytes, s.carry, size, k);
    }
  }

  /** Feeding two buffers in turn is feeding their concatenation. */
  lemma FeedTwice(f: Format, s: Framer, a: seq<byte>, b: seq<byte>)
    requires f.Valid()
    ensures Feed(f, Feed(f, s, a), b) == Feed(f, s, a + b)
  {
    DrainLater(f, s.(carry := s.carry + a), b);
    assert s.carry + a + b == s.carry + (a + b);
  }

  lemma {:induction false} DrainLater(f: Format, s: Framer, b: seq<byte>)
    requires f.Valid()
    ensures Feed(f, Drain(f, s), b) == Feed(f, s, b)
    decreases |s.carry|
  {
    if |s.carry| >= f.FrameSize() {
      DrainLater(f, Emit(f, s), b);
      var t := s.(carry := s.carry + b);
      assert t.carry[..f.FrameSize()] == s.carry[..f.FrameSize()];
      assert t.carry[f.FrameSize()..] == s.carry[f.FrameSize()..] + b;
    }
  }

  function FeedAll(f: Format, s: Framer, buffers: seq<seq<byte>>): Framer
    requires f.Valid()
    decreases |buffers|
  {
    if buffers == [] then s else FeedAll(f, Feed(f, s, buffers[0]), buffers[1..])
  }

  /** However a byte stream is split into buffers, frames, pts and carry come out the same. */
  lemma ChunkingIsIrrelevant(f: Format, s: Framer, xs: seq<seq<byte>>, ys: seq<seq<byte>>)
    requires f.Valid() && |s.carry| < f.FrameSize()
    requires Concat(xs) == Concat(ys)
    ensures FeedAll(f, s, xs) == FeedAll(f, s, ys)
  {
    FeedAllIsFeed(f, s, xs);
    FeedAllIsFeed(f, s, ys);
  }

  lemma {:induction false} FeedAllIsFeed(f: Format, s: Framer, buffers: seq<seq<byte>>)
    requires f.Valid() && |s.carry| < f.FrameSize()
    ensures FeedAll(f, s, buffers) == Feed(f, s, Concat(buffers))
    decreases |buffers|
  {
    if buffers == [] {
      assert s.(carry := s.carry + []) == s;
    } else {
      FeedConserves(f, s, buffers[0]);
      FeedAllIsFeed(f, Feed(f, s, buffers[0]), buffers[1..]);
      FeedTwice(f, s, buffers[0], Concat(buffers[1..]));
    }
  }
}
