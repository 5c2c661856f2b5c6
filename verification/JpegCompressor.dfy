/** The image loop of JpegCompressor.cpp, one uninterrupted iteration at a time. */
module ImageLoop {
  import opened Bytes
  import opened DirtyBox
  import opened DeltaStream

  class JpegCompressor {
    var fullFlag: bool
    // Variables of compressJpegLoop.
    var width: nat
    var height: nat
    var prevBuf: Option<Picture>
    var seqNo: nat
    // What sendImageInit and sendImage were called with.
    var wire: seq<Message>

    ghost predicate Valid()
      reads this
    {
      LoopValid(State())
    }

    /** The loop between two iterations. */
    ghost function State(): Loop
      reads this
    {
      Loop(AtGrab, width, height, prevBuf, prevBuf, fullFlag, seqNo)
    }

    /** initialize, and the start of the loop thread. */
    constructor (width: nat, height: nat)
      ensures Valid() && State() == Loop(AtGrab, width, height, None, None, false, 0)
      ensures wire == [Init(width, height)]
    {
      fullFlag := false;
      this.width, this.height := width, height;
      prevBuf := None;
      seqNo := 0;
      wire := [Init(width, height)];
    }

    method SendFull()
      requires Valid()
      modifies this
      ensures Valid() && State() == LoopStep(old(State()), RequestFull).0 && wire == old(wire)
    {
      fullFlag := true;
    }

    /** From the capture up to the scan: resize, then the full-frame flag. */
    method Prepare(data: Picture)
      requires Valid() && data.Valid()
      modifies this
      ensures Loop(AtSend, width, height, prevBuf, Some(data), fullFlag, seqNo) == Prepared(old(State()), data)
      ensures wire == old(wire) + Messages(LoopStep(old(State()), Grab(data)).1)
    {
      var rawWidth, rawHeight := data.w, data.h;
      if rawWidth != width || rawHeight != height {
        width := rawWidth;
        height := rawHeight;
        wire := wire + [Init(width, height)];
        prevBuf := None;
      }
      if fullFlag {
        prevBuf := None;
        fullFlag := false;
      }
    }

    method Iterate(data: Picture) returns (ghost box: Option<Box>)
      requires Valid() && data.Valid()
      modifies this
      ensures Valid() && prevBuf == Some(data)
      ensures Enabled(Prepared(old(State()), data), Send(box))
      ensures State() == LoopStep(Prepared(old(State()), data), Send(box)).0
      ensures wire == old(wire) + Wire(old(State()), data, box)
    {
      Prepare(data);
      var rawWidth, rawHeight := data.w, data.h;
      var isChanged, minX, minY, maxX, maxY := true, 0, 0, rawWidth, rawHeight;
      if prevBuf.Some? {
        isChanged, minX, minY, maxX, maxY := Scan(prevBuf.value, data);
      }
      ghost var ready := Loop(AtSend, width, height, prevBuf, Some(data), fullFlag, seqNo);
      box := if isChanged then Some(Box(minX, minY, maxX, maxY)) else None;
      SentBoxFits(ready, box);
      NonEmpty(data);
      prevBuf := Some(data);
      if isChanged {
        wire := wire + [Patch(seqNo, Box(minX, minY, maxX, maxY), PixelsIn(data, Box(minX, minY, maxX, maxY)))];
        seqNo := seqNo + 1;
      }
    }
  }
}
