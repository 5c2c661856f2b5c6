/**
 The change scan of JpegCompressor.cpp: two RGB buffers are compared in 4-byte windows, one window
 at the first byte of every pixel but the bottom-right one, and the bounding box of the windows
 that differ is kept.
 */
module DirtyBox {
  import opened Arithmetic
  import opened Bytes

  datatype Picture = Picture(w: nat, h: nat, bytes: seq<byte>) {
    predicate Valid() {
      w > 0 && h > 0 && |bytes| == 3 * (w * h)
    }
  }

  /** A rectangle; the right and lower bounds are excluded. */
  datatype Box = Box(minX: nat, minY: nat, maxX: nat, maxY: nat)

  ghost predicate InBox(b: Box, x: nat, y: nat) {
    b.minX <= x < b.maxX && b.minY <= y < b.maxY
  }

  /** The raster index of pixel (x, y). */
  function Raster(w: nat, h: nat, x: nat, y: nat): (k: nat)
    requires x < w && y < h
    ensures k < w * h
    ensures k == w * h - 1 <==> IsCorner(w, h, x, y)
  {
    RasterBound(w, h, x, y);
    y * w + x
  }

  lemma RasterBound(w: nat, h: nat, x: nat, y: nat)
    requires x < w && y < h
    ensures 0 <= y * w + x < w * h
    ensures y * w + x == w * h - 1 <==> IsCorner(w, h, x, y)
  {
    assert w * h == (y + 1) * w + (h - 1 - y) * w;
    MulStep(y, w);
    if y < h - 1 {
      MulAtLeast(w, h - 1 - y);
    }
  }

  /** The bottom-right pixel, which the scan skips. */
  predicate IsCorner(w: nat, h: nat, x: nat, y: nat) {
    x + 1 == w && y + 1 == h
  }

  function PixelAt(p: Picture, x: nat, y: nat): seq<byte>
    requires p.Valid()
    requires x < p.w && y < p.h
  {
    var k := Raster(p.w, p.h, x, y);
    p.bytes[3 * k..3 * k + 3]
  }

  ghost predicate Comparable(p: Picture, q: Picture) {
    p.Valid() && q.Valid() && p.w == q.w && p.h == q.h
  }

  /** The 4 bytes from the first byte of pixel k on differ. */
  predicate WindowsDiffer(a: seq<byte>, b: seq<byte>, k: nat)
    requires 3 * k + 4 <= |a| == |b|
  {
    a[3 * k..3 * k + 4] != b[3 * k..3 * k + 4]
  }

  /** The windows at (x, y) are compared and differ. */
  ghost predicate Hot(p: Picture, q: Picture, x: nat, y: nat)
    requires Comparable(p, q)
  {
    x < p.w && y < p.h && !IsCorner(p.w, p.h, x, y) && WindowsDiffer(p.bytes, q.bytes, Raster(p.w, p.h, x, y))
  }

  ghost predicate HotColumn(p: Picture, q: Picture, x: int)
    requires Comparable(p, q)
  {
    x >= 0 && exists y: nat :: Hot(p, q, x, y)
  }

  ghost predicate HotRow(p: Picture, q: Picture, y: int)
    requires Comparable(p, q)
  {
    y >= 0 && exists x: nat :: Hot(p, q, x, y)
  }

  /**
   b is what the scan reports: nothing when no window differs, else the smallest box around the
   windows that do.
   */
  ghost predicate ScanResult(p: Picture, q: Picture, b: Option<Box>)
    requires Comparable(p, q)
  {
    match b
    case None => forall x: nat, y: nat :: !Hot(p, q, x, y)
    case Some(box) => Encloses(p, q, box) && Touches(p, q, box)
  }

  ghost predicate Encloses(p: Picture, q: Picture, box: Box)
    requires Comparable(p, q)
  {
    forall x: nat, y: nat :: Hot(p, q, x, y) ==> InBox(box, x, y)
  }

  /** Each side of the box has a differing window on it. */
  ghost predicate Touches(p: Picture, q: Picture, box: Box)
    requires Comparable(p, q)
  {
    && HotColumn(p, q, box.minX) && HotColumn(p, q, box.maxX - 1)
    && HotRow(p, q, box.minY) && HotRow(p, q, box.maxY - 1)
  }

  /** Before (i, j), row i and column j, in raster order. */
  ghost predicate Before(x: nat, y: nat, i: nat, j: nat) {
    y < i || (y == i && x < j)
  }

  ghost predicate Scanned(p: Picture, q: Picture, i: nat, j: nat, isChanged: bool,
                          minX: nat, minY: nat, maxX: nat, maxY: nat)
    requires Comparable(p, q)
  {
    && (forall x: nat, y: nat :: Hot(p, q, x, y) && Before(x, y, i, j) ==>
          isChanged && minX <= x <= maxX && minY <= y <= maxY)
    && (isChanged ==> HotColumn(p, q, minX) && HotRow(p, q, minY) && HotColumn(p, q, maxX) && HotRow(p, q, maxY))
    && (!isChanged ==> minX == p.w && minY == p.h && maxX == 0 && maxY == 0)
  }

  /** Both 4-byte reads lie inside their w * h * 3 bytes for every pixel but the corner. */
  method CompareAt(prev: Picture, data: Picture, i: nat, j: nat) returns (differs: bool)
    requires Comparable(prev, data) && i < data.h && j < data.w && !IsCorner(data.w, data.h, j, i)
    ensures differs == Hot(prev, data, j, i)
  {
    var k := Raster(data.w, data.h, j, i);
    var at := i * data.w * 3 + j * 3;
    assert at == 3 * k;
    differs := prev.bytes[at..at + 4] != data.bytes[at..at + 4];
  }

  function Min(a: nat, b: nat): nat { if a < b then a else b }

  function Max(a: nat, b: nat): nat { if a > b then a else b }

  lemma ScannedNext(p: Picture, q: Picture, i: nat, j: nat, isChanged: bool,
                    minX: nat, minY: nat, maxX: nat, maxY: nat)
    requires Comparable(p, q) && Scanned(p, q, i, j, isChanged, minX, minY, maxX, maxY)
    ensures !Hot(p, q, j, i) ==> Scanned(p, q, i, j + 1, isChanged, minX, minY, maxX, maxY)
    ensures Hot(p, q, j, i) ==>
              Scanned(p, q, i, j + 1, true, Min(j, minX), Min(i, minY), Max(j, maxX), Max(i, maxY))
  {
    forall x: nat, y: nat | Hot(p, q, x, y) && Before(x, y, i, j + 1) && !Before(x, y, i, j)
      ensures x == j && y == i
    {
    }
    if Hot(p, q, j, i) {
      assert HotColumn(p, q, j) && HotRow(p, q, i);
    }
  }

  /** A row is done when its last column, or in the last row its last but one, is. */
  lemma ScannedRow(p: Picture, q: Picture, i: nat, j: nat, isChanged: bool,
                   minX: nat, minY: nat, maxX: nat, maxY: nat)
    requires Comparable(p, q) && Scanned(p, q, i, j, isChanged, minX, minY, maxX, maxY)
    requires j == p.w || IsCorner(p.w, p.h, j, i)
    ensures Scanned(p, q, i + 1, 0, isChanged, minX, minY, maxX, maxY)
  {
    forall x: nat, y: nat | Hot(p, q, x, y) && Before(x, y, i + 1, 0)
      ensures Before(x, y, i, j)
    {
    }
  }

  method Scan(prev: Picture, data: Picture) returns (isChanged: bool, minX: nat, minY: nat, maxX: nat, maxY: nat)
    requires Comparable(prev, data)
    ensures ScanResult(prev, data, if isChanged then Some(Box(minX, minY, maxX, maxY)) else None)
  {
    var rawWidth, rawHeight := data.w, data.h;
    minX, minY, maxX, maxY := rawWidth, rawHeight, 0, 0;
    isChanged := false;
    for i := 0 to rawHeight
      invariant Scanned(prev, data, i, 0, isChanged, minX, minY, maxX, maxY)
    {
      var j := 0;
      while j < rawWidth
        invariant j <= rawWidth
        invariant Scanned(prev, data, i, j, isChanged, minX, minY, maxX, maxY)
      {
        if i == rawHeight - 1 && j == rawWidth - 1 {
          break;
        }
        ScannedNext(prev, data, i, j, isChanged, minX, minY, maxX, maxY);
        var differs := CompareAt(prev, data, i, j);
        if differs {
          isChanged := true;
          var posX, posY := j, i;
          if posX < minX {
            minX := posX;
          }
          if posY < minY {
            minY := posY;
          }
          if posX > maxX {
            maxX := posX;
          }
          if posY > maxY {
            maxY := posY;
          }
        }
        j := j + 1;
      }
      ScannedRow(prev, data, i, j, isChanged, minX, minY, maxX, maxY);
    }
    maxX := maxX + 1;
    maxY := maxY + 1;
    forall x: nat, y: nat | Hot(prev, data, x, y)
      ensures Before(x, y, rawHeight, 0)
    {
    }
  }

  // ----- What the scan result means -----

  /** A window differs iff the pixel changed or the first byte of its raster successor did. */
  lemma HotIff(p: Picture, q: Picture, x: nat, y: nat)
    requires Comparable(p, q) && x < p.w && y < p.h && !IsCorner(p.w, p.h, x, y)
    ensures var k := Raster(p.w, p.h, x, y);
            Hot(p, q, x, y) <==> PixelAt(p, x, y) != PixelAt(q, x, y) || p.bytes[3 * (k + 1)] != q.bytes[3 * (k + 1)]
  {
    WindowIff(p.bytes, q.bytes, Raster(p.w, p.h, x, y));
  }

  lemma WindowIff(a: seq<byte>, b: seq<byte>, k: nat)
    requires 3 * k + 4 <= |a| == |b|
    ensures WindowsDiffer(a, b, k) <==> a[3 * k..3 * k + 3] != b[3 * k..3 * k + 3] || a[3 * (k + 1)] != b[3 * (k + 1)]
  {
    var x, y := a[3 * k..3 * k + 4], b[3 * k..3 * k + 4];
    assert x == a[3 * k..3 * k + 3] + [x[3]] && y == b[3 * k..3 * k + 3] + [y[3]];
    assert x[..3] == a[3 * k..3 * k + 3] && y[..3] == b[3 * k..3 * k + 3];
  }

  /** The scan reports one box at most, so it is a function of the two buffers. */
  lemma ScanIsDetermined(p: Picture, q: Picture, a: Option<Box>, b: Option<Box>)
    requires Comparable(p, q) && ScanResult(p, q, a) && ScanResult(p, q, b)
    ensures a == b
  {
    if a.Some? && b.Some? {
      SmallestBox(p, q, a.value, b.value);
      SmallestBox(p, q, b.value, a.value);
    }
  }

  /** Any box around the differing windows contains the reported one. */
  lemma SmallestBox(p: Picture, q: Picture, box: Box, other: Box)
    requires Comparable(p, q) && ScanResult(p, q, Some(box)) && Encloses(p, q, other)
    ensures other.minX <= box.minX && other.minY <= box.minY && box.maxX <= other.maxX && box.maxY <= other.maxY
  {
  }

  /** The reported box is non-empty, inside the frame, and contains every changed pixel but possibly the corner. */
  lemma BoxIsSound(p: Picture, q: Picture, box: Box, x: nat, y: nat)
    requires Comparable(p, q) && ScanResult(p, q, Some(box))
    requires x < p.w && y < p.h && !IsCorner(p.w, p.h, x, y) && PixelAt(p, x, y) != PixelAt(q, x, y)
    ensures box.minX < box.maxX <= p.w && box.minY < box.maxY <= p.h
    ensures InBox(box, x, y)
  {
    HotIff(p, q, x, y);
  }

  lemma BoxInFrame(p: Picture, q: Picture, box: Box)
    requires Comparable(p, q) && ScanResult(p, q, Some(box))
    ensures box.minX < box.maxX <= p.w && box.minY < box.maxY <= p.h
  {
  }

  /**
   Nothing is reported iff the buffers agree on all but their last two bytes, or the frame is a
   single pixel; a one-pixel frame is never found changed.
   */
  lemma NothingReportedIff(p: Picture, q: Picture, b: Option<Box>)
    requires Comparable(p, q) && ScanResult(p, q, b)
    ensures b == None <==> p.w * p.h == 1 || p.bytes[..3 * (p.w * p.h) - 2] == q.bytes[..3 * (p.w * p.h) - 2]
  {
    RasterBound(p.w, p.h, 0, 0);
    if b == None {
      UnreportedAgree(p, q);
    } else {
      ReportedDiffer(p, q, b.value);
    }
  }

  /** Two one-pixel frames, black and white: nothing is reported although every byte changed. */
  lemma OnePixelExample()
    ensures var black, white := Picture(1, 1, [0, 0, 0]), Picture(1, 1, [255, 255, 255]);
            Comparable(black, white) && ScanResult(black, white, None) && black.bytes[..1] != white.bytes[..1]
  {
    var black, white := Picture(1, 1, [0, 0, 0]), Picture(1, 1, [255, 255, 255]);
    assert black.bytes[..1][0] != white.bytes[..1][0];
  }

  lemma UnreportedAgree(p: Picture, q: Picture)
    requires Comparable(p, q) && ScanResult(p, q, None) && p.w * p.h > 0
    ensures p.w * p.h == 1 || p.bytes[..3 * (p.w * p.h) - 2] == q.bytes[..3 * (p.w * p.h) - 2]
  {
    var n := p.w * p.h;
    if n > 1 {
      forall at | 0 <= at < 3 * n - 2
        ensures p.bytes[at] == q.bytes[at]
      {
        // The window of pixel at / 3 covers the byte, or the window before it does.
        var k := if at / 3 == n - 1 then n - 2 else at / 3;
        var x, y := Coordinates(p.w, p.h, k);
        assert !Hot(p, q, x, y);
        assert p.bytes[3 * k..3 * k + 4][at - 3 * k] == q.bytes[3 * k..3 * k + 4][at - 3 * k];
      }
    }
  }

  lemma ReportedDiffer(p: Picture, q: Picture, box: Box)
    requires Comparable(p, q) && ScanResult(p, q, Some(box))
    ensures 1 < p.w * p.h && p.bytes[..3 * (p.w * p.h) - 2] != q.bytes[..3 * (p.w * p.h) - 2]
  {
    assert HotColumn(p, q, box.minX);
    var y: nat :| Hot(p, q, box.minX, y);
    DifferBelow(p.bytes, q.bytes, Raster(p.w, p.h, box.minX, y), 3 * (p.w * p.h) - 2);
  }

  lemma DifferBelow(a: seq<byte>, b: seq<byte>, k: nat, end: int)
    requires 3 * k + 4 <= end <= |a| == |b| && WindowsDiffer(a, b, k)
    ensures a[..end] != b[..end]
  {
    assert a[3 * k..3 * k + 4] == a[..end][3 * k..3 * k + 4];
    assert b[3 * k..3 * k + 4] == b[..end][3 * k..3 * k + 4];
  }

  lemma Coordinates(w: nat, h: nat, k: nat) returns (x: nat, y: nat)
    requires w > 0 && k < w * h
    ensures x < w && y < h && Raster(w, h, x, y) == k
  {
    x, y := k % w, k / w;
    assert k == w * y + x;
    if y >= h {
      BelowProduct(w, h, y);
      assert false;
    }
  }
}
