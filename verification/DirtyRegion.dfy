/** The dirty-region detector: the exact bounding box of the pixels that differ. */
module DirtyRegion {
  import opened Bytes
  import opened Wrappers
  import opened Pixels

  datatype DirtyRect = DirtyRect(x: int, y: int, width: int, height: int, isDirty: bool)

  const CLEAN: DirtyRect := DirtyRect(0, 0, 0, 0, false)

  /** Two frames of one geometry. */
  datatype FramePair = FramePair(prev: seq<byte>, curr: seq<byte>, width: nat, height: nat, bpp: nat) {
    ghost predicate Valid() {
      && width > 0 && height > 0 && bpp > 0
      && |prev| >= FrameSize(width, height, bpp) && |curr| >= FrameSize(width, height, bpp)
    }

    predicate Differs(x: int, y: int)
      requires Valid()
    {
      && 0 <= x < width && 0 <= y < height
      && Pixel(prev, width, height, bpp, x, y) != Pixel(curr, width, height, bpp, x, y)
    }

    lemma DiffersInside(x: int, y: int)
      requires Valid() && Differs(x, y)
      ensures 0 <= x < width && 0 <= y < height
    {
    }

    lemma RowsInside()
      requires Valid()
      ensures forall x, y :: Differs(x, y) ==> 0 <= y < height
    {
    }

    lemma TouchesInside(left: int, top: int, right: int, bottom: int)
      requires Valid() && Touches(left, top, right, bottom)
      ensures 0 <= left < width && 0 < right <= width && 0 <= top < height && 0 < bottom <= height
    {
    }

    ghost predicate DirtyColumn(x: int)
      requires Valid()
    {
      exists y :: Differs(x, y)
    }

    ghost predicate DirtyRow(y: int)
      requires Valid()
    {
      exists x :: Differs(x, y)
    }

    /** The rectangle holds every differing pixel. */
    ghost predicate Encloses(left: int, top: int, right: int, bottom: int)
      requires Valid()
    {
      forall x, y :: Differs(x, y) ==> left <= x < right && top <= y < bottom
    }

    /** Every edge of the rectangle has a differing pixel on it. */
    ghost predicate Touches(left: int, top: int, right: int, bottom: int)
      requires Valid()
    {
      DirtyColumn(left) && DirtyColumn(right - 1) && DirtyRow(top) && DirtyRow(bottom - 1)
    }

    /** What the detector promises of its result. */
    ghost predicate Exact(r: DirtyRect)
      requires Valid()
    {
      if exists x, y :: Differs(x, y) then
        && r.isDirty
        && Encloses(r.x, r.y, r.x + r.width, r.y + r.height)
        && Touches(r.x, r.y, r.x + r.width, r.y + r.height)
      else r == CLEAN
    }

    function Row(frame: seq<byte>, y: nat): (s: seq<byte>)
      requires Valid() && y < height && |frame| >= FrameSize(width, height, bpp)
      ensures |s| == width * bpp
    {
      PixelInside(width, height, bpp, 0, y);
      frame[y * (width * bpp)..y * (width * bpp) + width * bpp]
    }

    /** Comparing rows as wholes finds exactly the rows with a differing pixel. */
    lemma RowDiffersIff(y: nat)
      requires Valid() && y < height
      ensures Row(prev, y) != Row(curr, y) <==> DirtyRow(y)
    {
      hide Row, Pixel;
      if Row(prev, y) != Row(curr, y) {
        var j :| 0 <= j < width * bpp && Row(prev, y)[j] != Row(curr, y)[j];
        var x := Stretch(width, bpp, j);
        PixelInRow(prev, x, y);
        PixelInRow(curr, x, y);
        SliceDiffers(Row(prev, y), Row(curr, y), x * bpp, bpp, j);
        assert Differs(x, y);
      } else {
        forall x | 0 <= x < width
          ensures !Differs(x, y)
        {
          PixelInRow(prev, x, y);
          PixelInRow(curr, x, y);
        }
      }
    }

    lemma PixelInRow(frame: seq<byte>, x: nat, y: nat)
      requires Valid() && x < width && y < height && |frame| >= FrameSize(width, height, bpp)
      ensures x * bpp + bpp <= width * bpp
      ensures Pixel(frame, width, height, bpp, x, y) == Row(frame, y)[x * bpp..x * bpp + bpp]
    {
      PixelInside(width, height, bpp, x, y);
      var stride := width * bpp;
      var at, i := y * stride, x * bpp;
      assert Offset(width, bpp, x, y) == at + i && i + bpp <= stride && at + stride <= |frame|;
      SliceOfSlice(frame, at, stride, i, bpp);
    }
  }

  lemma SliceDiffers(s: seq<byte>, t: seq<byte>, at: nat, n: nat, j: nat)
    requires |s| == |t| && at <= j < at + n <= |s| && s[j] != t[j]
    ensures s[at..at + n] != t[at..at + n]
  {
    assert s[at..at + n][j - at] != t[at..at + n][j - at];
  }

  // ---------- the loops ----------

  /** The inner loop: stretch the columns to take in every differing pixel of a row. */
  method ScanRow(pair: FramePair, y: nat, minX0: int, maxX0: int) returns (minX: int, maxX: int)
    requires pair.Valid() && y < pair.height
    ensures minX <= minX0 && maxX0 <= maxX
    ensures forall x :: pair.Differs(x, y) ==> minX <= x < maxX
    ensures minX == minX0 || pair.Differs(minX, y)
    ensures maxX == maxX0 || pair.Differs(maxX - 1, y)
  {
    minX, maxX := minX0, maxX0;
    var prevRow, currRow := pair.Row(pair.prev, y), pair.Row(pair.curr, y);
    for x := 0 to pair.width
      invariant minX <= minX0 && maxX0 <= maxX
      invariant forall k :: k < x && pair.Differs(k, y) ==> minX <= k < maxX
      invariant minX == minX0 || pair.Differs(minX, y)
      invariant maxX == maxX0 || pair.Differs(maxX - 1, y)
    {
      hide Pixel;
      var offset := x * pair.bpp;
      pair.PixelInRow(pair.prev, x, y);
      pair.PixelInRow(pair.curr, x, y);
      if prevRow[offset..offset + pair.bpp] != currRow[offset..offset + pair.bpp] {
        assert pair.Differs(x, y);
        minX := if x < minX then x else minX;
        maxX := if x + 1 > maxX then x + 1 else maxX;
      }
    }
  }

  /** A row with a difference: take in the row, then its columns. */
  method TakeRow(pair: FramePair, y: nat, minX0: int, minY0: int, maxX0: int, maxY0: int, ghost found: bool)
    returns (minY: int, maxY: int, minX: int, maxX: int)
    requires pair.Valid() && y < pair.height && pair.DirtyRow(y)
    requires if found then pair.Touches(minX0, minY0, maxX0, maxY0) && maxY0 <= y
             else minX0 == pair.width && minY0 == pair.height && maxX0 == -1 && maxY0 == -1
    requires forall x, r :: r < y && pair.Differs(x, r) ==> found && minX0 <= x < maxX0 && minY0 <= r < maxY0
    ensures forall x, r :: r < y + 1 && pair.Differs(x, r) ==> minX <= x < maxX && minY <= r < maxY
    ensures pair.Touches(minX, minY, maxX, maxY) && maxY <= y + 1
    ensures exists x, r :: pair.Differs(x, r)
  {
    hide FramePair.Differs;
    minY := if y < minY0 then y else minY0;
    maxY := if y + 1 > maxY0 then y + 1 else maxY0;
    minX, maxX := ScanRow(pair, y, minX0, maxX0);
    var x0 :| pair.Differs(x0, y);
    pair.DiffersInside(x0, y);
    assert minX != minX0 ==> pair.DirtyColumn(minX);
    assert maxX != maxX0 ==> pair.DirtyColumn(maxX - 1);
    if found {
      pair.TouchesInside(minX0, minY0, maxX0, maxY0);
    }
  }

  /** `detectDirtyRegion`; None is a null frame pointer. */
  method DetectDirtyRegion(prevFrame: Option<seq<byte>>, currFrame: Option<seq<byte>>, width: int, height: int, bytesPerPixel: int)
    returns (rect: DirtyRect)
    requires bytesPerPixel > 0
    requires width > 0 && height > 0 && currFrame.Some? ==> |currFrame.value| >= FrameSize(width, height, bytesPerPixel)
    requires width > 0 && height > 0 && prevFrame.Some? ==> |prevFrame.value| >= FrameSize(width, height, bytesPerPixel)
    ensures currFrame.None? || width <= 0 || height <= 0 ==> rect == CLEAN
    ensures currFrame.Some? && width > 0 && height > 0 && prevFrame.None? ==> rect == DirtyRect(0, 0, width, height, true)
    ensures currFrame.Some? && width > 0 && height > 0 && prevFrame.Some? ==>
              FramePair(prevFrame.value, currFrame.value, width, height, bytesPerPixel).Exact(rect)
  {
    hide FramePair.Differs, FramePair.Row, FramePair.Touches;
    rect := CLEAN;
    if currFrame.None? || width <= 0 || height <= 0 {
      return;
    }
    if prevFrame.None? {
      return DirtyRect(0, 0, width, height, true);
    }
    var pair := FramePair(prevFrame.value, currFrame.value, width, height, bytesPerPixel);
    var minX, minY, maxX, maxY := width, height, -1, -1;
    ghost var found := false;
    pair.RowsInside();
    for y := 0 to height
      invariant found ==> exists x, r :: pair.Differs(x, r)
      invariant !found ==> minX == width && minY == height && maxX == -1 && maxY == -1
      invariant forall x, r :: r < y && pair.Differs(x, r) ==> found && minX <= x < maxX && minY <= r < maxY
      invariant found ==> pair.Touches(minX, minY, maxX, maxY) && maxY <= y
    {
      pair.RowDiffersIff(y);
      if pair.Row(pair.prev, y) != pair.Row(pair.curr, y) {
        minY, maxY, minX, maxX := TakeRow(pair, y, minX, minY, maxX, maxY, found);
        found := true;
      }
    }
    if found {
      pair.TouchesInside(minX, minY, maxX, maxY);
    }
    if maxX >= minX && maxY >= minY {
      rect := DirtyRect(minX, minY,
                        if width - minX < maxX - minX then width - minX else maxX - minX,
                        if height - minY < maxY - minY then height - minY else maxY - minY,
                        true);
    }
  }

  // ---------- what exactness gives ----------

  /** Dirty exactly when some byte of the frames differs. */
  lemma DirtyIffBytesDiffer(pair: FramePair, r: DirtyRect)
    requires pair.Valid() && pair.Exact(r)
    ensures var n := FrameSize(pair.width, pair.height, pair.bpp);
            r.isDirty <==> pair.prev[..n] != pair.curr[..n]
  {
    var n := FrameSize(pair.width, pair.height, pair.bpp);
    if pair.prev[..n] == pair.curr[..n] {
      forall x, y | 0 <= x < pair.width && 0 <= y < pair.height
        ensures !pair.Differs(x, y)
      {
        PixelOfPrefix(pair.prev, pair, x, y);
        PixelOfPrefix(pair.curr, pair, x, y);
      }
    } else {
      var j :| 0 <= j < n && pair.prev[j] != pair.curr[j];
      var x, y := PixelOf(pair.width, pair.height, pair.bpp, j);
      PixelByte(pair.prev, pair.width, pair.height, pair.bpp, x, y, j);
      PixelByte(pair.curr, pair.width, pair.height, pair.bpp, x, y, j);
      assert pair.Differs(x, y);
    }
  }

  lemma PixelOfPrefix(f: seq<byte>, pair: FramePair, x: nat, y: nat)
    requires pair.Valid() && |f| >= FrameSize(pair.width, pair.height, pair.bpp) && x < pair.width && y < pair.height
    ensures Pixel(f, pair.width, pair.height, pair.bpp, x, y)
            == Pixel(f[..FrameSize(pair.width, pair.height, pair.bpp)], pair.width, pair.height, pair.bpp, x, y)
  {
    PixelInside(pair.width, pair.height, pair.bpp, x, y);
  }

  /** No rectangle that holds every differing pixel is smaller on any side. */
  lemma RectIsLeast(pair: FramePair, r: DirtyRect, left: int, top: int, right: int, bottom: int)
    requires pair.Valid() && pair.Exact(r) && r.isDirty
    requires pair.Encloses(left, top, right, bottom)
    ensures left <= r.x && r.x + r.width <= right && top <= r.y && r.y + r.height <= bottom
    ensures 0 <= r.x < r.x + r.width <= pair.width && 0 <= r.y < r.y + r.height <= pair.height
  {
    hide FramePair.Differs;
    pair.TouchesInside(r.x, r.y, r.x + r.width, r.y + r.height);
  }

  /** Byte `j` belongs to a pixel of the rectangle. */
  ghost predicate InRect(pair: FramePair, r: DirtyRect, j: nat) {
    exists x: nat, y: nat :: r.x <= x < r.x + r.width && r.y <= y < r.y + r.height && HoldsByte(pair.width, pair.bpp, x, y, j)
  }

  /** The old frame with the rectangle's pixels copied from the new one. */
  ghost function Patch(pair: FramePair, r: DirtyRect): (s: seq<byte>)
    requires pair.Valid()
    ensures |s| == FrameSize(pair.width, pair.height, pair.bpp)
  {
    seq(FrameSize(pair.width, pair.height, pair.bpp), j requires 0 <= j < FrameSize(pair.width, pair.height, pair.bpp) =>
      if r.isDirty && InRect(pair, r, j) then pair.curr[j] else pair.prev[j])
  }

  /** Sending just the rectangle is enough: patching the old frame gives the new one. */
  lemma PatchGivesCurrent(pair: FramePair, r: DirtyRect)
    requires pair.Valid() && pair.Exact(r)
    ensures Patch(pair, r) == pair.curr[..FrameSize(pair.width, pair.height, pair.bpp)]
  {
    forall j | 0 <= j < FrameSize(pair.width, pair.height, pair.bpp)
      ensures Patch(pair, r)[j] == pair.curr[j]
    {
      if !(r.isDirty && InRect(pair, r, j)) {
        var x, y := PixelOf(pair.width, pair.height, pair.bpp, j);
        assert !pair.Differs(x, y);
        PixelByte(pair.prev, pair.width, pair.height, pair.bpp, x, y, j);
        PixelByte(pair.curr, pair.width, pair.height, pair.bpp, x, y, j);
      }
    }
  }
}
