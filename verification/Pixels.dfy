/** Row-major frame buffers: where pixels lie, and that they cover the buffer. */
module Pixels {
  import opened Bytes

  /** The offset of pixel (x, y): the row's start plus the column's. */
  function Offset(width: nat, bpp: nat, x: nat, y: nat): nat {
    y * (width * bpp) + x * bpp
  }

  function FrameSize(width: nat, height: nat, bpp: nat): nat {
    height * (width * bpp)
  }

  lemma MulMonotone(a: nat, b: nat, c: nat)
    requires a <= b
    ensures a * c <= b * c
  {
  }

  lemma MulNext(a: nat, c: nat)
    ensures (a + 1) * c == a * c + c
  {
  }

  /** A pixel lies inside its row, and a row inside the frame. */
  lemma PixelInside(width: nat, height: nat, bpp: nat, x: nat, y: nat)
    requires x < width && y < height
    ensures Offset(width, bpp, x, y) + bpp <= y * (width * bpp) + width * bpp <= FrameSize(width, height, bpp)
  {
    MulNext(x, bpp);
    MulMonotone(x + 1, width, bpp);
    MulNext(y, width * bpp);
    MulMonotone(y + 1, height, width * bpp);
  }

  function Pixel(frame: seq<byte>, width: nat, height: nat, bpp: nat, x: nat, y: nat): (p: seq<byte>)
    requires |frame| >= FrameSize(width, height, bpp) && x < width && y < height
    ensures |p| == bpp
  {
    PixelInside(width, height, bpp, x, y);
    frame[Offset(width, bpp, x, y)..Offset(width, bpp, x, y) + bpp]
  }

  /** A pixel of the frame holds byte `j`. */
  predicate HoldsByte(width: nat, bpp: nat, x: nat, y: nat, j: nat) {
    Offset(width, bpp, x, y) <= j < Offset(width, bpp, x, y) + bpp
  }

  /** Which of `count` consecutive stretches of length `size` a position falls in. */
  lemma {:induction false} Stretch(count: nat, size: nat, j: nat) returns (i: nat)
    requires j < count * size
    ensures i < count && i * size <= j < i * size + size
    decreases count
  {
    if count == 0 {
      assert false;
    }
    MulNext(count - 1, size);
    if (count - 1) * size <= j {
      i := count - 1;
    } else {
      i := Stretch(count - 1, size, j);
    }
  }

  /** Every byte of the frame belongs to a pixel. */
  lemma PixelOf(width: nat, height: nat, bpp: nat, j: nat) returns (x: nat, y: nat)
    requires j < FrameSize(width, height, bpp)
    ensures x < width && y < height && HoldsByte(width, bpp, x, y, j)
  {
    y := Stretch(height, width * bpp, j);
    x := Stretch(width, bpp, j - y * (width * bpp));
  }

  /** Frames are equal when all their pixels are. */
  lemma SamePixelsSameFrame(f: seq<byte>, g: seq<byte>, width: nat, height: nat, bpp: nat)
    requires |f| == |g| == FrameSize(width, height, bpp)
    requires forall x, y :: 0 <= x < width && 0 <= y < height ==>
               Pixel(f, width, height, bpp, x, y) == Pixel(g, width, height, bpp, x, y)
    ensures f == g
  {
    forall j | 0 <= j < |f|
      ensures f[j] == g[j]
    {
      var x, y := PixelOf(width, height, bpp, j);
      PixelByte(f, width, height, bpp, x, y, j);
      PixelByte(g, width, height, bpp, x, y, j);
    }
  }

  lemma PixelByte(f: seq<byte>, width: nat, height: nat, bpp: nat, x: nat, y: nat, j: nat)
    requires |f| >= FrameSize(width, height, bpp) && x < width && y < height
    requires HoldsByte(width, bpp, x, y, j)
    ensures j < FrameSize(width, height, bpp)
    ensures f[j] == Pixel(f, width, height, bpp, x, y)[j - Offset(width, bpp, x, y)]
  {
    PixelInside(width, height, bpp, x, y);
  }

  lemma OffsetIs(width: nat, bpp: nat, x: nat, y: nat)
    ensures Offset(width, bpp, x, y) == (y * width + x) * bpp
  {
    assert y * (width * bpp) == (y * width) * bpp;
  }

  /** Byte `k` of pixel (x, y) is byte `k` of the (y width + x)-th stretch of `bpp` bytes. */
  lemma PixelByteAt(f: seq<byte>, width: nat, height: nat, bpp: nat, x: nat, y: nat, k: nat)
    requires |f| >= FrameSize(width, height, bpp) && x < width && y < height && k < bpp
    ensures 0 <= (y * width + x) * bpp + k < FrameSize(width, height, bpp)
    ensures Pixel(f, width, height, bpp, x, y)[k] == f[(y * width + x) * bpp + k]
  {
    PixelInside(width, height, bpp, x, y);
    OffsetIs(width, bpp, x, y);
    hide Offset, FrameSize;
  }
}
