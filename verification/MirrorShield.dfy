/** The mirror shield: painting the viewer's own window over, so that it cannot feed back into the capture. */
module MirrorShield {
  import opened Bytes
  import opened Wrappers
  import opened Pixels
  import opened DirtyRegion

  datatype WindowBounds = WindowBounds(x: int, y: int, width: int, height: int, isActive: bool)

  function Max(a: int, b: int): int { if a > b then a else b }
  function Min(a: int, b: int): int { if a < b then a else b }

  /** The window cut to the frame, as half-open ranges. */
  datatype Clip = Clip(startX: int, startY: int, endX: int, endY: int) {
    predicate Contains(x: int, y: int) {
      startX <= x < endX && startY <= y < endY
    }
  }

  function ClipOf(width: int, height: int, b: WindowBounds): (c: Clip)
    ensures forall x, y :: c.Contains(x, y) <==>
              0 <= x < width && 0 <= y < height && b.x <= x < b.x + b.width && b.y <= y < b.y + b.height
  {
    Clip(Max(0, b.x), Max(0, b.y), Min(width, b.x + b.width), Min(height, b.y + b.height))
  }

  /** The painted pixel: red, green and blue, then an opaque alpha if there are four bytes, and
      otherwise what the pixel held there. */
  function Paint(pixel: seq<byte>): (p: seq<byte>)
    requires |pixel| >= 3
    ensures |p| == |pixel|
  {
    [0x1e, 0x1e, 0x2e] + if |pixel| == 4 then [0xff] else pixel[3..]
  }

  /** Every pixel of the clip is painted and every other byte is as it was. */
  ghost predicate Painted(before: seq<byte>, after: seq<byte>, width: nat, height: nat, bpp: nat, clip: Clip)
    requires bpp >= 3
    requires |before| == |after| >= FrameSize(width, height, bpp)
  {
    && (forall x, y :: 0 <= x < width && 0 <= y < height ==>
          Pixel(after, width, height, bpp, x, y) ==
            var pixel := Pixel(before, width, height, bpp, x, y);
            if clip.Contains(x, y) then Paint(pixel) else pixel)
    && after[FrameSize(width, height, bpp)..] == before[FrameSize(width, height, bpp)..]
  }

  /** The clip of the rows and columns already painted. */
  predicate Progress(c: Clip, x: int, y: int, atX: int, atY: int) {
    c.Contains(x, y) && (y < atY || (y == atY && x < atX))
  }

  lemma PixelsApart(width: nat, bpp: nat, x: nat, y: nat, u: nat, v: nat)
    requires x < width && u < width && (x != u || y != v)
    ensures Offset(width, bpp, x, y) + bpp <= Offset(width, bpp, u, v) || Offset(width, bpp, u, v) + bpp <= Offset(width, bpp, x, y)
  {
    if y < v { RowBefore(width, bpp, x, y, u, v); }
    if v < y { RowBefore(width, bpp, u, v, x, y); }
    if y == v {
      if x < u { MulNext(x, bpp); MulMonotone(x + 1, u, bpp); }
      else { MulNext(u, bpp); MulMonotone(u + 1, x, bpp); }
    }
  }

  lemma RowBefore(width: nat, bpp: nat, x: nat, y: nat, u: nat, v: nat)
    requires x < width && y < v
    ensures Offset(width, bpp, x, y) + bpp <= Offset(width, bpp, u, v)
  {
    PixelInside(width, v, bpp, x, y);
  }

  /** Painting one pixel in place changes that pixel only. */
  method PaintPixel(frame: array<byte>, width: nat, height: nat, bpp: nat, x: nat, y: nat)
    requires bpp >= 3
    requires frame.Length >= FrameSize(width, height, bpp) && x < width && y < height
    modifies frame
    ensures Pixel(frame[..], width, height, bpp, x, y) == Paint(Pixel(old(frame[..]), width, height, bpp, x, y))
    ensures forall u, v :: 0 <= u < width && 0 <= v < height && (u != x || v != y) ==>
              Pixel(frame[..], width, height, bpp, u, v) == Pixel(old(frame[..]), width, height, bpp, u, v)
    ensures frame[FrameSize(width, height, bpp)..] == old(frame[FrameSize(width, height, bpp)..])
  {
    ghost var before := frame[..];
    var row := y * (width * bpp);
    var offset := x * bpp;
    PixelInside(width, height, bpp, x, y);
    var at := row + offset;
    frame[at + 0] := 0x1e;
    frame[at + 1] := 0x1e;
    frame[at + 2] := 0x2e;
    if bpp == 4 {
      frame[at + 3] := 0xff;
    }
    ghost var after := frame[..];
    assert forall j :: 0 <= j < |before| && !(at <= j < at + bpp) ==> after[j] == before[j];
    assert after[at..at + bpp] == Paint(before[at..at + bpp]);
    hide Paint, FrameSize;
    forall u, v | 0 <= u < width && 0 <= v < height && (u != x || v != y)
      ensures Pixel(after, width, height, bpp, u, v) == Pixel(before, width, height, bpp, u, v)
    {
      PixelsApart(width, bpp, u, v, x, y);
      PixelInside(width, height, bpp, u, v);
    }
  }

  /** `applyMirrorShield`; the clip is the whole effect. */
  method ApplyMirrorShield(frame: array?<byte>, width: int, height: int, bounds: WindowBounds, bpp: int)
    returns (applied: bool)
    requires bpp >= 3
    requires frame != null && width > 0 && height > 0 ==> frame.Length >= FrameSize(width, height, bpp)
    modifies frame
    ensures applied <==> frame != null && width > 0 && height > 0 && bounds.isActive &&
                         exists x, y :: ClipOf(width, height, bounds).Contains(x, y)
    ensures frame != null && !applied ==> frame[..] == old(frame[..])
    ensures applied ==> Painted(old(frame[..]), frame[..], width, height, bpp, ClipOf(width, height, bounds))
  {
    if frame == null || width <= 0 || height <= 0 || !bounds.isActive {
      return false;
    }
    var clip := ClipOf(width, height, bounds);
    if clip.startX >= clip.endX || clip.startY >= clip.endY {
      return false;
    }
    assert clip.Contains(clip.startX, clip.startY);
    PaintClip(frame, width, height, bpp, clip);
    return true;
  }

  /** The nested loops. */
  method PaintClip(frame: array<byte>, width: nat, height: nat, bpp: nat, clip: Clip)
    requires bpp >= 3
    requires frame.Length >= FrameSize(width, height, bpp)
    requires 0 <= clip.startX < clip.endX <= width && 0 <= clip.startY < clip.endY <= height
    modifies frame
    ensures Painted(old(frame[..]), frame[..], width, height, bpp, clip)
  {
    hide Pixel, FrameSize, Paint;
    ghost var before := frame[..];
    for y := clip.startY to clip.endY
      invariant forall u, v :: 0 <= u < width && 0 <= v < height ==>
                  Pixel(frame[..], width, height, bpp, u, v) ==
                    if Progress(clip, u, v, clip.startX, y) then Paint(Pixel(before, width, height, bpp, u, v)) else Pixel(before, width, height, bpp, u, v)
      invariant frame[FrameSize(width, height, bpp)..] == before[FrameSize(width, height, bpp)..]
    {
      for x := clip.startX to clip.endX
        invariant forall u, v :: 0 <= u < width && 0 <= v < height ==>
                    Pixel(frame[..], width, height, bpp, u, v) ==
                      if Progress(clip, u, v, x, y) then Paint(Pixel(before, width, height, bpp, u, v)) else Pixel(before, width, height, bpp, u, v)
        invariant frame[FrameSize(width, height, bpp)..] == before[FrameSize(width, height, bpp)..]
      {
        PaintPixel(frame, width, height, bpp, x, y);
      }
    }
  }

  /** What is painted, byte by byte: 1e 1e 2e in every pixel of the window, ff after it if pixels have
      four bytes, and nothing else of a longer pixel. */
  lemma ShieldBytes(before: seq<byte>, after: seq<byte>, width: nat, height: nat, bpp: nat, clip: Clip, x: nat, y: nat, k: nat)
    requires bpp >= 3 && |before| == |after| >= FrameSize(width, height, bpp)
    requires Painted(before, after, width, height, bpp, clip)
    requires x < width && y < height && clip.Contains(x, y) && k < bpp
    ensures 0 <= (y * width + x) * bpp + k < FrameSize(width, height, bpp)
    ensures after[(y * width + x) * bpp + k] ==
            if k <= 1 then 0x1e else if k == 2 then 0x2e else if bpp == 4 then 0xff
            else before[(y * width + x) * bpp + k]
  {
    hide Pixel;
    PixelByteAt(before, width, height, bpp, x, y, k);
    PixelByteAt(after, width, height, bpp, x, y, k);
    var at := (y * width + x) * bpp + k;
    assert Pixel(after, width, height, bpp, x, y) == Paint(Pixel(before, width, height, bpp, x, y));
  }

  // ---------- severing ----------

  /** Bytes of the pixel that the shield leaves. */
  function Unpainted(pixel: seq<byte>): seq<byte>
    requires |pixel| >= 3
  {
    if |pixel| == 4 then [] else pixel[3..]
  }

  lemma PaintIff(p: seq<byte>, q: seq<byte>)
    requires |p| == |q| >= 3
    ensures Paint(p) == Paint(q) <==> Unpainted(p) == Unpainted(q)
  {
    assert Paint(p)[3..] == if |p| == 4 then [0xff] else p[3..];
    assert Paint(q)[3..] == if |q| == 4 then [0xff] else q[3..];
  }

  /** The frames show the same outside the window, and inside it in the bytes that are not painted,
      of which a pixel of three or four bytes has none. */
  ghost predicate SameButForWindow(f: seq<byte>, g: seq<byte>, width: nat, height: nat, bpp: nat, clip: Clip)
    requires bpp >= 3 && |f| == |g| == FrameSize(width, height, bpp)
  {
    forall x, y :: 0 <= x < width && 0 <= y < height ==>
      var p, q := Pixel(f, width, height, bpp, x, y), Pixel(g, width, height, bpp, x, y);
      if clip.Contains(x, y) then Unpainted(p) == Unpainted(q) else p == q
  }

  /** Two shielded frames are equal, and the detector reports nothing, exactly when the frames differed
      in what the window shows alone: it cannot mirror itself, and nothing else is hidden. */
  lemma ShieldSevers(f: seq<byte>, g: seq<byte>, f': seq<byte>, g': seq<byte>, width: nat, height: nat, bpp: nat,
                     clip: Clip, r: DirtyRect)
    requires width > 0 && height > 0 && bpp >= 3
    requires |f| == |g| == |f'| == |g'| == FrameSize(width, height, bpp)
    requires Painted(f, f', width, height, bpp, clip) && Painted(g, g', width, height, bpp, clip)
    requires FramePair(f', g', width, height, bpp).Exact(r)
    ensures f' == g' <==> SameButForWindow(f, g, width, height, bpp, clip)
    ensures r == CLEAN <==> SameButForWindow(f, g, width, height, bpp, clip)
  {
    hide Pixel, Paint, Unpainted;
    forall x, y | 0 <= x < width && 0 <= y < height
      ensures Paint(Pixel(f, width, height, bpp, x, y)) == Paint(Pixel(g, width, height, bpp, x, y)) <==>
              Unpainted(Pixel(f, width, height, bpp, x, y)) == Unpainted(Pixel(g, width, height, bpp, x, y))
    {
      PaintIff(Pixel(f, width, height, bpp, x, y), Pixel(g, width, height, bpp, x, y));
    }
    if SameButForWindow(f, g, width, height, bpp, clip) {
      SamePixelsSameFrame(f', g', width, height, bpp);
    }
    var pair := FramePair(f', g', width, height, bpp);
    assert f'[..FrameSize(width, height, bpp)] == f' && g'[..FrameSize(width, height, bpp)] == g';
    DirtyIffBytesDiffer(pair, r);
  }
}
