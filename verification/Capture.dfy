/** The X11 capture: converting a screen image, and sending a frame only when the screen changed. */
module Capture {
  import opened Bytes
  import opened Wrappers
  import opened Pixels
  import opened DirtyRegion
  import opened FrameSender

  /** What the display server returns: rows of pixels, blue first. */
  datatype XImage = XImage(data: seq<byte>, bytesPerLine: nat, bitsPerPixel: nat) {
    function Source(x: nat, y: nat): nat {
      y * bytesPerLine + x * (bitsPerPixel / 8)
    }

    /** Three bytes can be read at every pixel. */
    ghost predicate Readable(width: nat, height: nat) {
      forall x: nat, y: nat :: x < width && y < height ==> Source(x, y) + 2 < |data|
    }

    /** Red, green, blue and an opaque alpha. */
    function Rgba(x: nat, y: nat): (p: seq<byte>)
      requires Source(x, y) + 2 < |data|
      ensures |p| == 4
    {
      [data[Source(x, y) + 2], data[Source(x, y) + 1], data[Source(x, y)], 0xff]
    }
  }

  /** The converted screen: one pixel after the other, row by row. */
  ghost predicate IsScreen(pixels: seq<byte>, image: XImage, width: nat, height: nat)
    requires image.Readable(width, height)
  {
    && |pixels| == FrameSize(width, height, 4)
    && forall x, y :: 0 <= x < width && 0 <= y < height ==>
         Pixel(pixels, width, height, 4, x, y) == image.Rgba(x, y)
  }

  /** The conversion defines every byte. */
  lemma ScreenIsUnique(p: seq<byte>, q: seq<byte>, image: XImage, width: nat, height: nat)
    requires image.Readable(width, height)
    requires IsScreen(p, image, width, height) && IsScreen(q, image, width, height)
    ensures p == q
  {
    hide Pixel, XImage.Rgba;
    SamePixelsSameFrame(p, q, width, height, 4);
  }

  function RowOf(image: XImage, width: nat, height: nat, y: nat, n: nat): (s: seq<byte>)
    requires image.Readable(width, height) && y < height && n <= width
    ensures |s| == 4 * n
  {
    if n == 0 then [] else RowOf(image, width, height, y, n - 1) + image.Rgba(n - 1, y)
  }

  function RowsOf(image: XImage, width: nat, height: nat, n: nat): (s: seq<byte>)
    requires image.Readable(width, height) && n <= height
    ensures |s| == n * (width * 4)
  {
    if n == 0 then []
    else
      MulNext(n - 1, width * 4);
      RowsOf(image, width, height, n - 1) + RowOf(image, width, height, n - 1, width)
  }

  function Converted(image: XImage, width: nat, height: nat): seq<byte>
    requires image.Readable(width, height)
  {
    RowsOf(image, width, height, height)
  }

  lemma {:induction false} RowHolds(image: XImage, width: nat, height: nat, y: nat, n: nat, x: nat)
    requires image.Readable(width, height) && y < height && x < n <= width
    ensures RowOf(image, width, height, y, n)[4 * x..4 * x + 4] == image.Rgba(x, y)
    decreases n
  {
    hide XImage.Rgba;
    if x == n - 1 {
    } else {
      RowHolds(image, width, height, y, n - 1, x);
    }
  }

  lemma {:induction false} RowsHold(image: XImage, width: nat, height: nat, n: nat, x: nat, y: nat)
    requires image.Readable(width, height) && n <= height && y < n && x < width
    ensures y * (width * 4) + x * 4 + 4 <= n * (width * 4)
    ensures RowsOf(image, width, height, n)[y * (width * 4) + x * 4..y * (width * 4) + x * 4 + 4] == image.Rgba(x, y)
    decreases n
  {
    hide XImage.Rgba, RowOf;
    PixelInside(width, n, 4, x, y);
    MulNext(n - 1, width * 4);
    var before := RowsOf(image, width, height, n - 1);
    var row := RowOf(image, width, height, n - 1, width);
    var at := y * (width * 4) + x * 4;
    if y < n - 1 {
      RowsHold(image, width, height, n - 1, x, y);
      assert (before + row)[at..at + 4] == before[at..at + 4];
    } else {
      RowHolds(image, width, height, y, width, x);
      assert |before| == y * (width * 4);
      assert (before + row)[at..at + 4] == row[x * 4..x * 4 + 4];
    }
  }

  lemma ConvertedIsScreen(image: XImage, width: nat, height: nat)
    requires image.Readable(width, height)
    ensures IsScreen(Converted(image, width, height), image, width, height)
  {
    hide XImage.Rgba, RowsOf;
    forall x, y | 0 <= x < width && 0 <= y < height
      ensures Pixel(Converted(image, width, height), width, height, 4, x, y) == image.Rgba(x, y)
    {
      RowsHold(image, width, height, height, x, y);
    }
  }

  /** The conversion by indices: four bytes for every pixel, row by row, taken from the display's bytes
      at the row's pitch and the pixel's size, third byte first, and the last one opaque. */
  lemma ConvertedBytes(image: XImage, width: nat, height: nat, x: nat, y: nat)
    requires image.Readable(width, height) && x < width && y < height
    ensures var p := Converted(image, width, height);
            var to, from := (y * width + x) * 4, y * image.bytesPerLine + x * (image.bitsPerPixel / 8);
            && 0 <= to && to + 3 < |p| && 0 <= from && from + 2 < |image.data|
            && p[to] == image.data[from + 2] && p[to + 1] == image.data[from + 1]
            && p[to + 2] == image.data[from] && p[to + 3] == 0xff
  {
    hide Converted, Pixel, FrameSize;
    var p := Converted(image, width, height);
    ConvertedIsScreen(image, width, height);
    PixelByteAt(p, width, height, 4, x, y, 0);
    PixelByteAt(p, width, height, 4, x, y, 1);
    PixelByteAt(p, width, height, 4, x, y, 2);
    PixelByteAt(p, width, height, 4, x, y, 3);
    assert image.Source(x, y) + 2 < |image.data|;
  }

  /** The frame shown when there is no display: one dark colour, 0xFF1E1E2E, in every pixel. */
  function TestPattern(width: nat, height: nat): (s: seq<byte>)
    ensures |s| == 4 * (width * height)
  {
    Fill(width * height)
  }

  function Fill(n: nat): (s: seq<byte>)
    ensures |s| == 4 * n
  {
    if n == 0 then [] else Fill(n - 1) + [0x2e, 0x1e, 0x1e, 0xff]
  }

  /** Every pixel of the pattern: blue first, as the 32-bit colour lies in memory. */
  lemma {:induction false} PatternBytes(n: nat, i: nat)
    requires i < n
    ensures Fill(n)[4 * i] == 0x2e && Fill(n)[4 * i + 1] == 0x1e && Fill(n)[4 * i + 2] == 0x1e && Fill(n)[4 * i + 3] == 0xff
    decreases n
  {
    if i == n - 1 {
    } else {
      PatternBytes(n - 1, i);
    }
  }

  // ---------- the state ----------

  /** The counter, the last frame kept for comparison, and, outside the source's own fields, the
      pixels of the last frame returned and whether they came from the display. */
  datatype CaptureState = CaptureState(counter: u64, prev: seq<byte>, shown: Option<seq<byte>>, fromDisplay: bool)

  const INITIAL: CaptureState := CaptureState(0, [], None, false)

  function NextCounter(n: u64): u64 {
    if n + 1 == TWO64 then 0 else n + 1
  }

  /** One call: `screen` is the converted display image, None when none could be taken. */
  function CaptureStep(width: nat, height: nat, st: CaptureState, screen: Option<seq<byte>>): CaptureState {
    var n := NextCounter(st.counter);
    match screen
    case None => st.(counter := n, shown := Some(TestPattern(width, height)), fromDisplay := false)
    case Some(pixels) =>
      if st.prev != [] && st.prev == pixels then st.(counter := n)
      else CaptureState(n, pixels, Some(pixels), true)
  }

  /** Whether the call returned a frame. */
  predicate Returns(st: CaptureState, screen: Option<seq<byte>>) {
    screen.None? || st.prev == [] || st.prev != screen.value
  }

  class X11Capture {
    const width: u32
    const height: u32
    var frameCounter: u64
    var prevFrameData: seq<byte>
    ghost var shown: Option<seq<byte>>
    ghost var fromDisplay: bool

    ghost function State(): CaptureState
      reads this
    {
      CaptureState(frameCounter, prevFrameData, shown, fromDisplay)
    }

    constructor (width: u32, height: u32)
      ensures this.width == width && this.height == height
      ensures State() == INITIAL
    {
      this.width, this.height := width, height;
      frameCounter, prevFrameData := 0, [];
      shown, fromDisplay := None, false;
    }

    /** The conversion loops: rows, then pixels, four bytes at a time. */
    method Convert(image: XImage) returns (pixels: array<byte>)
      requires image.Readable(width, height)
      ensures fresh(pixels) && pixels[..] == Converted(image, width, height)
    {
      hide RowsOf, XImage.Rgba;
      pixels := new byte[FrameSize(width, height, 4)](_ => 0);
      var dstRow := 0;
      ConvertNothing(image, width, height);
      for y := 0 to height
        invariant dstRow == y * (width * 4) <= pixels.Length
        invariant pixels[..dstRow] == RowsOf(image, width, height, y)
      {
        MulNext(y, width * 4);
        MulMonotone(y + 1, height, width * 4);
        ConvertRow(pixels, dstRow, image, y);
        ConvertedRow(image, width, height, y);
        dstRow := dstRow + width * 4;
      }
    }

    method ConvertRow(pixels: array<byte>, dstRow: nat, image: XImage, y: nat)
      requires image.Readable(width, height) && y < height
      requires dstRow + width * 4 <= pixels.Length
      modifies pixels
      ensures pixels[..dstRow + width * 4] == old(pixels[..dstRow]) + RowOf(image, width, height, y, width)
    {
      hide RowOf, XImage.Rgba;
      ghost var before := pixels[..dstRow];
      ConvertNoPixel(image, width, height, y);
      for x := 0 to width
        invariant pixels[..dstRow + x * 4] == before + RowOf(image, width, height, y, x)
      {
        ConvertPixel(pixels, dstRow + x * 4, image, x, y);
        ConvertedPixel(image, width, height, y, x);
      }
    }

    /** The four assignments for one pixel. */
    method ConvertPixel(pixels: array<byte>, at: nat, image: XImage, x: nat, y: nat)
      requires at + 4 <= pixels.Length && image.Source(x, y) + 2 < |image.data|
      modifies pixels
      ensures pixels[..at + 4] == old(pixels[..at]) + image.Rgba(x, y)
    {
      var source := image.Source(x, y);
      hide XImage.Source;
      var b := image.data[source + 0];
      var g := image.data[source + 1];
      var r := image.data[source + 2];
      pixels[at + 0] := r;
      pixels[at + 1] := g;
      pixels[at + 2] := b;
      pixels[at + 3] := 0xff;
    }

    /** One capture. The image is whatever the display returned; the time comes from outside. */
    method CaptureSingleFrame(ximage: Option<XImage>, timestampUs: u64) returns (frame: Option<FrameData>)
      requires ximage.Some? ==> ximage.value.Readable(width, height)
      modifies this
      ensures var screen := if ximage.Some? then Some(Converted(ximage.value, width, height)) else None;
              && State() == CaptureStep(width, height, old(State()), screen)
              && (frame.Some? <==> Returns(old(State()), screen))
              && (frame.Some? ==>
                    && frame.value.width == width && frame.value.height == height
                    && frame.value.frameNumber == frameCounter && frame.value.timestampUs == timestampUs
                    && shown == Some(frame.value.pixelData))
    {
      hide Converted, TestPattern;
      frameCounter := NextCounter(frameCounter);
      if ximage.Some? {
        var buffer := Convert(ximage.value);
        var pixelData := buffer[..];
        if prevFrameData != [] && |prevFrameData| == |pixelData| {
          ScreenSize(ximage.value, width, height);
          var dirty := DetectDirtyRegion(Some(prevFrameData), Some(pixelData), width, height, 4);
          NonEmptyFrame(width, height, pixelData);
          DirtyIffDifferent(prevFrameData, pixelData, width, height, dirty);
          if !dirty.isDirty {
            return None;
          }
        }
        prevFrameData := pixelData;
        shown, fromDisplay := Some(pixelData), true;
        return Some(FrameData(width, height, frameCounter, timestampUs, pixelData));
      }
      var pattern := TestPattern(width, height);
      shown, fromDisplay := Some(pattern), false;
      return Some(FrameData(width, height, frameCounter, timestampUs, pattern));
    }
  }

  lemma ConvertNothing(image: XImage, width: nat, height: nat)
    requires image.Readable(width, height)
    ensures RowsOf(image, width, height, 0) == []
  {
  }

  lemma ConvertNoPixel(image: XImage, width: nat, height: nat, y: nat)
    requires image.Readable(width, height) && y < height
    ensures RowOf(image, width, height, y, 0) == []
  {
  }

  lemma ConvertedPixel(image: XImage, width: nat, height: nat, y: nat, x: nat)
    requires image.Readable(width, height) && y < height && x < width
    ensures RowOf(image, width, height, y, x + 1) == RowOf(image, width, height, y, x) + image.Rgba(x, y)
  {
    hide XImage.Rgba;
  }

  lemma ConvertedRow(image: XImage, width: nat, height: nat, y: nat)
    requires image.Readable(width, height) && y < height
    ensures RowsOf(image, width, height, y + 1) == RowsOf(image, width, height, y) + RowOf(image, width, height, y, width)
  {
    hide RowOf;
  }

  lemma ScreenSize(image: XImage, width: nat, height: nat)
    requires image.Readable(width, height)
    ensures |Converted(image, width, height)| == FrameSize(width, height, 4)
  {
    hide RowOf;
  }

  lemma NonEmptyFrame(width: nat, height: nat, pixels: seq<byte>)
    requires |pixels| == FrameSize(width, height, 4) && pixels != []
    ensures width > 0 && height > 0
  {
  }

  lemma DirtyIffDifferent(prev: seq<byte>, curr: seq<byte>, width: nat, height: nat, r: DirtyRect)
    requires width > 0 && height > 0
    requires |prev| == |curr| == FrameSize(width, height, 4)
    requires FramePair(prev, curr, width, height, 4).Exact(r)
    ensures r.isDirty <==> prev != curr
  {
    DirtyIffBytesDiffer(FramePair(prev, curr, width, height, 4), r);
    assert prev[..FrameSize(width, height, 4)] == prev && curr[..FrameSize(width, height, 4)] == curr;
  }

  // ---------- runs ----------

  function Run(width: nat, height: nat, screens: seq<Option<seq<byte>>>): CaptureState {
    if screens == [] then INITIAL
    else CaptureStep(width, height, Run(width, height, screens[..|screens| - 1]), screens[|screens| - 1])
  }

  /** In every reachable state the frame kept for comparison is the last one returned, unless a
      test pattern was returned since; and then that pattern is what was returned. */
  lemma {:induction false} KeptFrameWasShown(width: nat, height: nat, screens: seq<Option<seq<byte>>>)
    ensures var st := Run(width, height, screens);
            && (st.fromDisplay ==> st.shown == Some(st.prev))
            && (!st.fromDisplay && st.shown.Some? ==> st.shown == Some(TestPattern(width, height)))
            && (st.prev != [] ==> st.shown.Some?)
    decreases |screens|
  {
    hide TestPattern;
    if screens == [] {
    } else {
      KeptFrameWasShown(width, height, screens[..|screens| - 1]);
    }
  }

  /** The last image the display gave was `pixels`. */
  ghost predicate LastImage(screens: seq<Option<seq<byte>>>, pixels: seq<byte>) {
    exists j :: 0 <= j < |screens| && ImageSince(screens, j, pixels)
  }

  /** Call `j` gave `pixels`, and no call after it gave another image. */
  ghost predicate ImageSince(screens: seq<Option<seq<byte>>>, j: nat, pixels: seq<byte>)
    requires j < |screens|
  {
    && screens[j] == Some(pixels)
    && forall k :: j < k < |screens| ==> screens[k].None? || screens[k] == Some(pixels)
  }

  /** The display's image has been `pixels` since before some missed call. */
  ghost predicate MissedSince(screens: seq<Option<seq<byte>>>, pixels: seq<byte>) {
    exists j, i :: 0 <= j < i < |screens| && ImageSince(screens, j, pixels) && screens[i].None?
  }

  lemma LastImageStep(screens: seq<Option<seq<byte>>>, pixels: seq<byte>)
    requires screens != []
    ensures var n := |screens| - 1;
            LastImage(screens, pixels) <==> screens[n] == Some(pixels) || (screens[n].None? && LastImage(screens[..n], pixels))
  {
    var n := |screens| - 1;
    var front := screens[..n];
    if LastImage(front, pixels) && screens[n].None? {
      var j :| 0 <= j < n && ImageSince(front, j, pixels);
      assert ImageSince(screens, j, pixels);
    }
    if LastImage(screens, pixels) && screens[n].None? {
      var j :| 0 <= j < |screens| && ImageSince(screens, j, pixels);
      assert ImageSince(front, j, pixels);
    }
    if screens[n] == Some(pixels) {
      assert ImageSince(screens, n, pixels);
    }
  }

  lemma MissedSinceStep(screens: seq<Option<seq<byte>>>, pixels: seq<byte>)
    requires screens != []
    ensures var n := |screens| - 1;
            MissedSince(screens, pixels) <==>
            if screens[n].None? then LastImage(screens[..n], pixels)
            else screens[n] == Some(pixels) && MissedSince(screens[..n], pixels)
  {
    var n := |screens| - 1;
    var front := screens[..n];
    if screens[n].None? && LastImage(front, pixels) {
      var j :| 0 <= j < n && ImageSince(front, j, pixels);
      assert ImageSince(screens, j, pixels) && screens[n].None?;
    }
    if screens[n] == Some(pixels) && MissedSince(front, pixels) {
      var j, i :| 0 <= j < i < n && ImageSince(front, j, pixels) && front[i].None?;
      assert ImageSince(screens, j, pixels) && screens[i].None?;
    }
    if MissedSince(screens, pixels) {
      var j, i :| 0 <= j < i < |screens| && ImageSince(screens, j, pixels) && screens[i].None?;
      assert j < n && ImageSince(front, j, pixels);
      assert screens[n].None? || (i < n && front[i].None?);
    }
  }

  /** The fields kept are those of the display's last image, and the flag tells whether a call missed since. */
  lemma {:induction false} KeptIsLastImage(width: nat, height: nat, screens: seq<Option<seq<byte>>>, pixels: seq<byte>)
    requires pixels != []
    ensures var st := Run(width, height, screens);
            && (st.prev == pixels <==> LastImage(screens, pixels))
            && (st.prev == pixels && !st.fromDisplay <==> MissedSince(screens, pixels))
    decreases |screens|
  {
    hide TestPattern;
    if screens == [] {
    } else {
      KeptIsLastImage(width, height, screens[..|screens| - 1], pixels);
      LastImageStep(screens, pixels);
      MissedSinceStep(screens, pixels);
    }
  }

  /** Call `k` finds the image the display gave last, so nothing is returned. */
  ghost predicate Repeats(screens: seq<Option<seq<byte>>>, k: nat)
    requires k < |screens|
  {
    screens[k].Some? && screens[k].value != [] && LastImage(screens[..k], screens[k].value)
  }

  lemma ReturnsIff(width: nat, height: nat, screens: seq<Option<seq<byte>>>, screen: Option<seq<byte>>)
    ensures Returns(Run(width, height, screens), screen) <==> !Repeats(screens + [screen], |screens|)
  {
    hide Run, LastImage;
    assert (screens + [screen])[..|screens|] == screens;
    if screen.Some? && screen.value != [] {
      KeptIsLastImage(width, height, screens, screen.value);
    }
  }

  /** The viewer's last frame differs from the current screen exactly when the display has shown this
      same screen since before a missed call, whose test pattern is then the last frame sent, and is
      not itself that pattern. */
  lemma ViewerAgreesIff(width: nat, height: nat, screens: seq<Option<seq<byte>>>, pixels: seq<byte>)
    ensures Run(width, height, screens + [Some(pixels)]).shown != Some(pixels) <==>
            pixels != [] && pixels != TestPattern(width, height) && MissedSince(screens, pixels)
  {
    hide TestPattern, Run, MissedSince, LastImage;
    KeptFrameWasShown(width, height, screens);
    RunOneMore(width, height, screens, Some(pixels));
    if pixels != [] {
      KeptIsLastImage(width, height, screens, pixels);
    }
  }

  /** Over a run of display captures alone, after every call the last frame returned, and so sent, is
      the current screen, whether the call returned it or suppressed it. */
  lemma {:induction false} ViewerAgreesWithScreen(width: nat, height: nat, screens: seq<Option<seq<byte>>>)
    requires screens != [] && forall i :: 0 <= i < |screens| ==> screens[i].Some?
    ensures Run(width, height, screens).shown == screens[|screens| - 1]
    decreases |screens|
  {
    hide TestPattern;
    var n := |screens| - 1;
    if n == 0 {
    } else {
      ViewerAgreesWithScreen(width, height, screens[..n]);
    }
    KeptFrameWasShown(width, height, screens[..n]);
    DisplayOnly(width, height, screens[..n]);
  }

  lemma {:induction false} DisplayOnly(width: nat, height: nat, screens: seq<Option<seq<byte>>>)
    requires forall i :: 0 <= i < |screens| ==> screens[i].Some?
    ensures Run(width, height, screens).prev != [] ==> Run(width, height, screens).fromDisplay
    decreases |screens|
  {
    if screens == [] {
    } else {
      DisplayOnly(width, height, screens[..|screens| - 1]);
    }
  }

  /** A missed image breaks the agreement: the screen, the pattern, then the same screen again leaves
      the viewer with the pattern. */
  lemma FallbackLeavesPattern(width: nat, height: nat, pixels: seq<byte>)
    requires pixels != []
    ensures Run(width, height, [Some(pixels), None, Some(pixels)]).shown == Some(TestPattern(width, height))
  {
    hide TestPattern;
    RunOneMore(width, height, [], Some(pixels));
    RunOneMore(width, height, [] + [Some(pixels)], None);
    RunOneMore(width, height, [] + [Some(pixels)] + [None], Some(pixels));
    assert [Some(pixels), None, Some(pixels)] == [] + [Some(pixels)] + [None] + [Some(pixels)];
  }

  lemma RunOneMore(width: nat, height: nat, screens: seq<Option<seq<byte>>>, screen: Option<seq<byte>>)
    ensures Run(width, height, screens + [screen]) == CaptureStep(width, height, Run(width, height, screens), screen)
  {
    hide CaptureStep;
    assert (screens + [screen])[..|screens|] == screens;
  }

  /** Every call numbers its frame one above the call before, wrapping at 2^64. */
  lemma {:induction false} NumbersIncrease(width: nat, height: nat, screens: seq<Option<seq<byte>>>)
    ensures Run(width, height, screens).counter == |screens| % TWO64
    decreases |screens|
  {
    hide TestPattern;
    if screens == [] {
    } else {
      NumbersIncrease(width, height, screens[..|screens| - 1]);
    }
  }

  /** The pixel buffers a run returned, and so sent, in order. */
  function Returned(width: nat, height: nat, screens: seq<Option<seq<byte>>>): seq<seq<byte>> {
    if screens == [] then []
    else
      var n := |screens| - 1;
      var before := Returned(width, height, screens[..n]);
      if !Returns(Run(width, height, screens[..n]), screens[n]) then before
      else before + [match screens[n] case None => TestPattern(width, height) case Some(pixels) => pixels]
  }

  lemma {:induction false} ShownIsLastReturned(width: nat, height: nat, screens: seq<Option<seq<byte>>>)
    ensures var r := Returned(width, height, screens);
            Run(width, height, screens).shown == if r == [] then None else Some(r[|r| - 1])
    decreases |screens|
  {
    hide TestPattern;
    if screens == [] {
    } else {
      ShownIsLastReturned(width, height, screens[..|screens| - 1]);
    }
  }

  /** What a run returned stays the beginning of what any longer run returns, and more follows exactly
      when some later call does not repeat the display's last image. */
  lemma {:induction false} ReturnedSince(width: nat, height: nat, screens: seq<Option<seq<byte>>>, m: nat)
    requires m <= |screens|
    ensures Returned(width, height, screens[..m]) <= Returned(width, height, screens)
    ensures |Returned(width, height, screens)| > |Returned(width, height, screens[..m])| <==>
            exists k :: m <= k < |screens| && !Repeats(screens, k)
    decreases |screens|
  {
    hide TestPattern, Repeats, Run, Returns;
    var n := |screens| - 1;
    if m == |screens| {
      assert screens[..m] == screens;
    } else {
      var front := screens[..n];
      assert screens == front + [screens[n]];
      assert front[..m] == screens[..m];
      ReturnedSince(width, height, front, m);
      ReturnsIff(width, height, front, screens[n]);
      forall k | 0 <= k < n ensures Repeats(front, k) <==> Repeats(screens, k) {
        SameRepeats(screens, n, k);
      }
    }
  }

  lemma SameRepeats(screens: seq<Option<seq<byte>>>, n: nat, k: nat)
    requires k < n <= |screens|
    ensures Repeats(screens[..n], k) <==> Repeats(screens, k)
  {
    hide LastImage;
    assert screens[..n][..k] == screens[..k];
  }

  /** Over display captures alone, a call repeats exactly when its image is the one before, and not empty. */
  lemma RepeatsIff(screens: seq<Option<seq<byte>>>, k: nat)
    requires k < |screens| && forall i :: 0 <= i < |screens| ==> screens[i].Some?
    ensures Repeats(screens, k) <==> k > 0 && screens[k] == screens[k - 1] && screens[k].value != []
  {
    if k > 0 {
      LastImageStep(screens[..k], screens[k].value);
    }
  }

  /** The frames a capture run handed to the sender. */
  predicate FramesOf(frames: seq<FrameData>, width: u32, height: u32, screens: seq<Option<seq<byte>>>) {
    && |frames| == |Returned(width, height, screens)|
    && forall i :: 0 <= i < |frames| ==>
         && frames[i].width == width && frames[i].height == height
         && frames[i].pixelData == Returned(width, height, screens)[i]
  }

  /** The converted images, None where none could be taken. */
  function ScreensOf(width: nat, height: nat, images: seq<Option<XImage>>): (screens: seq<Option<seq<byte>>>)
    requires forall i :: 0 <= i < |images| && images[i].Some? ==> images[i].value.Readable(width, height)
    ensures |screens| == |images|
  {
    hide Converted;
    seq(|images|, i requires 0 <= i < |images| =>
      if images[i].Some? then Some(Converted(images[i].value, width, height)) else None)
  }

  /** The capture thread's loop: every frame returned goes to the callback, here to `frames`. */
  method CaptureLoop(capture: X11Capture, images: seq<Option<XImage>>, times: seq<u64>) returns (frames: seq<FrameData>)
    requires |times| == |images| && capture.State() == INITIAL
    requires forall i :: 0 <= i < |images| && images[i].Some? ==> images[i].value.Readable(capture.width, capture.height)
    modifies capture
    ensures capture.State() == Run(capture.width, capture.height, ScreensOf(capture.width, capture.height, images))
    ensures FramesOf(frames, capture.width, capture.height, ScreensOf(capture.width, capture.height, images))
  {
    hide Converted, TestPattern, CaptureStep;
    frames := [];
    ghost var screens := ScreensOf(capture.width, capture.height, images);
    assert screens[..0] == [];
    for i := 0 to |images|
      invariant capture.State() == Run(capture.width, capture.height, screens[..i])
      invariant FramesOf(frames, capture.width, capture.height, screens[..i])
    {
      assert screens[..i + 1] == screens[..i] + [screens[i]];
      RunOneMore(capture.width, capture.height, screens[..i], screens[i]);
      ReturnedOneMore(capture.width, capture.height, screens[..i], screens[i]);
      var frame := capture.CaptureSingleFrame(images[i], times[i]);
      if frame.Some? {
        frames := frames + [frame.value];
      }
    }
    assert screens[..|images|] == screens;
  }

  lemma ReturnedOneMore(width: nat, height: nat, screens: seq<Option<seq<byte>>>, screen: Option<seq<byte>>)
    ensures var before, after := Returned(width, height, screens), Returned(width, height, screens + [screen]);
            var st := Run(width, height, screens);
            if Returns(st, screen) then
              CaptureStep(width, height, st, screen).shown.Some? &&
              after == before + [CaptureStep(width, height, st, screen).shown.value]
            else after == before
  {
    hide TestPattern, Run;
    assert (screens + [screen])[..|screens|] == screens;
  }
}
