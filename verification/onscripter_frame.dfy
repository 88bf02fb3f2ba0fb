/**
 The published frame of the ONScripter bridge
 (bridge/onscripter_runtime/src/onscripter_runtime.cpp, `aetherkiri_onscripter_publish_frame`,
 `Runtime::read_frame` and the coordinate mapping of `Runtime::send_pointer_event`).

 Pixels stand for the four bytes of a pixel; the conversion from the surface's pixel format
 is a parameter. Buffers are flat, row after row.
 */
module OnscripterFrame {
  import opened Common
  import opened OnscripterPresentation

  type Px = int

  // ---------------------------------------------------------------- flat buffers

  predicate Inside(width: nat, height: nat, x: int, y: int) { 0 <= x < width && 0 <= y < height }

  function Pixel(pixels: seq<Px>, width: nat, x: nat, y: nat): Px
    requires x < width && Span(y, width) + width <= |pixels|
  {
    pixels[Span(y, width) + x]
  }

  function PixelIn(pixels: seq<Px>, width: nat, height: nat, x: nat, y: nat): Px
    requires Inside(width, height, x, y) && |pixels| == Span(height, width)
  {
    RowsStack(width, y, height);
    Pixel(pixels, width, x, y)
  }

  // ---------------------------------------------------------------- surfaces and frames

  datatype Surface = Surface(width: nat, height: nat, pixels: seq<Px>) {
    predicate Valid() { width > 0 && height > 0 && |pixels| == Span(height, width) }

    function At(x: nat, y: nat): Px
      requires Valid() && Inside(width, height, x, y)
    {
      RowsStack(width, y, height);
      Pixel(pixels, width, x, y)
    }
  }

  datatype Rect = Rect(x: int, y: int, w: int, h: int)

  function Max(a: int, b: int): int { if a >= b then a else b }

  function Min(a: int, b: int): int { if a <= b then a else b }

  /** The pixels a flush is about: all, or those of the surface inside the dirty rectangle. */
  datatype Region = Region(left: int, top: int, right: int, bottom: int) {
    predicate Has(x: int, y: int) { left <= x < right && top <= y < bottom }
    predicate Empty() { right <= left || bottom <= top }
  }

  function RegionOf(width: nat, height: nat, dirty: Option<Rect>, initialize: bool): Region {
    if initialize || dirty.None? then Region(0, 0, width, height)
    else
      var r := dirty.value;
      Region(Max(0, r.x), Max(0, r.y), Min(width, r.x + Max(0, r.w)), Min(height, r.y + Max(0, r.h)))
  }

  /** The clip is exactly the part of the rectangle that lies on the surface; without one it is the surface. */
  lemma RegionIsClip(width: nat, height: nat, dirty: Option<Rect>, initialize: bool, x: int, y: int)
    ensures RegionOf(width, height, dirty, initialize).Has(x, y) <==>
              Inside(width, height, x, y) &&
              (initialize || dirty == None ||
               (dirty.value.x <= x < dirty.value.x + dirty.value.w && dirty.value.y <= y < dirty.value.y + dirty.value.h))
  {
  }

  /** A value view of the published frame. */
  datatype Frame = Frame(width: nat, height: nat, serial: nat, pixels: seq<Px>) {
    predicate Fits(s: Surface) { width == s.width && height == s.height && |pixels| == Span(height, width) }

    predicate Shows(s: Surface, conv: Px -> Px, x: nat, y: nat)
      requires s.Valid() && Inside(s.width, s.height, x, y)
    {
      Fits(s) && (RowsStack(width, y, height); Pixel(pixels, width, x, y) == conv(s.At(x, y)))
    }

    /** The snapshot is the converted surface. */
    ghost predicate Synced(s: Surface, conv: Px -> Px)
      requires s.Valid()
    {
      forall x, y | Inside(s.width, s.height, x, y) :: Shows(s, conv, x, y)
    }
  }

  /** What a completed flush makes of the published frame. */
  ghost predicate Flushed(f: Frame, s: Surface, dirty: Option<Rect>, conv: Px -> Px, f': Frame)
    requires s.Valid()
  {
    var initialize := !f.Fits(s);
    var region := RegionOf(s.width, s.height, dirty, initialize);
    if region.Empty() then f' == f
    else
      f'.Fits(s) && f'.serial == f.serial + 1 &&
      forall x, y | Inside(s.width, s.height, x, y) ::
        if region.Has(x, y) then f'.Shows(s, conv, x, y)
        else f.Fits(s) && f'.Fits(s) && SamePixel(f, f', s, x, y)
  }

  ghost predicate SamePixel(f: Frame, f': Frame, s: Surface, x: nat, y: nat)
    requires s.Valid() && f.Fits(s) && f'.Fits(s) && Inside(s.width, s.height, x, y)
  {
    RowsStack(s.width, y, s.height);
    Pixel(f.pixels, f.width, x, y) == Pixel(f'.pixels, f'.width, x, y)
  }

  class PublishedFrame {
    var width: nat
    var height: nat
    var serial: nat
    var rgba: array<Px>

    constructor ()
      ensures fresh(rgba) && View() == Frame(0, 0, 0, [])
    {
      width, height, serial := 0, 0, 0;
      rgba := new Px[0];
    }

    function View(): Frame
      reads this, rgba
    {
      Frame(width, height, serial, rgba[..])
    }

    /** One row of the format conversion. */
    static method ConvertRow(dest: array<Px>, s: Surface, y: nat, left: nat, right: nat, conv: Px -> Px)
      requires s.Valid() && y < s.height && left <= right <= s.width && dest.Length == Span(s.height, s.width)
      modifies dest
      ensures forall x, z | Inside(s.width, s.height, x, z) ::
                PixelIn(dest[..], s.width, s.height, x, z) == if z == y && left <= x < right then conv(s.At(x, y)) else PixelIn(old(dest[..]), s.width, s.height, x, z)
    {
      RowsStack(s.width, y, s.height);
      var offset := Span(y, s.width);
      ghost var before := dest[..];
      forall x | left <= x < right {
        dest[offset + x] := conv(s.pixels[offset + x]);
      }
      forall x, z | Inside(s.width, s.height, x, z)
        ensures PixelIn(dest[..], s.width, s.height, x, z) == if z == y && left <= x < right then conv(s.At(x, y)) else PixelIn(before, s.width, s.height, x, z)
      {
        RowsStack(s.width, z, s.height);
        if z < y {
          RowsStack(s.width, z, y);
        } else if y < z {
          RowsStack(s.width, y, z);
        }
      }
    }

    /**
     Mirrors a completed flush into the snapshot. The last two parameters are the outcomes of
     locking the surface and of the conversion; a conversion that fails has written nothing.
     */
    method Publish(s: Surface, dirty: Option<Rect>, conv: Px -> Px, lockOk: bool, convertOk: bool) returns (done: bool)
      requires s.Valid()
      modifies this, rgba
      ensures fresh(rgba) || rgba == old(rgba)
      ensures done ==> Flushed(old(View()), s, dirty, conv, View())
      ensures !done ==> View() == old(View())
      ensures !done <==> s.width > 0x3FFFFFFF ||
                         (!(lockOk && convertOk) &&
                          !RegionOf(s.width, s.height, dirty, !old(View()).Fits(s)).Empty())
    {
      if s.width > 0x3FFFFFFF {
        return false;
      }
      var initialize := width != s.width || height != s.height || rgba.Length != Span(s.height, s.width);
      var region := RegionOf(s.width, s.height, dirty, initialize);
      if !initialize && dirty.Some? && (region.right <= region.left || region.bottom <= region.top) {
        return true;
      }
      if !lockOk || !convertOk {
        return false;
      }
      ghost var old_rgba := rgba[..];
      var destination := rgba;
      if initialize {
        destination := new Px[Span(s.height, s.width)];
      }
      ghost var start := destination[..];
      Convert(destination, s, region, conv);
      if initialize {
        width, height, rgba := s.width, s.height, destination;
      }
      serial := serial + 1;
      ConvertedIsFlushed(old(View()), s, dirty, conv, View(), start);
      done := true;
    }

    static method Convert(dest: array<Px>, s: Surface, region: Region, conv: Px -> Px)
      requires s.Valid() && dest.Length == Span(s.height, s.width)
      requires 0 <= region.left < region.right <= s.width && 0 <= region.top < region.bottom <= s.height
      modifies dest
      ensures forall x, y | Inside(s.width, s.height, x, y) ::
                PixelIn(dest[..], s.width, s.height, x, y) == if region.Has(x, y) then conv(s.At(x, y)) else PixelIn(old(dest[..]), s.width, s.height, x, y)
    {
      for row := region.top to region.bottom
        invariant forall x, y | Inside(s.width, s.height, x, y) ::
                    PixelIn(dest[..], s.width, s.height, x, y) ==
                    if region.Has(x, y) && y < row then conv(s.At(x, y)) else PixelIn(old(dest[..]), s.width, s.height, x, y)
      {
        ConvertRow(dest, s, row, region.left, region.right, conv);
      }
    }
  }

  lemma ConvertedIsFlushed(f: Frame, s: Surface, dirty: Option<Rect>, conv: Px -> Px, f': Frame, start: seq<Px>)
    requires s.Valid() && f'.Fits(s) && f'.serial == f.serial + 1
    requires |start| == Span(s.height, s.width) && (f.Fits(s) ==> start == f.pixels)
    requires !RegionOf(s.width, s.height, dirty, !f.Fits(s)).Empty()
    requires forall x, y | Inside(s.width, s.height, x, y) ::
               PixelIn(f'.pixels, s.width, s.height, x, y) ==
               if RegionOf(s.width, s.height, dirty, !f.Fits(s)).Has(x, y) then conv(s.At(x, y)) else PixelIn(start, s.width, s.height, x, y)
    ensures Flushed(f, s, dirty, conv, f')
  {
    var region := RegionOf(s.width, s.height, dirty, !f.Fits(s));
    forall x, y | Inside(s.width, s.height, x, y)
      ensures if region.Has(x, y) then f'.Shows(s, conv, x, y)
              else f.Fits(s) && f'.Fits(s) && SamePixel(f, f', s, x, y)
    {
      assert PixelIn(f'.pixels, s.width, s.height, x, y) == if region.Has(x, y) then conv(s.At(x, y)) else PixelIn(start, s.width, s.height, x, y);
    }
  }

  // ---------------------------------------------------------------- the snapshot follows the surface

  /** After a completed flush a pixel is stale exactly if it was stale before and not flushed. */
  lemma FlushedPixel(f: Frame, s: Surface, dirty: Option<Rect>, conv: Px -> Px, f': Frame, x: nat, y: nat)
    requires s.Valid() && Inside(s.width, s.height, x, y) && Flushed(f, s, dirty, conv, f')
    ensures f'.Shows(s, conv, x, y) <==>
              f.Shows(s, conv, x, y) || RegionOf(s.width, s.height, dirty, !f.Fits(s)).Has(x, y)
  {
  }

  /** A completed flush brings the snapshot up to date exactly when it covers everything stale. */
  lemma FlushSyncs(f: Frame, s: Surface, dirty: Option<Rect>, conv: Px -> Px, f': Frame)
    requires s.Valid() && Flushed(f, s, dirty, conv, f')
    ensures f'.Synced(s, conv) <==>
              forall x, y | Inside(s.width, s.height, x, y) && !f.Shows(s, conv, x, y) ::
                RegionOf(s.width, s.height, dirty, !f.Fits(s)).Has(x, y)
  {
    forall x, y | Inside(s.width, s.height, x, y)
      ensures f'.Shows(s, conv, x, y) <==>
                f.Shows(s, conv, x, y) || RegionOf(s.width, s.height, dirty, !f.Fits(s)).Has(x, y)
    {
      FlushedPixel(f, s, dirty, conv, f', x, y);
    }
  }

  datatype Flush = Flush(surface: Surface, dirty: Option<Rect>)

  /** All changes from one surface to the next, if that has the same size, lie inside the dirty rectangle. */
  ghost predicate ChangesInside(s: Surface, next: Flush)
    requires s.Valid() && next.surface.Valid()
  {
    s.width == next.surface.width && s.height == next.surface.height ==>
      forall x, y | Inside(s.width, s.height, x, y) && s.At(x, y) != next.surface.At(x, y) ::
        RegionOf(s.width, s.height, next.dirty, false).Has(x, y)
  }

  /** A history of completed flushes of surfaces of any sizes, from a frame of another size or none. */
  ghost predicate History(flushes: seq<Flush>, frames: seq<Frame>, conv: Px -> Px) {
    |frames| == |flushes| + 1 &&
    (forall k | 0 <= k < |flushes| ::
       flushes[k].surface.Valid() && Flushed(frames[k], flushes[k].surface, flushes[k].dirty, conv, frames[k + 1])) &&
    (flushes != [] ==> !frames[0].Fits(flushes[0].surface)) &&
    forall k | 0 < k < |flushes| :: ChangesInside(flushes[k - 1].surface, flushes[k])
  }

  /**
   As long as every flush covers what changed, the snapshot is the converted surface after each. A
   surface of a new size is taken over whole.
   */
  lemma {:induction false} SnapshotFollows(flushes: seq<Flush>, frames: seq<Frame>, conv: Px -> Px, k: nat)
    requires History(flushes, frames, conv) && 0 < k <= |flushes|
    ensures frames[k].Synced(flushes[k - 1].surface, conv)
    decreases k
  {
    var f, s, dirty := frames[k - 1], flushes[k - 1].surface, flushes[k - 1].dirty;
    assert Flushed(f, s, dirty, conv, frames[k]);
    if k > 1 {
      SnapshotFollows(flushes, frames, conv, k - 1);
      assert ChangesInside(flushes[k - 2].surface, flushes[k - 1]);
      StaleIsChanged(f, flushes[k - 2].surface, flushes[k - 1], conv);
    }
    FlushSyncs(f, s, dirty, conv, frames[k]);
  }

  lemma StaleIsChanged(f: Frame, s: Surface, next: Flush, conv: Px -> Px)
    requires s.Valid() && next.surface.Valid() && ChangesInside(s, next) && f.Synced(s, conv)
    ensures forall x, y | Inside(next.surface.width, next.surface.height, x, y) && !f.Shows(next.surface, conv, x, y) ::
              RegionOf(next.surface.width, next.surface.height, next.dirty, !f.Fits(next.surface)).Has(x, y)
  {
    assert f.Shows(s, conv, 0, 0);
    if f.Fits(next.surface) {
      forall x, y | Inside(s.width, s.height, x, y) && !f.Shows(next.surface, conv, x, y)
        ensures RegionOf(s.width, s.height, next.dirty, false).Has(x, y)
      {
        assert f.Shows(s, conv, x, y);
      }
    }
  }

  ghost predicate HasPixels(region: Region) { exists x, y :: region.Has(x, y) }

  /** How many of the first `k` flushes had a pixel to flush. */
  ghost function Published(flushes: seq<Flush>, frames: seq<Frame>, k: nat): nat
    requires k <= |flushes| <= |frames|
  {
    if k == 0 then 0
    else
      var f, s := frames[k - 1], flushes[k - 1].surface;
      Published(flushes, frames, k - 1) +
      if HasPixels(RegionOf(s.width, s.height, flushes[k - 1].dirty, !f.Fits(s))) then 1 else 0
  }

  /** The serial number counts the flushes that had something to flush. */
  lemma {:induction false} SerialCounts(flushes: seq<Flush>, frames: seq<Frame>, conv: Px -> Px, k: nat)
    requires History(flushes, frames, conv) && k <= |flushes|
    ensures frames[k].serial == frames[0].serial + Published(flushes, frames, k)
    decreases k
  {
    if k > 0 {
      SerialCounts(flushes, frames, conv, k - 1);
      var f, s := frames[k - 1], flushes[k - 1].surface;
      assert Flushed(f, s, flushes[k - 1].dirty, conv, frames[k]);
      var region := RegionOf(s.width, s.height, flushes[k - 1].dirty, !f.Fits(s));
      assert !region.Empty() ==> region.Has(region.left, region.top);
    }
  }

  // ---------------------------------------------------------------- reading and clicking

  /** Whether the presented part lies inside a frame of the expected size. */
  predicate CropIsValid(p: Presentation, width: nat, height: nat) {
    p.sourceWidth == width && p.sourceHeight == height && p.view.width > 0 && p.view.height > 0 &&
    p.view.x < width && p.Top() < height && p.view.width <= width - p.view.x && p.view.height <= height - p.Top()
  }

  /** The part of a frame that is handed out; the whole frame when the crop does not fit. */
  function Crop(p: Presentation, width: nat, height: nat): Viewport {
    if CropIsValid(p, width, height) then Viewport(p.view.x, p.Top(), p.view.width, p.view.height)
    else Viewport(0, 0, width, height)
  }

  /** The crop is valid exactly if the frame has the expected size and the scrolled viewport lies inside it. */
  lemma CropIffInside(p: Presentation, width: nat, height: nat)
    ensures CropIsValid(p, width, height) <==>
              p.sourceWidth == width && p.sourceHeight == height && p.view.width > 0 && p.view.height > 0 &&
              p.view.x + p.view.width <= width && p.view.y + (if p.scrollActive then p.scrollY else 0) + p.view.height <= height
  {
  }

  method ReadFrame(f: Frame, p: Presentation) returns (width: nat, height: nat, rgba: array<Px>)
    requires f.width > 0 && f.height > 0 && |f.pixels| == Span(f.height, f.width)
    ensures var c := Crop(p, f.width, f.height);
            width == c.width && height == c.height && fresh(rgba) && rgba.Length == Span(height, width) &&
            c.x + width <= f.width && c.y + height <= f.height &&
            forall x, y | Inside(width, height, x, y) ::
              PixelIn(rgba[..], width, height, x, y) == PixelIn(f.pixels, f.width, f.height, c.x + x, c.y + y)
  {
    var c := Crop(p, f.width, f.height);
    width, height := c.width, c.height;
    rgba := new Px[Span(height, width)];
    for row := 0 to height
      invariant forall x, y | Inside(width, height, x, y) && y < row ::
                  PixelIn(rgba[..], width, height, x, y) == PixelIn(f.pixels, f.width, f.height, c.x + x, c.y + y)
    {
      CopyRow(f, c, rgba, row);
    }
  }

  method CopyRow(f: Frame, c: Viewport, rgba: array<Px>, row: nat)
    requires |f.pixels| == Span(f.height, f.width) && rgba.Length == Span(c.height, c.width)
    requires c.x + c.width <= f.width && c.y + c.height <= f.height && row < c.height
    modifies rgba
    ensures forall x, y | Inside(c.width, c.height, x, y) ::
              PixelIn(rgba[..], c.width, c.height, x, y)
              == if y == row then PixelIn(f.pixels, f.width, f.height, c.x + x, c.y + y)
                 else PixelIn(old(rgba[..]), c.width, c.height, x, y)
  {
    var sourceOffset := Span(c.y + row, f.width) + c.x;
    var offset := Span(row, c.width);
    RowsStack(f.width, c.y + row, f.height);
    RowsStack(c.width, row, c.height);
    ghost var before := rgba[..];
    forall x | 0 <= x < c.width {
      rgba[offset + x] := f.pixels[sourceOffset + x];
    }
    forall x, y | Inside(c.width, c.height, x, y)
      ensures PixelIn(rgba[..], c.width, c.height, x, y)
              == if y == row then PixelIn(f.pixels, f.width, f.height, c.x + x, c.y + y)
                 else PixelIn(before, c.width, c.height, x, y)
    {
      hide Span;
      RowsStack(c.width, y, c.height);
      RowsApart(c.width, x, y, row);
    }
  }

  /** Pixels of different rows have different places. */
  lemma RowsApart(width: nat, x: nat, y: nat, row: nat)
    requires x < width
    ensures y < row ==> Span(y, width) + x < Span(row, width)
    ensures row < y ==> Span(row, width) + width <= Span(y, width) + x
  {
    hide Span;
    if y < row {
      RowsStack(width, y, row);
    } else if row < y {
      RowsStack(width, row, y);
    }
  }

  /** Where on the script surface a click on a displayed pixel lands, with unit device scale. */
  function ClickTarget(p: Presentation, x: nat, y: nat): (nat, nat) {
    (x + p.view.x, y + p.Top())
  }

  /** A click hits the source pixel that is shown there, exactly when the crop fits or there is none. */
  lemma ClickHitsShownPixel(p: Presentation, width: nat, height: nat, x: nat, y: nat)
    requires var c := Crop(p, width, height); Inside(c.width, c.height, x, y)
    ensures var c := Crop(p, width, height);
            ClickTarget(p, x, y) == (c.x + x, c.y + y) <==>
              CropIsValid(p, width, height) || (p.view.x == 0 && p.Top() == 0)
  {
  }

  /** On a frame of another size, a click misses as soon as the list has been scrolled. */
  lemma ScrolledClickMisses(sw: nat, sh: nat, aw: nat, ah: nat, calls: seq<ScrollCall>, width: nat, height: nat, x: nat, y: nat)
    requires width != sw || height != sh
    requires Inside(width, height, x, y)
    ensures var p := Scrolled(Opened(sw, sh, aw, ah), calls);
            var c := Crop(p, width, height);
            c == Viewport(0, 0, width, height) && (ClickTarget(p, x, y) == (c.x + x, c.y + y) <==> p.scrollY == 0)
  {
    hide Scrolled, Opened;
    ScrollStaysInBounds(sw, sh, aw, ah, calls);
    OpenedAtCorner(sw, sh, aw, ah);
  }

  lemma OpenedAtCorner(sw: nat, sh: nat, aw: nat, ah: nat)
    ensures Opened(sw, sh, aw, ah).view.x == 0 && Opened(sw, sh, aw, ah).view.y == 0
  {
    hide *;
    ViewportAtCorner(sw, sh, aw, ah);
    OpenedView(sw, sh, aw, ah);
  }

  lemma ViewportAtCorner(sw: nat, sh: nat, aw: nat, ah: nat)
    ensures ResolvePresentationViewport(sw, sh, aw, ah).x == 0 && ResolvePresentationViewport(sw, sh, aw, ah).y == 0
  {
  }

  lemma OpenedView(sw: nat, sh: nat, aw: nat, ah: nat)
    ensures Opened(sw, sh, aw, ah).view == ResolvePresentationViewport(sw, sh, aw, ah)
  {
  }

  /** And such a state is reached: a 4:3 game shown 16:9, its list scrolled by ten rows. */
  lemma ScrolledListExample()
    ensures Scrolled(Opened(640, 480, 16, 9), [BeginList, Scroll(10)]).scrollY == 10
  {
    var p := Opened(640, 480, 16, 9);
    assert p.view == Viewport(0, 0, 640, 360);
    var one := [BeginList];
    assert one[..0] == [] && Scrolled(p, []) == p;
    assert Scrolled(p, one) == ApplyScroll(p, BeginList);
    assert [BeginList, Scroll(10)][..1] == one;
  }

  /** With frames of the size the game was opened with, it always does, after any scrolling. */
  lemma ClickFollowsScroll(sw: nat, sh: nat, aw: nat, ah: nat, calls: seq<ScrollCall>, x: nat, y: nat)
    requires sw > 0 && sh > 0
    requires var p := Scrolled(Opened(sw, sh, aw, ah), calls); Inside(p.view.width, p.view.height, x, y)
    ensures var p := Scrolled(Opened(sw, sh, aw, ah), calls);
            var c := Crop(p, sw, sh);
            CropIsValid(p, sw, sh) && c == Viewport(0, p.scrollY, sw, p.view.height) && p.view.width == sw &&
            ClickTarget(p, x, y) == (c.x + x, c.y + y) && Inside(sw, sh, c.x + x, c.y + y)
  {
    hide Scrolled, ResolvePresentationViewport;
    ScrollStaysInBounds(sw, sh, aw, ah, calls);
    OpenedAtCorner(sw, sh, aw, ah);
    OpenedWide(sw, sh, aw, ah);
  }

  lemma OpenedWide(sw: nat, sh: nat, aw: nat, ah: nat)
    requires sw > 0 && sh > 0
    ensures Opened(sw, sh, aw, ah).view.width == sw && 0 < Opened(sw, sh, aw, ah).view.height <= sh
  {
  }
}
