/**
 Viewport and scrolling of ONScripter games
 (bridge/onscripter_runtime/include/onscripter_presentation.h, and the scroll state in
 bridge/onscripter_runtime/src/onscripter_runtime.cpp).
 */
module OnscripterPresentation {

  datatype Viewport = Viewport(x: nat, y: nat, width: nat, height: nat)

  /** The part of the script surface to present; only a wider aspect crops. */
  function ResolvePresentationViewport(sourceWidth: nat, sourceHeight: nat, aspectWidth: nat, aspectHeight: nat): Viewport {
    var whole := Viewport(0, 0, sourceWidth, sourceHeight);
    if sourceWidth == 0 || sourceHeight == 0 || aspectWidth == 0 || aspectHeight == 0 then whole
    else if sourceWidth * aspectHeight >= sourceHeight * aspectWidth then whole
    else
      var cropped := (sourceWidth * aspectHeight) / aspectWidth;
      if cropped > 0 && cropped < sourceHeight then whole.(height := cropped) else whole
  }

  /** Current scroll plus delta, kept between 0 and the rows below the viewport. */
  function ResolvePresentationScroll(sourceHeight: nat, viewportY: nat, viewportHeight: nat, current: nat, delta: int): nat {
    if sourceHeight == 0 || viewportHeight == 0 || viewportY >= sourceHeight || viewportHeight > sourceHeight - viewportY then 0
    else
      var most := sourceHeight - viewportY - viewportHeight;
      var requested := current + delta;
      if requested <= 0 then 0 else if requested >= most then most else requested
  }

  lemma {:induction false} TimesMonotone(a: nat, b: nat, d: nat)
    requires a <= b
    ensures a * d <= b * d
    decreases b
  {
    if a < b {
      TimesMonotone(a, b - 1, d);
    }
  }

  /** `q` is the quotient exactly when it is the largest number that fits. */
  lemma QuotientIsLargest(n: nat, d: nat, h: nat)
    requires d > 0
    ensures h * d <= n <==> h <= n / d
  {
    var q := n / d;
    assert n == d * q + n % d;
    if h <= q {
      TimesMonotone(h, q, d);
    } else {
      TimesMonotone(q + 1, h, d);
    }
  }

  /**
   The viewport is as wide as the source and starts at its corner. Its height is the largest
   one not taller than the requested aspect allows, unless not even one row fits.
   */
  lemma ViewportIsLargestFit(sw: nat, sh: nat, aw: nat, ah: nat, h: nat)
    requires sw > 0 && sh > 0 && aw > 0 && ah > 0
    ensures var v := ResolvePresentationViewport(sw, sh, aw, ah);
            && v.x == 0 && v.y == 0 && v.width == sw && 0 < v.height <= sh
            && (aw <= sw * ah && h <= sh ==> (h * aw <= sw * ah <==> h <= v.height))
            && (sw * ah < aw ==> v.height == sh)
            && (v.height < sh ==> v.height == (sw * ah) / aw)
  {
    var n := sw * ah;
    QuotientIsLargest(n, aw, h);
    QuotientIsLargest(n, aw, sh);
    QuotientIsLargest(n, aw, 1);
    if n >= sh * aw && h <= sh {
      TimesMonotone(h, sh, aw);
    }
  }

  // ---------------------------------------------------------------- scrolling

  /** Source size, viewport and scroll state of an open game. */
  datatype Presentation = Presentation(sourceWidth: nat, sourceHeight: nat, view: Viewport,
                                       scrollActive: bool, scrollY: nat, revision: nat) {
    /** The row of the source at the top of the screen. */
    function Top(): nat { view.y + if scrollActive then scrollY else 0 }

    function MaxScroll(): nat {
      if !scrollActive then 0
      else if sourceHeight == 0 || view.height == 0 || view.y >= sourceHeight || view.height > sourceHeight - view.y then 0
      else sourceHeight - view.y - view.height
    }

    /** The viewport, scrolled, lies inside the source. */
    predicate InBounds() {
      view.x + view.width <= sourceWidth && Top() + view.height <= sourceHeight
    }
  }

  datatype ScrollCall = BeginList | EndList | Scroll(delta: int)

  function ApplyScroll(p: Presentation, c: ScrollCall): Presentation {
    match c
    case BeginList => p.(scrollY := 0, scrollActive := true, revision := p.revision + 1)
    case EndList => p.(scrollY := 0, scrollActive := false, revision := p.revision + 1)
    case Scroll(delta) =>
      if p.MaxScroll() == 0 then p
      else
        var next := ResolvePresentationScroll(p.sourceHeight, p.view.y, p.view.height, p.scrollY, delta);
        if next == p.scrollY then p else p.(scrollY := next, revision := p.revision + 1)
  }

  /** A game opens with the viewport of its source and no list on screen. */
  function Opened(sw: nat, sh: nat, aw: nat, ah: nat): Presentation {
    Presentation(sw, sh, ResolvePresentationViewport(sw, sh, aw, ah), false, 0, 0)
  }

  function Scrolled(p: Presentation, calls: seq<ScrollCall>): Presentation
    decreases |calls|
  {
    if calls == [] then p else ApplyScroll(Scrolled(p, calls[..|calls| - 1]), calls[|calls| - 1])
  }

  /** The atomics the scroll calls update; one call at a time. */
  class ScrollState {
    const sourceWidth: nat
    const sourceHeight: nat
    const view: Viewport
    var active: bool
    var scrollY: nat
    var viewRevision: nat

    constructor (sourceWidth: nat, sourceHeight: nat, aspectWidth: nat, aspectHeight: nat)
      ensures View() == Opened(sourceWidth, sourceHeight, aspectWidth, aspectHeight)
    {
      this.sourceWidth, this.sourceHeight := sourceWidth, sourceHeight;
      view := ResolvePresentationViewport(sourceWidth, sourceHeight, aspectWidth, aspectHeight);
      active, scrollY, viewRevision := false, 0, 0;
    }

    function View(): Presentation
      reads this
    {
      Presentation(sourceWidth, sourceHeight, view, active, scrollY, viewRevision)
    }

    method BeginSystemListScroll()
      modifies this
      ensures View() == ApplyScroll(old(View()), BeginList)
    {
      scrollY := 0;
      active := true;
      viewRevision := viewRevision + 1;
    }

    method EndSystemListScroll()
      modifies this
      ensures View() == ApplyScroll(old(View()), EndList)
    {
      active := false;
      scrollY := 0;
      viewRevision := viewRevision + 1;
    }

    /** Whether the scroll belongs to the list, even when the list is at its end already. */
    method AdjustSystemListScroll(delta: int) returns (taken: bool)
      modifies this
      ensures View() == ApplyScroll(old(View()), Scroll(delta))
      ensures taken <==> old(View()).MaxScroll() > 0
    {
      var maxScroll := View().MaxScroll();
      if maxScroll == 0 {
        return false;
      }
      var next := ResolvePresentationScroll(sourceHeight, view.y, view.height, scrollY, delta);
      if next != scrollY {
        scrollY := next;
        viewRevision := viewRevision + 1;
      }
      taken := true;
    }
  }

  /** After any run of scrolls the presented rows lie inside the source, and nothing else has moved. */
  lemma {:induction false} ScrollStaysInBounds(sw: nat, sh: nat, aw: nat, ah: nat, calls: seq<ScrollCall>)
    ensures var p, p0 := Scrolled(Opened(sw, sh, aw, ah), calls), Opened(sw, sh, aw, ah);
            p.InBounds() && p.view == p0.view && p.sourceWidth == sw && p.sourceHeight == sh &&
            (!p.scrollActive ==> p.scrollY == 0)
    decreases |calls|
  {
    if calls == [] {
      if sw > 0 && sh > 0 && aw > 0 && ah > 0 {
        ViewportIsLargestFit(sw, sh, aw, ah, 0);
      }
    } else {
      hide ResolvePresentationViewport;
      ScrollStaysInBounds(sw, sh, aw, ah, calls[..|calls| - 1]);
    }
  }

  /** Scrolling back by as much as the list really moved returns to where it was. */
  lemma ScrollUndone(p: Presentation, delta: int)
    requires p.scrollActive && p.InBounds()
    ensures var q := ApplyScroll(p, Scroll(delta));
            ApplyScroll(q, Scroll(p.scrollY - q.scrollY)).scrollY == p.scrollY
  {
  }

  /** The scroll is the position between 0 and the last one that is nearest to the one asked for. */
  lemma ScrollIsNearest(sourceHeight: nat, y: nat, height: nat, current: nat, delta: int, other: nat)
    requires height > 0 && y + height <= sourceHeight
    ensures var scroll := ResolvePresentationScroll(sourceHeight, y, height, current, delta);
            y + scroll + height <= sourceHeight &&
            (y + other + height <= sourceHeight ==> Distance(scroll, current + delta) <= Distance(other, current + delta))
  {
  }

  function Distance(a: int, b: int): nat { if a >= b then a - b else b - a }

  /** A list begins and ends at its top, on screen in between, and both are told by the revision. */
  lemma ListOutcome(p: Presentation)
    ensures ApplyScroll(p, BeginList) == p.(scrollActive := true, scrollY := 0, revision := p.revision + 1)
    ensures ApplyScroll(p, EndList) == p.(scrollActive := false, scrollY := 0, revision := p.revision + 1)
  {
  }

  /** What a scroll call leaves behind: only lists scroll, and the revision tells every move. */
  lemma ScrollOutcome(p: Presentation, delta: int)
    requires p.InBounds() && p.view.height > 0
    ensures var q := ApplyScroll(p, Scroll(delta));
            var most := p.sourceHeight - p.view.y - p.view.height;
            q.scrollActive == p.scrollActive && q.view == p.view &&
            q.scrollY == (if !p.scrollActive || most == 0 || p.scrollY + delta == p.scrollY then p.scrollY
                          else if p.scrollY + delta < 0 then 0
                          else if p.scrollY + delta > most then most else p.scrollY + delta) &&
            q.revision == p.revision + (if q.scrollY == p.scrollY then 0 else 1)
  {
  }
}
