/**
 * The layout arithmetic of the video-call window: where it sits and how
 * large it is on a desktop screen, on a phone, and when minimised.
 *
 * Lengths are CSS pixels over `real`. A bounding rectangle is what
 * `getBoundingClientRect` reports; the browser window is a viewport, absent
 * where `window` is undefined. The hero text element is represented by the
 * bottom edge of its rectangle, absent when there is no such element.
 */
module WindowUtils {
  import opened Wrappers

  datatype Rect = Rect(left: real, top: real, right: real, width: real, height: real)
  datatype Viewport = Viewport(innerWidth: real, innerHeight: real)
  datatype Point = Point(x: real, y: real)
  datatype Size = Size(width: real, height: real)
  datatype MobilePlacement = MobilePlacement(x: real, y: real, windowSize: Size)

  const MOBILE_MAX_WIDTH: real := 768.0
  const DESKTOP_MAX_WIDTH: real := 750.0

  /** `calculateDesktopPosition`: the window centred in the main content. */
  function DesktopPosition(rect: Rect, windowWidth: real, windowHeight: real): (p: Point)
    ensures p.x - rect.left == (rect.left + rect.width) - (p.x + windowWidth)
    ensures p.y - rect.top == (rect.top + rect.height) - (p.y + windowHeight)
  {
    Point(rect.left + (rect.width - windowWidth) / 2.0,
          rect.top + (rect.height - windowHeight) / 2.0)
  }

  /** `getDesktopWindowDimensions`: at most 750 wide, 40 short of each side, in a 16:10 ratio. */
  function DesktopDimensions(rect: Rect): (s: Size)
    ensures s.width <= DESKTOP_MAX_WIDTH && s.width <= rect.width - 80.0
    ensures s.width == DESKTOP_MAX_WIDTH || s.width == rect.width - 80.0
    ensures 16.0 * s.height == 10.0 * s.width
  {
    var w := if DESKTOP_MAX_WIDTH <= rect.width - 80.0 then DESKTOP_MAX_WIDTH else rect.width - 80.0;
    Size(w, w * (10.0 / 16.0))
  }

  /**
   * The desktop layout as the window hook composes it: the sized window
   * keeps at least 40 pixels from each side of the main content.
   */
  lemma DesktopWindowKeepsMargin(rect: Rect)
    ensures var s := DesktopDimensions(rect);
      var p := DesktopPosition(rect, s.width, s.height);
      rect.left + 40.0 <= p.x && p.x + s.width <= rect.left + rect.width - 40.0
  {
  }

  /** `calculateMinimizedPosition`: a 120-wide window 20 in from the right edge, 20 below the top. */
  function MinimizedPosition(rect: Rect): (p: Point)
    ensures rect.right - (p.x + 120.0) == 20.0
    ensures p.y - rect.top == 20.0
  {
    Point(rect.right - 120.0 - 20.0, rect.top + 20.0)
  }

  /** `isMobile`: a window exists and is at most 768 pixels wide. */
  predicate IsMobile(window: Option<Viewport>) {
    window.Some? && window.value.innerWidth <= MOBILE_MAX_WIDTH
  }

  /** Where the hero text ends: 20 below its rectangle, or a fifth down the viewport without one. */
  function TextBottom(heroBottom: Option<real>, vp: Viewport): (b: real)
    ensures heroBottom.Some? ==> b == heroBottom.value + 20.0
    ensures heroBottom.None? ==> 5.0 * b == vp.innerHeight
  {
    if heroBottom.Some? then heroBottom.value + 20.0 else vp.innerHeight * 0.20
  }

  /** `iconsTop || innerHeight - 260`: an absent or zero top falls back to the estimate. */
  function IconsTop(iconsTop: Option<real>, vp: Viewport): (t: real)
    ensures iconsTop.Some? && iconsTop.value != 0.0 ==> t == iconsTop.value
    ensures iconsTop.None? || iconsTop.value == 0.0 ==> t == vp.innerHeight - 260.0
  {
    if iconsTop.Some? && iconsTop.value != 0.0 then iconsTop.value else vp.innerHeight - 260.0
  }

  /**
   * `calculateMobilePosition`: with more than 100 pixels between the hero
   * text and the icons, the window is centred in that band vertically and in
   * the viewport horizontally, and keeps the size it was given; otherwise
   * there is no placement.
   */
  function MobilePosition(heroBottom: Option<real>, iconsTop: Option<real>, vp: Viewport,
                          windowWidth: real, windowHeight: real): (r: Option<MobilePlacement>)
    ensures var top, bottom := TextBottom(heroBottom, vp), IconsTop(iconsTop, vp);
      && (r.None? <==> bottom - top <= 100.0)
      && (r.Some? ==>
            && r.value.y - top == bottom - (r.value.y + windowHeight)
            && r.value.x == vp.innerWidth - (r.value.x + windowWidth)
            && r.value.windowSize == Size(windowWidth, windowHeight))
  {
    var textBottom := TextBottom(heroBottom, vp);
    var availableHeight := IconsTop(iconsTop, vp) - textBottom;
    if availableHeight > 100.0 then
      var centerY := textBottom + availableHeight / 2.0;
      Some(MobilePlacement((vp.innerWidth - windowWidth) / 2.0, centerY - windowHeight / 2.0,
                           Size(windowWidth, windowHeight)))
    else
      None
  }

  /** `getMobileWindowDimensions`: nine tenths of the viewport wide, 20 short of each edge of the band. */
  function MobileDimensions(vp: Viewport, availableHeight: real): (s: Size)
    ensures 10.0 * s.width == 9.0 * vp.innerWidth
    ensures s.height + 2.0 * 20.0 == availableHeight
  {
    Size(vp.innerWidth * 0.9, availableHeight - 20.0 * 2.0)
  }

  /**
   * The phone layout as the window hook composes it: a window sized for the
   * band between the hero text and the icons is always placed, sits 20
   * pixels inside each edge of the band, and leaves 5% of the viewport's
   * width on either side.
   */
  lemma MobileWindowFillsBand(heroBottom: Option<real>, vp: Viewport)
    requires vp.innerHeight - 260.0 != 0.0
    requires vp.innerHeight - 260.0 - TextBottom(heroBottom, vp) > 100.0
    ensures var iconsTop := vp.innerHeight - 260.0;
      var top := TextBottom(heroBottom, vp);
      var s := MobileDimensions(vp, iconsTop - top);
      var r := MobilePosition(heroBottom, Some(iconsTop), vp, s.width, s.height);
      && r.Some?
      && r.value.y == top + 20.0
      && r.value.y + s.height == iconsTop - 20.0
      && 20.0 * r.value.x == vp.innerWidth
  {
  }
}
