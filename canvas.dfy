/**
 * Canvas geometry: the uniform scale that keeps the drawing surface under
 * a fixed pixel area, the inverse transform used to place prompt markers,
 * marker colours, and the merge of a pending prompt into the prompt list.
 */
module CanvasGeometry {
  import opened Options
  import opened Prompts

  /** Largest canvas area, in pixels, the stage may allocate. */
  const MAX_CANVAS_AREA: int := 1677721

  const POSITIVE_COLOUR: string := "turquoise"
  const NEGATIVE_COLOUR: string := "pink"

  /**
   * The square root the clamp needs, for an image whose area exceeds the
   * maximum: a positive number whose square is MAX_CANVAS_AREA / area.
   * The square root itself is computed by the host and passed in.
   */
  predicate IsClampRoot(w: nat, h: nat, root: real)
  {
    w * h > MAX_CANVAS_AREA ==> root > 0.0 && root * root == MAX_CANVAS_AREA as real / (w * h) as real
  }

  lemma SquareBelowOne(s: real)
    requires s > 0.0 && s * s < 1.0
    ensures s < 1.0
  {
  }

  /**
   * The uniform canvas scale: 1 when the image fits the maximum area,
   * otherwise a factor in (0, 1) whose square times the area is the maximum.
   */
  function CanvasScale(w: nat, h: nat, root: real): (s: real)
    requires IsClampRoot(w, h, root)
    ensures 0.0 < s <= 1.0
    ensures w * h <= MAX_CANVAS_AREA ==> s == 1.0
    ensures w * h > MAX_CANVAS_AREA ==> s < 1.0 && s * s * (w * h) as real == MAX_CANVAS_AREA as real
  {
    if w * h > MAX_CANVAS_AREA then
      var area := (w * h) as real;
      assert MAX_CANVAS_AREA as real / area < 1.0;
      SquareBelowOne(root);
      root
    else 1.0
  }

  lemma FloorProductBound(a: real, b: real)
    requires a >= 0.0 && b >= 0.0
    ensures a.Floor >= 0 && b.Floor >= 0
    ensures (a.Floor * b.Floor) as real <= a * b
  {
    var fa, fb := a.Floor as real, b.Floor as real;
    assert 0.0 <= fa <= a && 0.0 <= fb <= b;
    assert fa * fb <= a * fb;
    assert a * fb <= a * b;
  }

  /** The area of a uniformly scaled rectangle is the square of the scale times the area. */
  lemma ScaledArea(w: nat, h: nat, s: real)
    ensures (w as real * s) * (h as real * s) == s * s * (w * h) as real
  {
    assert (w * h) as real == w as real * h as real;
  }

  /**
   * The canvas size: both image dimensions scaled by the same canvas scale
   * and floored; its area never exceeds the maximum, and an image that fits
   * keeps its own size.
   */
  function CanvasDimensions(w: nat, h: nat, root: real): (d: (int, int))
    requires IsClampRoot(w, h, root)
    ensures d.0 >= 0 && d.1 >= 0
    ensures d.0 * d.1 <= MAX_CANVAS_AREA
    ensures d.0 == (w as real * CanvasScale(w, h, root)).Floor
    ensures d.1 == (h as real * CanvasScale(w, h, root)).Floor
    ensures w * h <= MAX_CANVAS_AREA ==> d == (w, h)
  {
    var s := CanvasScale(w, h, root);
    ClampedAreaFits(w, h, s);
    ((w as real * s).Floor, (h as real * s).Floor)
  }

  /** Flooring both sides of a scaled rectangle never increases its area. */
  lemma FloorArea(w: nat, h: nat, s: real)
    requires s > 0.0
    ensures (w as real * s).Floor >= 0 && (h as real * s).Floor >= 0
    ensures ((w as real * s).Floor * (h as real * s).Floor) as real <= s * s * (w * h) as real
  {
    var a, b := w as real * s, h as real * s;
    FloorProductBound(a, b);
    ScaledArea(w, h, s);
  }

  lemma ClampedAreaFits(w: nat, h: nat, s: real)
    requires s > 0.0
    requires w * h <= MAX_CANVAS_AREA ==> s == 1.0
    requires w * h > MAX_CANVAS_AREA ==> s * s * (w * h) as real == MAX_CANVAS_AREA as real
    ensures var dw, dh := (w as real * s).Floor, (h as real * s).Floor;
      dw >= 0 && dh >= 0 && dw * dh <= MAX_CANVAS_AREA
      && (w * h <= MAX_CANVAS_AREA ==> dw == w && dh == h)
  {
    FloorArea(w, h, s);
    if w * h <= MAX_CANVAS_AREA {
      assert s * s * (w * h) as real == (w * h) as real;
    }
  }

  /**
   * Where a prompt marker is drawn: the model-space coordinate mapped back
   * by `canvasScale / scale`; mapping it forward again gives the prompt.
   */
  function MarkerPosition(coord: real, scale: real, canvasScale: real): (pos: real)
    requires scale > 0.0 && canvasScale > 0.0
    ensures pos * (scale / canvasScale) == coord
  {
    assert (canvasScale / scale) * (scale / canvasScale) == 1.0;
    Unscale(coord, scale, canvasScale)
  }

  /** A point prompt's marker lands back on the pointer position it came from. */
  lemma MarkerInvertsGetClick(button: Option<int>, negativeToggle: bool, x: real, y: real,
                              scale: real, canvasScale: real)
    requires scale > 0.0 && canvasScale > 0.0
    requires GetClick(button, negativeToggle, x, y, scale, canvasScale).Some?
    ensures var c := GetClick(button, negativeToggle, x, y, scale, canvasScale).value;
      MarkerPosition(c.x, scale, canvasScale) == x && MarkerPosition(c.y, scale, canvasScale) == y
  {
  }

  /** Marker colour: negative prompts pink, positive prompts turquoise, anything else none. */
  function ClickColour(clickType: int): (c: Option<string>)
    ensures c == Some(NEGATIVE_COLOUR) <==> clickType == NEGATIVE
    ensures c == Some(POSITIVE_COLOUR) <==> clickType == POSITIVE
    ensures c.None? <==> clickType != NEGATIVE && clickType != POSITIVE
  {
    match clickType
    case 0 => Some(NEGATIVE_COLOUR)
    case 1 => Some(POSITIVE_COLOUR)
    case _ => None
  }

  /** Every prompt the pointer produces gets a marker colour matching its label. */
  lemma PointerPromptsHaveColour(button: Option<int>, negativeToggle: bool, x: real, y: real,
                                 scale: real, canvasScale: real)
    requires scale > 0.0 && canvasScale > 0.0
    requires GetClick(button, negativeToggle, x, y, scale, canvasScale).Some?
    ensures var c := GetClick(button, negativeToggle, x, y, scale, canvasScale).value;
      ClickColour(c.clickType) == if negativeToggle || button == Some(2) then Some(NEGATIVE_COLOUR) else Some(POSITIVE_COLOUR)
  {
  }

  /**
   * The prompt list after the pending prompt is merged: appended to the
   * list, or the only prompt when there is no list; no pending prompt means
   * no update (None).
   */
  function MergeClick(clicks: Option<seq<Click>>, click: Option<Click>): (merged: Option<seq<Click>>)
    ensures merged.None? <==> click.None?
    ensures merged.Some? ==> |merged.value| == |OrEmpty(clicks)| + 1
    ensures merged.Some? ==> merged.value[..|OrEmpty(clicks)|] == OrEmpty(clicks)
    ensures merged.Some? ==> merged.value[|OrEmpty(clicks)|] == click.value
  {
    if clicks.Some? && click.Some? then Some(clicks.value + [click.value])
    else if click.Some? then Some([click.value])
    else None
  }

  /**
   * Whether a mouse-up on the canvas reaches the stage handler: not while
   * the sticker tab is open, never in "All" mode, and not in multi-mask
   * mode once prompts exist.
   */
  predicate MouseUpReachesStage(stickerTab: bool, segmentType: SegmentType, multiMask: bool,
                                clicks: Option<seq<Click>>)
  {
    !stickerTab && segmentType != AllMode && !(multiMask && clicks.Some?)
  }
}
