/** View geometry of the main window (wsi_viewer.py): the zoom clamp of `set_zoom`
    with the zoom buttons that call it, and the red overlay box that
    `update_thumbnail_box` draws on the thumbnail to mark the visible region.
    Coordinates and factors are exact reals here; Python floats are not rounded. */
module ViewGeometry {
  import opened Wrappers

  /** Zoom range of `set_zoom`: 1% to 1000%. */
  const MinZoom: real := 0.01
  const MaxZoom: real := 10.0
  /** Factor applied by `zoom_in` and undone by `zoom_out`. */
  const ZoomStep: real := 1.2
  /** Smallest side of a visible overlay box, in thumbnail pixels. */
  const MinBoxSize: real := 5.0

  function RMin(a: real, b: real): real { if b < a then b else a }
  function RMax(a: real, b: real): real { if a < b then b else a }

  /** `max(0.01, min(10.0, factor))`: the point of the zoom range nearest to `factor`. */
  function ClampZoom(factor: real): (z: real)
    ensures MinZoom <= z <= MaxZoom
    ensures MinZoom <= factor <= MaxZoom ==> z == factor
    ensures factor < MinZoom ==> z == MinZoom
    ensures MaxZoom < factor ==> z == MaxZoom
  {
    RMax(MinZoom, RMin(MaxZoom, factor))
  }

  /** Clamping twice is clamping once. */
  lemma ClampZoomIdempotent(factor: real)
    ensures ClampZoom(ClampZoom(factor)) == ClampZoom(factor)
  {
  }

  /** The clamp preserves the order of requested factors. */
  lemma ClampZoomMonotone(a: real, b: real)
    requires a <= b
    ensures ClampZoom(a) <= ClampZoom(b)
  {
  }

  /** The zoom factor stored by `set_zoom(factor)`; `active` is false when no slide is
      loaded or the window is closing, and then the stored factor stays as it was. */
  function SetZoom(current: real, factor: real, active: bool): (z: real)
    ensures active ==> MinZoom <= z <= MaxZoom
    ensures active && MinZoom <= factor <= MaxZoom ==> z == factor
    ensures !active ==> z == current
  {
    if active then ClampZoom(factor) else current
  }

  /** `zoom_in`: request 1.2 times the current factor. */
  function ZoomIn(current: real, active: bool): (z: real)
    ensures active ==> MinZoom <= z <= MaxZoom
    ensures active && MinZoom <= current * ZoomStep <= MaxZoom ==> z == current * ZoomStep
    ensures !active ==> z == current
  {
    SetZoom(current, current * ZoomStep, active)
  }

  /** `zoom_out`: request the current factor divided by 1.2. */
  function ZoomOut(current: real, active: bool): (z: real)
    ensures active ==> MinZoom <= z <= MaxZoom
    ensures active && MinZoom <= current / ZoomStep <= MaxZoom ==> z == current / ZoomStep
    ensures !active ==> z == current
  {
    SetZoom(current, current / ZoomStep, active)
  }

  /** Zooming out undoes zooming in as long as neither step meets a bound of the range. */
  lemma ZoomOutUndoesZoomIn(current: real)
    requires MinZoom <= current && current * ZoomStep <= MaxZoom
    ensures ZoomOut(ZoomIn(current, true), true) == current
  {
    assert ZoomIn(current, true) == current * ZoomStep;
    assert current * ZoomStep / ZoomStep == current;
  }

  /** Zooming in from inside the range never lowers the factor, and stays in the range. */
  lemma ZoomInGrows(current: real)
    requires MinZoom <= current <= MaxZoom
    ensures current <= ZoomIn(current, true) <= MaxZoom
  {
  }

  /** The visible region in scene coordinates of the displayed level. */
  datatype SceneRect = SceneRect(x: real, y: real, width: real, height: real)

  /** A rectangle on the thumbnail, in thumbnail pixels. */
  datatype Box = Box(x: real, y: real, width: real, height: real)

  /** Integer rectangle handed to `drawRect`. */
  datatype PixelRect = PixelRect(x: int, y: int, width: int, height: int)

  /** Lines 818-821: the view in level-0 units, each coordinate times the downsample
      of the displayed level. */
  function ToLevel0(view: SceneRect, levelScale: real): SceneRect {
    SceneRect(view.x * levelScale, view.y * levelScale, view.width * levelScale, view.height * levelScale)
  }

  /** Lines 824-831: the level-0 view scaled by thumbnail size over slide size. `None`
      when a slide dimension is 0, where the division raises and nothing is drawn. */
  function ScaledBox(view: SceneRect, levelScale: real, thumbW: nat, thumbH: nat, origW: nat, origH: nat): (r: Option<Box>)
    ensures r.None? <==> origW == 0 || origH == 0
  {
    if origW == 0 || origH == 0 then None
    else
      var v := ToLevel0(view, levelScale);
      var scaleX := thumbW as real / origW as real;
      var scaleY := thumbH as real / origH as real;
      Some(Box(v.x * scaleX, v.y * scaleY, v.width * scaleX, v.height * scaleY))
  }

  /** Lines 834-837: the corner is moved into the thumbnail and the sides cut at its
      right and bottom edges. */
  function ClampBox(b: Box, thumbW: real, thumbH: real): (c: Box)
    requires 0.0 <= thumbW && 0.0 <= thumbH
    ensures 0.0 <= c.x <= thumbW && 0.0 <= c.y <= thumbH
    ensures c.x + c.width <= thumbW && c.y + c.height <= thumbH
    ensures 0.0 <= b.x <= thumbW ==> c.x == b.x
    ensures 0.0 <= b.y <= thumbH ==> c.y == b.y
    ensures b.x < 0.0 ==> c.x == 0.0
    ensures thumbW < b.x ==> c.x == thumbW
    ensures b.y < 0.0 ==> c.y == 0.0
    ensures thumbH < b.y ==> c.y == thumbH
    ensures c.width <= b.width && (c.width == b.width || c.x + c.width == thumbW)
    ensures c.height <= b.height && (c.height == b.height || c.y + c.height == thumbH)
  {
    var x := RMax(0.0, RMin(b.x, thumbW));
    var y := RMax(0.0, RMin(b.y, thumbH));
    Box(x, y, RMin(b.width, thumbW - x), RMin(b.height, thumbH - y))
  }

  /** Lines 840-844: a side strictly between 0 and 5 becomes 5; every other side, and
      the corner, stay. */
  function EnforceMinSize(b: Box): (c: Box)
    ensures c.x == b.x && c.y == b.y
    ensures 0.0 < b.width < MinBoxSize ==> c.width == MinBoxSize
    ensures !(0.0 < b.width < MinBoxSize) ==> c.width == b.width
    ensures 0.0 < b.height < MinBoxSize ==> c.height == MinBoxSize
    ensures !(0.0 < b.height < MinBoxSize) ==> c.height == b.height
    ensures !(0.0 < c.width < MinBoxSize) && !(0.0 < c.height < MinBoxSize)
    ensures (c.width > 0.0) == (b.width > 0.0) && (c.height > 0.0) == (b.height > 0.0)
  {
    Box(b.x, b.y,
        if 0.0 < b.width < MinBoxSize then MinBoxSize else b.width,
        if 0.0 < b.height < MinBoxSize then MinBoxSize else b.height)
  }

  /** The overlay box after all adjustments, `None` when it cannot be computed. */
  function OverlayBox(view: SceneRect, levelScale: real, thumbW: nat, thumbH: nat, origW: nat, origH: nat): (r: Option<Box>)
    ensures r.None? <==> origW == 0 || origH == 0
    ensures r.Some? ==> 0.0 <= r.value.x <= thumbW as real && 0.0 <= r.value.y <= thumbH as real
    ensures r.Some? ==> !(0.0 < r.value.width < MinBoxSize) && !(0.0 < r.value.height < MinBoxSize)
  {
    match ScaledBox(view, levelScale, thumbW, thumbH, origW, origH)
    case None => None
    case Some(b) => Some(EnforceMinSize(ClampBox(b, thumbW as real, thumbH as real)))
  }

  /** Python `int()` on a float: truncation toward zero. */
  function Trunc(r: real): (t: int)
    ensures 0.0 <= r ==> 0 <= t && t as real <= r < t as real + 1.0
    ensures r < 0.0 ==> t <= 0 && t as real - 1.0 < r <= t as real
  {
    if r >= 0.0 then r.Floor else -((-r).Floor)
  }

  /** Line 847: the box is drawn only when both sides are positive. */
  function DrawnRect(view: SceneRect, levelScale: real, thumbW: nat, thumbH: nat, origW: nat, origH: nat): (r: Option<PixelRect>)
    ensures r.Some? ==> 0 <= r.value.x <= thumbW && 0 <= r.value.y <= thumbH
    ensures r.Some? ==> r.value.width >= 5 && r.value.height >= 5
  {
    match OverlayBox(view, levelScale, thumbW, thumbH, origW, origH)
    case None => None
    case Some(b) =>
      if b.width > 0.0 && b.height > 0.0
      then Some(PixelRect(Trunc(b.x), Trunc(b.y), Trunc(b.width), Trunc(b.height)))
      else None
  }

  /** The adjusted box keeps its corner on the thumbnail; its far edges stay on the
      thumbnail except where a side was raised to the minimum, which can overshoot
      the edge by less than the minimum. */
  lemma OverlayBounds(view: SceneRect, levelScale: real, thumbW: nat, thumbH: nat, origW: nat, origH: nat)
    requires origW != 0 && origH != 0
    ensures var c := OverlayBox(view, levelScale, thumbW, thumbH, origW, origH).value;
      && 0.0 <= c.x <= thumbW as real && 0.0 <= c.y <= thumbH as real
      && (c.x + c.width <= thumbW as real || (c.width == MinBoxSize && c.x + c.width < thumbW as real + MinBoxSize))
      && (c.y + c.height <= thumbH as real || (c.height == MinBoxSize && c.y + c.height < thumbH as real + MinBoxSize))
  {
  }

  /** The box is drawn exactly when the slide has non-zero dimensions and the clamped
      box has two positive sides; the minimum-size rule never decides it. */
  lemma DrawnIffClampedPositive(view: SceneRect, levelScale: real, thumbW: nat, thumbH: nat, origW: nat, origH: nat)
    ensures DrawnRect(view, levelScale, thumbW, thumbH, origW, origH).Some? <==>
      && origW != 0 && origH != 0
      && var c := ClampBox(ScaledBox(view, levelScale, thumbW, thumbH, origW, origH).value, thumbW as real, thumbH as real);
         c.width > 0.0 && c.height > 0.0
  {
  }

  /** When the level-0 view lies inside the slide, the scaled box already lies inside the
      thumbnail and the clamps change nothing. */
  lemma InsideViewUnclamped(view: SceneRect, levelScale: real, thumbW: nat, thumbH: nat, origW: nat, origH: nat)
    requires origW != 0 && origH != 0
    requires var v := ToLevel0(view, levelScale);
      && 0.0 <= v.x && 0.0 <= v.width && v.x + v.width <= origW as real
      && 0.0 <= v.y && 0.0 <= v.height && v.y + v.height <= origH as real
    ensures var b := ScaledBox(view, levelScale, thumbW, thumbH, origW, origH).value;
      ClampBox(b, thumbW as real, thumbH as real) == b
  {
    var v := ToLevel0(view, levelScale);
    var b := ScaledBox(view, levelScale, thumbW, thumbH, origW, origH).value;
    ScaleInside(v.x, v.width, origW as real, thumbW as real);
    ScaleInside(v.y, v.height, origH as real, thumbH as real);
    ClampInside(b, thumbW as real, thumbH as real);
  }

  /** A box that already lies inside the thumbnail is left as it is by the clamps. */
  lemma ClampInside(b: Box, thumbW: real, thumbH: real)
    requires 0.0 <= b.x && 0.0 <= b.width && b.x + b.width <= thumbW
    requires 0.0 <= b.y && 0.0 <= b.height && b.y + b.height <= thumbH
    ensures ClampBox(b, thumbW, thumbH) == b
  {
  }

  /** Scaling an interval of `[0, total]` by `thumb / total` lands in `[0, thumb]`. */
  lemma ScaleInside(p: real, len: real, total: real, thumb: real)
    requires total > 0.0 && thumb >= 0.0
    requires 0.0 <= p && 0.0 <= len && p + len <= total
    ensures 0.0 <= p * (thumb / total) <= thumb
    ensures p * (thumb / total) + len * (thumb / total) <= thumb
  {
    var s := thumb / total;
    assert s >= 0.0;
    assert (p + len) * s <= total * s;
    assert total * s == thumb;
  }

  /** The minimum-size rule can push the box past the thumbnail: a one-pixel-wide view
      two pixels from the right edge of a 190-pixel thumbnail is drawn five pixels wide,
      ending three pixels beyond the edge. */
  lemma MinimumSizeOvershootExample()
    ensures var c := OverlayBox(SceneRect(188.0, 0.0, 1.0, 10.0), 1.0, 190, 150, 190, 150).value;
      c == Box(188.0, 0.0, 5.0, 10.0) && c.x + c.width > 190.0
  {
  }
}
