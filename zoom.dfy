/** The zoom-reactive styler: every visual parameter below is a pure function
    of the map's current zoom level, recomputed on each `zoomend` event.
    Zoom levels are exact reals (the page computes in IEEE doubles). A zoom
    read before the map has a view is `undefined`, for which the page's
    arithmetic yields NaN; that case lies outside this model. */
module Zoom {

  // getPinRadius
  const PinMinZoom: real := 12.0
  const PinMaxZoom: real := 16.0
  const PinMinRadius: real := 3.0
  const PinMaxRadius: real := 6.0

  // getRegionFillOpacity
  const RegionMinZoom: real := 3.0
  const RegionMaxZoom: real := 13.0
  const RegionMinOpacity: real := 0.0
  const RegionMaxOpacity: real := 0.8

  // updateZoomDependentElements
  const LabelMinZoom: real := 10.0
  const PinHiddenMaxZoom: real := 10.0

  /** Circle-marker radius: clamped linear interpolation from 3 at zoom 12
      to 6 at zoom 16. */
  function PinRadius(zoom: real): (r: real)
    ensures PinMinRadius <= r <= PinMaxRadius
    ensures zoom <= PinMinZoom ==> r == PinMinRadius
    ensures zoom >= PinMaxZoom ==> r == PinMaxRadius
    ensures PinMinZoom < zoom < PinMaxZoom ==> PinMinRadius < r < PinMaxRadius
  {
    if zoom <= PinMinZoom then PinMinRadius
    else if zoom >= PinMaxZoom then PinMaxRadius
    else
      var fraction := (zoom - PinMinZoom) / (PinMaxZoom - PinMinZoom);
      PinMinRadius + fraction * (PinMaxRadius - PinMinRadius)
  }

  /** Math.max on reals. */
  function Max(a: real, b: real): (r: real)
    ensures r >= a && r >= b && (r == a || r == b)
  {
    if a >= b then a else b
  }

  /** Math.min on reals. */
  function Min(a: real, b: real): (r: real)
    ensures r <= a && r <= b && (r == a || r == b)
  {
    if a <= b then a else b
  }

  /** Region polygon fill opacity: a falling line through (3, 0.8) and
      (13, 0), clamped to [0, 0.8]. */
  function RegionFillOpacity(zoom: real): (r: real)
    ensures RegionMinOpacity <= r <= RegionMaxOpacity
    ensures zoom <= RegionMinZoom ==> r == RegionMaxOpacity
    ensures zoom >= RegionMaxZoom ==> r == RegionMinOpacity
    ensures RegionMinZoom < zoom < RegionMaxZoom ==> RegionMinOpacity < r < RegionMaxOpacity
  {
    var opacity := ((RegionMaxOpacity - RegionMinOpacity) / (RegionMinZoom - RegionMaxZoom))
                   * (zoom - RegionMaxZoom);
    Max(RegionMinOpacity, Min(RegionMaxOpacity, opacity))
  }

  /** CSS `display` of a region's permanent name label. */
  function LabelDisplay(zoom: real): (d: string)
    ensures d == "none" || d == "block"
  {
    if zoom < LabelMinZoom then "none" else "block"
  }

  /** The style every pin layer gets on a zoom change. */
  datatype PinStyle = PinStyle(radius: real, fillOpacity: real, opacity: real)

  function PinStyleAt(zoom: real): (s: PinStyle)
    ensures s.radius == PinRadius(zoom)
    ensures s.fillOpacity == s.opacity
    ensures s.opacity == 0.0 || s.opacity == 1.0
  {
    var o := if zoom <= PinHiddenMaxZoom then 0.0 else 1.0;
    PinStyle(PinRadius(zoom), o, o)
  }

  /** Pins are visible exactly when their opacity is non-zero. */
  predicate PinsVisible(zoom: real) {
    PinStyleAt(zoom).opacity != 0.0
  }

  predicate LabelsShown(zoom: real) {
    LabelDisplay(zoom) == "block"
  }

  // ---------------------------------------------------------------------
  // Pin radius

  /** The radius never decreases as the map zooms in. */
  lemma PinRadiusMonotone(a: real, b: real)
    requires a <= b
    ensures PinRadius(a) <= PinRadius(b)
  {
  }

  /** Between zoom 12 and 16 the radius grows by 3/4 per zoom level, so it
      is strictly increasing there; outside it is constant. */
  lemma PinRadiusSlope(a: real, b: real)
    requires PinMinZoom <= a <= b <= PinMaxZoom
    ensures PinRadius(b) - PinRadius(a) == (b - a) * 0.75
  {
  }

  lemma PinRadiusAtFourteen()
    ensures PinRadius(14.0) == 4.5
  {
  }

  // ---------------------------------------------------------------------
  // Region fill opacity

  /** The fill fades as the map zooms in. */
  lemma RegionFillOpacityAntitone(a: real, b: real)
    requires a <= b
    ensures RegionFillOpacity(a) >= RegionFillOpacity(b)
  {
  }

  /** Between zoom 3 and 13 the opacity falls by 0.08 per zoom level. */
  lemma RegionFillOpacitySlope(a: real, b: real)
    requires RegionMinZoom <= a <= b <= RegionMaxZoom
    ensures RegionFillOpacity(a) - RegionFillOpacity(b) == (b - a) * 0.08
  {
  }

  lemma RegionFillOpacityAtEight()
    ensures RegionFillOpacity(8.0) == 0.4
  {
  }

  // ---------------------------------------------------------------------
  // Visibility thresholds

  /** Labels are shown exactly from zoom 10 on. */
  lemma LabelsShownIff(zoom: real)
    ensures LabelsShown(zoom) <==> zoom >= LabelMinZoom
    ensures !LabelsShown(zoom) <==> LabelDisplay(zoom) == "none"
  {
  }

  /** Pins are invisible exactly at zoom 10 and below, and fully opaque
      above it. */
  lemma PinsVisibleIff(zoom: real)
    ensures PinsVisible(zoom) <==> zoom > PinHiddenMaxZoom
    ensures PinsVisible(zoom) ==> PinStyleAt(zoom).fillOpacity == 1.0
  {
  }

  /** The two thresholds differ at zoom 10 only: visible pins always come
      with visible labels, and at zoom 10 labels show while pins are hidden. */
  lemma VisibilityThresholds(zoom: real)
    ensures PinsVisible(zoom) ==> LabelsShown(zoom)
    ensures (LabelsShown(zoom) && !PinsVisible(zoom)) <==> zoom == 10.0
  {
  }

  /** Whenever pins are hidden they also have the minimum radius. */
  lemma HiddenPinsHaveMinRadius(zoom: real)
    requires !PinsVisible(zoom)
    ensures PinStyleAt(zoom).radius == PinMinRadius
  {
  }
}
