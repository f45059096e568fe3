/**
  The two viewport-change classifiers. `hasViewportChangedSignificantly` in
  the marker hook compares each span's change (threshold 0.1) and each
  centre shift (threshold 0.05) with the reference rectangle's own span;
  `shouldFetchNewData` in the card hooks compares the relative area change
  (threshold 0.1) and each centre shift (threshold 0.25). Both answer true
  when there is no reference rectangle yet.

  Divisions follow JavaScript numbers: dividing a positive amount by a zero
  span gives +Infinity (above every threshold) and 0 / 0 gives NaN (below
  every threshold), so degenerate rectangles need no precondition.
 */
module Significance {
  import opened Common
  import opened GeoRect

  const MarkerZoomThreshold: real := 0.1
  const MarkerPanThreshold: real := 0.05
  const CardAreaThreshold: real := 0.1
  const CardPanThreshold: real := 0.25

  function Abs(x: real): real { if x < 0.0 then -x else x }

  function Area(v: Viewport): real { Height(v) * Width(v) }

  /**
    JavaScript's `num / den > threshold` for a finite threshold. A zero
    `den` is the +0 that subtracting equal coordinates yields.
   */
  predicate Exceeds(num: real, den: real, threshold: real)
  {
    if den != 0.0 then num / den > threshold else num > 0.0
  }

  /** `hasViewportChangedSignificantly(oldViewport, newViewport)`. */
  predicate MarkerViewportChanged(reference: Option<Viewport>, next: Viewport)
  {
    match reference
    case None => true
    case Some(o) =>
      var h := Height(o);
      var w := Width(o);
      Exceeds(Abs(h - Height(next)), h, MarkerZoomThreshold) ||
      Exceeds(Abs(w - Width(next)), w, MarkerZoomThreshold) ||
      Exceeds(Abs(CenterLat(next) - CenterLat(o)), h, MarkerPanThreshold) ||
      Exceeds(Abs(CenterLng(next) - CenterLng(o)), w, MarkerPanThreshold)
  }

  /**
    `Math.abs(1 - newArea / oldArea) > 0.1`. With a zero old area the
    quotient is an infinity (non-zero new area) or NaN (zero new area).
   */
  predicate AreaChanged(oldArea: real, newArea: real)
  {
    if oldArea != 0.0 then Abs(1.0 - newArea / oldArea) > CardAreaThreshold else newArea != 0.0
  }

  /** The zoom test of `shouldFetchNewData`: the area changed by more than 10%. */
  predicate CardZoomed(o: Viewport, next: Viewport)
  {
    AreaChanged(Area(o), Area(next))
  }

  /** The pan test of `shouldFetchNewData`: the centre moved by more than a quarter of a span. */
  predicate CardPanned(o: Viewport, next: Viewport)
  {
    Exceeds(Abs(CenterLat(next) - CenterLat(o)), Height(o), CardPanThreshold) ||
    Exceeds(Abs(CenterLng(next) - CenterLng(o)), Width(o), CardPanThreshold)
  }

  /** `shouldFetchNewData(oldViewport, newViewport)` of the two card-list hooks. */
  predicate ShouldFetchNewData(reference: Option<Viewport>, next: Viewport)
  {
    match reference
    case None => true
    case Some(o) => CardZoomed(o, next) || CardPanned(o, next)
  }

  /** A rectangle compared with itself is never a significant change, for either classifier. */
  lemma SameViewportNotSignificant(v: Viewport)
    ensures !MarkerViewportChanged(Some(v), v)
    ensures !ShouldFetchNewData(Some(v), v)
  {
  }

  /** With a positive denominator the JavaScript quotient test is a product test. */
  lemma ExceedsPositive(num: real, den: real, threshold: real)
    requires den > 0.0
    ensures Exceeds(num, den, threshold) <==> num > threshold * den
  {
    assert num / den * den == num;
    if num / den > threshold {
      assert num / den * den > threshold * den;
    }
  }

  /**
    For a reference rectangle with positive spans, the marker classifier
    fires exactly when some span changes by more than a tenth of the old
    span, or the centre moves by more than a twentieth of it on some axis.
   */
  lemma MarkerChangedIff(o: Viewport, n: Viewport)
    requires Height(o) > 0.0 && Width(o) > 0.0
    ensures MarkerViewportChanged(Some(o), n) <==>
      Abs(Height(o) - Height(n)) * 10.0 > Height(o) ||
      Abs(Width(o) - Width(n)) * 10.0 > Width(o) ||
      Abs(CenterLat(n) - CenterLat(o)) * 20.0 > Height(o) ||
      Abs(CenterLng(n) - CenterLng(o)) * 20.0 > Width(o)
  {
    ExceedsPositive(Abs(Height(o) - Height(n)), Height(o), MarkerZoomThreshold);
    ExceedsPositive(Abs(Width(o) - Width(n)), Width(o), MarkerZoomThreshold);
    ExceedsPositive(Abs(CenterLat(n) - CenterLat(o)), Height(o), MarkerPanThreshold);
    ExceedsPositive(Abs(CenterLng(n) - CenterLng(o)), Width(o), MarkerPanThreshold);
  }

  /**
    For a reference rectangle with positive spans, the card classifier fires
    exactly when the area changes by more than a tenth of the old area, or
    the centre moves by more than a quarter of the old span on some axis.
   */
  lemma ShouldFetchIff(o: Viewport, n: Viewport)
    requires Height(o) > 0.0 && Width(o) > 0.0
    ensures ShouldFetchNewData(Some(o), n) <==>
      Abs(Area(o) - Area(n)) * 10.0 > Area(o) ||
      Abs(CenterLat(n) - CenterLat(o)) * 4.0 > Height(o) ||
      Abs(CenterLng(n) - CenterLng(o)) * 4.0 > Width(o)
  {
    ProductPositive(Height(o), Width(o));
    AreaChangedPositive(Area(o), Area(n));
    ExceedsPositive(Abs(CenterLat(n) - CenterLat(o)), Height(o), CardPanThreshold);
    ExceedsPositive(Abs(CenterLng(n) - CenterLng(o)), Width(o), CardPanThreshold);
  }

  lemma AreaChangedPositive(oa: real, na: real)
    requires oa > 0.0
    ensures AreaChanged(oa, na) <==> Abs(oa - na) * 10.0 > oa
  {
    var q := na / oa;
    assert q * oa == na;
    assert (1.0 - q) * oa == oa - na;
    if 1.0 - q >= 0.0 {
      assert Abs(oa - na) == Abs(1.0 - q) * oa;
    } else {
      assert Abs(oa - na) == Abs(1.0 - q) * oa;
    }
    if Abs(1.0 - q) > CardAreaThreshold {
      assert Abs(1.0 - q) * oa > CardAreaThreshold * oa;
    } else {
      assert Abs(1.0 - q) * oa <= CardAreaThreshold * oa;
    }
  }

  /**
    Zooming about a fixed centre to `k` times the old area is a significant
    card change exactly when `k` differs from 1 by more than 0.1.
   */
  lemma ZoomAboutCentre(o: Viewport, n: Viewport, k: real)
    requires Height(o) > 0.0 && Width(o) > 0.0
    requires CenterLat(n) == CenterLat(o) && CenterLng(n) == CenterLng(o)
    requires Area(n) == k * Area(o)
    ensures ShouldFetchNewData(Some(o), n) <==> Abs(1.0 - k) > CardAreaThreshold
  {
    ProductPositive(Height(o), Width(o));
    QuotientOfMultiple(k, Area(o), Area(n));
  }

  /** Shrinking the area by 15% is significant for the card classifier; by 5% it is not. */
  lemma ShrinkExamples(o: Viewport, n85: Viewport, n95: Viewport)
    requires Height(o) > 0.0 && Width(o) > 0.0
    requires CenterLat(n85) == CenterLat(o) && CenterLng(n85) == CenterLng(o)
    requires CenterLat(n95) == CenterLat(o) && CenterLng(n95) == CenterLng(o)
    requires Area(n85) == 0.85 * Area(o)
    requires Area(n95) == 0.95 * Area(o)
    ensures ShouldFetchNewData(Some(o), n85)
    ensures !ShouldFetchNewData(Some(o), n95)
  {
    ZoomAboutCentre(o, n85, 0.85);
    ZoomAboutCentre(o, n95, 0.95);
  }

  lemma ProductPositive(a: real, b: real)
    requires a > 0.0 && b > 0.0
    ensures a * b > 0.0
  {
  }

  lemma QuotientOfMultiple(k: real, d: real, x: real)
    requires d != 0.0 && x == k * d
    ensures x / d == k
  {
  }

  /**
    Panning north by `d` without changing the spans is a significant marker
    change exactly when `|d|` exceeds a twentieth of the height.
   */
  lemma MarkerPanNorth(o: Viewport, d: real)
    requires Height(o) > 0.0 && Width(o) > 0.0
    ensures MarkerViewportChanged(Some(o), Viewport(o.minLat + d, o.maxLat + d, o.minLng, o.maxLng))
        <==> Abs(d) * 20.0 > Height(o)
  {
    var n := Viewport(o.minLat + d, o.maxLat + d, o.minLng, o.maxLng);
    assert CenterLat(n) - CenterLat(o) == d;
    MarkerChangedIff(o, n);
  }

  /**
    Without a change of span, every move the card classifier calls
    significant is significant for the marker classifier too: markers react
    to smaller pans.
   */
  lemma CardPanImpliesMarkerPan(o: Viewport, n: Viewport)
    requires Height(n) == Height(o) && Width(n) == Width(o)
    requires ShouldFetchNewData(Some(o), n)
    ensures MarkerViewportChanged(Some(o), n)
  {
    var dLat, dLng := Abs(CenterLat(n) - CenterLat(o)), Abs(CenterLng(n) - CenterLng(o));
    if Exceeds(dLat, Height(o), CardPanThreshold) {
      if Height(o) != 0.0 {
        QuotientAbove(dLat, Height(o), CardPanThreshold, MarkerPanThreshold);
      }
    } else {
      assert Exceeds(dLng, Width(o), CardPanThreshold);
      if Width(o) != 0.0 {
        QuotientAbove(dLng, Width(o), CardPanThreshold, MarkerPanThreshold);
      }
    }
  }

  lemma QuotientAbove(num: real, den: real, high: real, low: real)
    requires den != 0.0 && low <= high && num / den > high
    ensures num / den > low
  {
  }

  /**
    A reference rectangle of zero height makes every change of height
    significant for markers (the JavaScript quotient is +Infinity).
   */
  lemma FlatReferenceAlwaysChanges(o: Viewport, n: Viewport)
    requires Height(o) == 0.0 && Height(n) != 0.0
    ensures MarkerViewportChanged(Some(o), n)
  {
  }

  /** The first viewport, with no reference yet, is always significant for both classifiers. */
  lemma FirstViewportSignificant(n: Viewport)
    ensures MarkerViewportChanged(None, n) && ShouldFetchNewData(None, n)
  {
  }
}
