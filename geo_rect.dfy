/**
  Axis-aligned latitude/longitude rectangles (the hooks' `Viewport`), the
  inclusive point and containment tests, and `getExtendedBounds`, which grows
  a rectangle by a fraction of its span on every side.
 */
module GeoRect {

  datatype Viewport = Viewport(minLat: real, maxLat: real, minLng: real, maxLng: real)

  datatype LatLng = LatLng(lat: real, lng: real)

  /** The fraction of a span added on each side by `getExtendedBounds`. */
  const ExtensionFactor: real := 0.2

  function Height(v: Viewport): real { v.maxLat - v.minLat }
  function Width(v: Viewport): real { v.maxLng - v.minLng }
  function CenterLat(v: Viewport): real { (v.maxLat + v.minLat) / 2.0 }
  function CenterLng(v: Viewport): real { (v.maxLng + v.minLng) / 2.0 }

  /** Both spans are non-negative. */
  predicate WellFormed(v: Viewport)
  {
    v.minLat <= v.maxLat && v.minLng <= v.maxLng
  }

  /** `isPointInViewport`: inclusive on all four edges. */
  predicate PointIn(lat: real, lng: real, v: Viewport)
  {
    lat >= v.minLat && lat <= v.maxLat && lng >= v.minLng && lng <= v.maxLng
  }

  /** `viewportContains(a, b)`: `a` fully covers `b`, edges included. */
  predicate Contains(a: Viewport, b: Viewport)
  {
    a.minLat <= b.minLat && a.maxLat >= b.maxLat && a.minLng <= b.minLng && a.maxLng >= b.maxLng
  }

  /** `getExtendedBounds(viewport, factor)`: each edge moves out by `factor` times its span. */
  function Extend(v: Viewport, factor: real): Viewport
  {
    var latExt := Height(v) * factor;
    var lngExt := Width(v) * factor;
    Viewport(v.minLat - latExt, v.maxLat + latExt, v.minLng - lngExt, v.maxLng + lngExt)
  }

  /** `getExtendedBounds` with its default factor 0.2. */
  function Extended(v: Viewport): Viewport
  {
    Extend(v, ExtensionFactor)
  }

  lemma ContainsReflexive(a: Viewport)
    ensures Contains(a, a)
  {
  }

  lemma ContainsTransitive(a: Viewport, b: Viewport, c: Viewport)
    requires Contains(a, b) && Contains(b, c)
    ensures Contains(a, c)
  {
  }

  /** Containment is antisymmetric: two rectangles that contain each other are equal. */
  lemma ContainsAntisymmetric(a: Viewport, b: Viewport)
    requires Contains(a, b) && Contains(b, a)
    ensures a == b
  {
  }

  /**
    For a well-formed `b`, `Contains(a, b)` holds exactly when every point of
    `b` is a point of `a`: the edge test agrees with the set-theoretic meaning.
   */
  lemma ContainsIffCovers(a: Viewport, b: Viewport)
    requires WellFormed(b)
    ensures Contains(a, b) <==> forall lat, lng :: PointIn(lat, lng, b) ==> PointIn(lat, lng, a)
  {
    if forall lat, lng :: PointIn(lat, lng, b) ==> PointIn(lat, lng, a) {
      assert PointIn(b.minLat, b.minLng, b);
      assert PointIn(b.maxLat, b.maxLng, b);
    }
  }

  /** The four corners of a rectangle lie in it exactly when it is well formed. */
  lemma CornersIn(v: Viewport)
    ensures WellFormed(v) <==> PointIn(v.minLat, v.minLng, v) && PointIn(v.maxLat, v.maxLng, v)
  {
  }

  /**
    For a positive factor, the extended rectangle contains the original
    exactly when the original's spans are non-negative.
   */
  lemma ExtendContains(v: Viewport, factor: real)
    requires factor > 0.0
    ensures Contains(Extend(v, factor), v) <==> WellFormed(v)
  {
    var e := Extend(v, factor);
    if Contains(e, v) {
      assert Height(v) * factor >= 0.0;
      assert Width(v) * factor >= 0.0;
      PositiveFactor(Height(v), factor);
      PositiveFactor(Width(v), factor);
    }
  }

  lemma PositiveFactor(x: real, f: real)
    requires f > 0.0 && x * f >= 0.0
    ensures x >= 0.0
  {
  }

  /**
    Extending by 0.2 moves each edge out by a fifth of the span: the new
    spans are 1.4 times the old ones and the centre does not move.
   */
  lemma ExtendedGeometry(v: Viewport)
    ensures Height(Extended(v)) == 1.4 * Height(v)
    ensures Width(Extended(v)) == 1.4 * Width(v)
    ensures CenterLat(Extended(v)) == CenterLat(v)
    ensures CenterLng(Extended(v)) == CenterLng(v)
    ensures Extended(v).minLat == v.minLat - Height(v) / 5.0
    ensures Extended(v).maxLng == v.maxLng + Width(v) / 5.0
  {
  }

  /** Extending twice gives spans 1.96 times the original around the same centre. */
  lemma ExtendedTwice(v: Viewport)
    ensures Height(Extended(Extended(v))) == 1.96 * Height(v)
    ensures Width(Extended(Extended(v))) == 1.96 * Width(v)
    ensures CenterLat(Extended(Extended(v))) == CenterLat(v)
    ensures CenterLng(Extended(Extended(v))) == CenterLng(v)
  {
    ExtendedGeometry(v);
    ExtendedGeometry(Extended(v));
  }

  /** A 6-by-6 rectangle at (2, 2) grows by 1.2 on every side. */
  lemma ExtendedExample()
    ensures Extended(Viewport(2.0, 8.0, 2.0, 8.0)) == Viewport(0.8, 9.2, 0.8, 9.2)
  {
  }
}
