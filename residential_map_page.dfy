/**
  `handleViewportChange` of the residential map page: the card list gets
  the visible rectangle as it is, and the marker hook gets it extended by
  0.2. The marker hook extends what it receives once more before fetching
  and recording its reference rectangle, so markers are fetched for a
  rectangle 1.96 times the visible spans.
 */
module ResidentialMapPage {
  import opened Common
  import opened GeoRect
  import opened Significance
  import opened ResidentialMapMarkers

  /** The rectangle handed to the marker hook and the one handed to the card list. */
  function HandleViewportChange(v: Viewport): (Viewport, Viewport)
  {
    (Extended(v), v)
  }

  /**
    The rectangle the marker hook fetches for a visible rectangle has spans
    1.96 times the visible ones about the same centre, and covers both what
    the cards show and what the marker hook was given.
   */
  lemma MarkerFetchRectangle(v: Viewport)
    requires WellFormed(v)
    ensures var (markerView, cardView) := HandleViewportChange(v);
      && cardView == v
      && Height(Extended(markerView)) == 1.96 * Height(v)
      && Width(Extended(markerView)) == 1.96 * Width(v)
      && CenterLat(Extended(markerView)) == CenterLat(v)
      && CenterLng(Extended(markerView)) == CenterLng(v)
      && Contains(Extended(markerView), markerView)
      && Contains(Extended(markerView), cardView)
  {
    ExtendedTwice(v);
    ExtendContains(v, ExtensionFactor);
    assert WellFormed(Extended(v)) by {
      ExtendedGeometry(v);
    }
    ExtendContains(Extended(v), ExtensionFactor);
    ContainsTransitive(Extended(Extended(v)), Extended(v), v);
  }

  /**
    Reporting the same visible rectangle again after a successful marker
    fetch: the debounce still arms a commit, because the hook compares the
    1.4-times rectangle with its 1.96-times reference (the spans differ by
    far more than a tenth), but the committed fetch is then skipped because
    the reference covers it.
   */
  lemma RepeatedViewportSchedulesButSkips(v: Viewport, s: MarkerState)
    requires Height(v) > 0.0 && Width(v) > 0.0
    requires s.lastViewport == Some(Extended(Extended(v)))
    ensures MarkerViewportChanged(s.lastViewport, HandleViewportChange(v).0)
    ensures Covered(s, HandleViewportChange(v).0)
  {
    var e := Extended(v);
    var ee := Extended(e);
    ExtendedGeometry(v);
    ExtendedTwice(v);
    MarkerChangedIff(ee, e);
    assert Abs(Height(ee) - Height(e)) * 10.0 > Height(ee);
    ExtendContains(e, ExtensionFactor);
  }
}
