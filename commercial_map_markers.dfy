/**
  `useCommercialMapMarkers`: once the maps library is loaded, every
  commercial project is fetched in one request (page 1, limit 1000), the
  records whose `Coordinates` hold a comma become markers, and the marker
  list is replaced by them.

  Unlike the residential hook there is no NaN check: the two numbers are
  `parseFloat` of the first two comma-separated parts, untrimmed, and a
  part that does not parse leaves NaN in the marker. A coordinate here is
  therefore an `Option<real>`, `None` standing for NaN.
 */
module CommercialMapMarkers {
  import opened Common
  import opened JsText
  import opened Projects

  /** The `throw new Error(...)` text for a response that is not ok. */
  const FetchFailedMessage: string := "Failed to fetch map markers"
  /** The `projectType` of a marker whose record has an empty `aboutProject`. */
  const DefaultProjectType: string := "Commercial Project"
  /** The one request the hook makes. */
  const MarkerRequest: PageRequest := RequestFor(1, 1000)

  /** A commercial marker; a `None` coordinate is NaN. */
  datatype CommercialMarker = CommercialMarker(
    lat: Option<real>, lng: Option<real>, title: string, id: string, coverImage: string, projectType: string)

  /** `project.Coordinates && project.Coordinates.includes(',')`. */
  predicate HasCoordinates(p: CommercialRecord)
  {
    Truthy(p.upperCoordinates) && Includes(p.upperCoordinates.value, ',')
  }

  /** The `map` callback, for a record that passed the filter. */
  function ToMarker(p: CommercialRecord, parse: string -> Option<real>): CommercialMarker
    requires HasCoordinates(p)
  {
    var parts := Split(p.upperCoordinates.value, ',');
    SplitIncludes(p.upperCoordinates.value, ',');
    CommercialMarker(parse(parts[0]), parse(parts[1]), p.name, p.rera, p.coverPhotoLink,
      if p.aboutProject != "" then p.aboutProject else DefaultProjectType)
  }

  /** The records that pass the filter, in their order. */
  function WithCoordinates(items: seq<CommercialRecord>): (r: seq<CommercialRecord>)
    ensures |r| <= |items|
    ensures forall i :: 0 <= i < |r| ==> HasCoordinates(r[i])
  {
    if items == [] then []
    else (if HasCoordinates(items[0]) then [items[0]] else []) + WithCoordinates(items[1..])
  }

  /** `projectsWithCoordinates.map(...)`: one marker per filtered record, in order. */
  function MarkersOf(items: seq<CommercialRecord>, parse: string -> Option<real>): (r: seq<CommercialMarker>)
    ensures var kept := WithCoordinates(items);
      |r| == |kept| && forall i :: 0 <= i < |kept| ==> r[i] == ToMarker(kept[i], parse)
  {
    var kept := WithCoordinates(items);
    seq(|kept|, i requires 0 <= i < |kept| => ToMarker(kept[i], parse))
  }

  /** The filter keeps exactly the records with a comma in a non-empty `Coordinates`. */
  lemma {:induction false} WithCoordinatesMembers(items: seq<CommercialRecord>)
    ensures forall p :: p in WithCoordinates(items) <==> p in items && HasCoordinates(p)
  {
    if items != [] {
      WithCoordinatesMembers(items[1..]);
      assert items == [items[0]] + items[1..];
    }
  }

  /** The filter keeps record order: filtering a concatenation filters each part. */
  lemma {:induction false} WithCoordinatesAppend(a: seq<CommercialRecord>, b: seq<CommercialRecord>)
    ensures WithCoordinates(a + b) == WithCoordinates(a) + WithCoordinates(b)
  {
    if a == [] {
      assert a + b == b;
    } else {
      assert (a + b)[0] == a[0] && (a + b)[1..] == a[1..] + b;
      WithCoordinatesAppend(a[1..], b);
    }
  }

  /**
    A marker's fields: the id is the rera number, the title the name, the
    project type `aboutProject` or the default, and the two numbers the
    parses of the first two comma-separated parts of `Coordinates`.
   */
  lemma ToMarkerSpec(p: CommercialRecord, parse: string -> Option<real>)
    requires HasCoordinates(p)
    ensures var m := ToMarker(p, parse); var parts := Split(p.upperCoordinates.value, ',');
      && |parts| >= 2
      && m.lat == parse(parts[0]) && m.lng == parse(parts[1])
      && m.id == p.rera && m.title == p.name && m.coverImage == p.coverPhotoLink
      && (p.aboutProject != "" ==> m.projectType == p.aboutProject)
      && (p.aboutProject == "" ==> m.projectType == DefaultProjectType)
  {
    SplitIncludes(p.upperCoordinates.value, ',');
  }

  /**
    Markers follow the records: the markers of a concatenation are the
    markers of each part, and a record without a usable `Coordinates`
    contributes none.
   */
  lemma MarkersOfAppend(a: seq<CommercialRecord>, b: seq<CommercialRecord>, parse: string -> Option<real>)
    ensures MarkersOf(a + b, parse) == MarkersOf(a, parse) + MarkersOf(b, parse)
  {
    WithCoordinatesAppend(a, b);
    var r := MarkersOf(a + b, parse);
    var s := MarkersOf(a, parse) + MarkersOf(b, parse);
    assert |r| == |s|;
    forall i | 0 <= i < |r|
      ensures r[i] == s[i]
    {
      if i >= |MarkersOf(a, parse)| {
        assert s[i] == MarkersOf(b, parse)[i - |MarkersOf(a, parse)|];
      }
    }
  }

  /** A record without a comma in `Coordinates` is dropped. */
  lemma NoCommaNoMarker(p: CommercialRecord, parse: string -> Option<real>)
    requires p.upperCoordinates.Some? && !Includes(p.upperCoordinates.value, ',')
    ensures MarkersOf([p], parse) == []
  {
    assert [p][1..] == [];
  }

  /**
    A record whose first part is not a number still becomes a marker, with
    a NaN latitude: nothing checks the parse.
   */
  lemma UnparsedCoordinateKept(p: CommercialRecord, first: string, rest: string, parse: string -> Option<real>)
    requires forall i :: 0 <= i < |first| ==> first[i] != ','
    requires p.upperCoordinates == Some(first + [','] + rest)
    requires parse(first).None?
    ensures |MarkersOf([p], parse)| == 1 && MarkersOf([p], parse)[0].lat.None?
  {
    var c := first + [','] + rest;
    assert c[|first|] == ',';
    assert [p][1..] == [];
    SplitPrefix(first, rest, ',');
  }

  /** Splitting `a + [c] + b` where `a` has no `c` yields `a` as the first part. */
  lemma {:induction false} SplitPrefix(a: string, b: string, c: char)
    requires forall i :: 0 <= i < |a| ==> a[i] != c
    ensures Split(a + [c] + b, c)[0] == a
  {
    if a == [] {
      assert a + [c] + b == [c] + b;
    } else {
      assert (a + [c] + b)[1..] == a[1..] + [c] + b;
      SplitPrefix(a[1..], b, c);
      assert a == [a[0]] + a[1..];
    }
  }

  /** The hook's state. */
  class MarkerHook {
    /** `parseFloat`, with `None` for NaN. */
    const parse: string -> Option<real>
    var markers: seq<CommercialMarker>
    var loading: bool
    var error: Option<string>
    /** `isGoogleMapsLoaded`, returned as `isReady`. */
    var isReady: bool
    /** Whether the one request is in flight. */
    var fetching: bool

    /** A request is only ever made once the maps library is loaded. */
    ghost predicate Valid()
      reads this
    {
      fetching ==> isReady
    }

    constructor(parse: string -> Option<real>)
      ensures Valid() && this.parse == parse
      ensures markers == [] && !loading && error.None? && !isReady && !fetching
    {
      this.parse := parse;
      markers := [];
      loading := false;
      error := None;
      isReady := false;
      fetching := false;
    }

    /**
      The poll finds `window.google.maps`. The first time, the flag rises
      and its effect starts the fetch; afterwards the flag is already set
      and nothing happens.
     */
    method MapsLoaded()
      requires Valid()
      modifies this
      ensures Valid() && isReady && markers == old(markers)
      ensures !old(isReady) ==> fetching && loading && error.None?
      ensures old(isReady) ==> fetching == old(fetching) && loading == old(loading) && error == old(error)
    {
      if !isReady {
        isReady := true;
        loading := true;
        error := None;
        fetching := true;
      }
    }

    /**
      The response arrives: a page replaces the markers wholesale with the
      markers of its records; a failure stores its message and keeps the
      markers. The flag falls either way.
     */
    method Complete(response: Response<CommercialRecord>)
      requires Valid() && fetching
      modifies this
      ensures Valid() && !fetching && !loading && isReady
      ensures response.Ok? ==> markers == MarkersOf(response.page.items, parse) && error == old(error)
      ensures !response.Ok? ==> markers == old(markers) && error == Some(ErrorText(response, FetchFailedMessage))
    {
      if response.Ok? {
        markers := MarkersOf(response.page.items, parse);
      } else {
        error := Some(ErrorText(response, FetchFailedMessage));
      }
      loading := false;
      fetching := false;
    }
  }
}
