/**
  `useResidentialMapMarkers`: the viewport-driven marker pipeline. A
  committed viewport is extended by 0.2 of its span; the fetch is skipped
  when the last committed (extended) rectangle covers the request, served
  from the spatial cache when a live entry covers the extended rectangle,
  and otherwise fetched page by page (limit 500) until the server says
  there is no more. The result is cached and merged into the live markers
  by id; the reference rectangle is recorded only on success.

  The whole fetch is one atomic step here (the awaits between pages are not
  interleaved with other events), so the `loading` flag, which is false
  between steps, is not modelled. `parseFloat` is the parameter `parse`
  (`None` for NaN) and the API is the page oracle `source`.
 */
module ResidentialMapMarkers {
  import opened Common
  import opened JsText
  import opened GeoRect
  import opened Significance
  import opened SpatialCache
  import opened MapMarkers
  import opened Projects

  const MarkerPageLimit: nat := 500
  const FetchFailedMessage: string := "Failed to fetch map markers"

  /** What the `map` callback makes of one record: nothing (`null`), a marker, or a thrown `TypeError`. */
  datatype Conversion = Skip | Keep(marker: MapMarker) | Throw(message: string)

  /**
    The record's position: the first non-empty of `coordinates` and
    `Coordinates`, split at ',', each of the first two parts trimmed and
    parsed; `None` when the string is missing or either number is NaN (a
    missing second part parses as NaN).
   */
  function ParsePosition(p: ResidentialRecord, parse: string -> Option<real>): Option<LatLng>
  {
    var c := Or(p.coordinates, p.upperCoordinates);
    if !Truthy(c) then None
    else
      var parts := Split(c.value, ',');
      var lat := parse(Trim(parts[0]));
      var lng := if |parts| >= 2 then parse(Trim(parts[1])) else None;
      if lat.None? || lng.None? then None else Some(LatLng(lat.value, lng.value))
  }

  /**
    A coordinate string without a comma never yields a position; a position,
    when there is one, is the parse of the first two parts; and a string
    whose first two parts both parse yields exactly that position.
   */
  lemma ParsePositionSpec(p: ResidentialRecord, parse: string -> Option<real>)
    ensures var c := Or(p.coordinates, p.upperCoordinates);
      Truthy(c) && !Includes(c.value, ',') ==> ParsePosition(p, parse).None?
    ensures var c := Or(p.coordinates, p.upperCoordinates);
      ParsePosition(p, parse).Some? ==>
        && Truthy(c)
        && |Split(c.value, ',')| >= 2
        && parse(Trim(Split(c.value, ',')[0])) == Some(ParsePosition(p, parse).value.lat)
        && parse(Trim(Split(c.value, ',')[1])) == Some(ParsePosition(p, parse).value.lng)
    ensures var c := Or(p.coordinates, p.upperCoordinates);
      Truthy(c) && |Split(c.value, ',')| >= 2 &&
      parse(Trim(Split(c.value, ',')[0])).Some? && parse(Trim(Split(c.value, ',')[1])).Some? ==>
        ParsePosition(p, parse) ==
          Some(LatLng(parse(Trim(Split(c.value, ',')[0])).value, parse(Trim(Split(c.value, ',')[1])).value))
  {
    var c := Or(p.coordinates, p.upperCoordinates);
    if Truthy(c) {
      SplitIncludes(c.value, ',');
    }
  }

  /** The `map` callback: `projectType[0]` is read only for records with a valid position. */
  function ToMarker(p: ResidentialRecord, parse: string -> Option<real>): Conversion
  {
    match ParsePosition(p, parse)
    case None => Skip
    case Some(pos) =>
      match FirstOr(p.projectType, "Residential Project")
      case Failure(e) => Throw(e)
      case Success(t) => Keep(MapMarker(pos, p.name, p.rera, p.coverPhotoLink, t))
  }

  /**
    A record becomes a marker exactly when it has a position and a
    `projectType` array; the marker's id is the rera number, its title the
    name, its type the first listed type or 'Residential Project'.
   */
  lemma ToMarkerSpec(p: ResidentialRecord, parse: string -> Option<real>)
    ensures ToMarker(p, parse).Keep? <==> ParsePosition(p, parse).Some? && p.projectType.Array?
    ensures ToMarker(p, parse).Throw? <==> ParsePosition(p, parse).Some? && p.projectType.Missing?
    ensures ToMarker(p, parse).Throw? ==> ToMarker(p, parse).message == TypeErrorOf(p.projectType.absence, "0")
    ensures ToMarker(p, parse).Keep? ==>
      var m := ToMarker(p, parse).marker;
      && m.position == ParsePosition(p, parse).value
      && m.id == p.rera && m.title == p.name && m.coverImage == p.coverPhotoLink
      && (p.projectType.items == [] || p.projectType.items[0] == "" ==> m.projectType == "Residential Project")
      && (p.projectType.items != [] && p.projectType.items[0] != "" ==> m.projectType == p.projectType.items[0])
  {
  }

  /** The markers of the records that convert, in page order (`filter(marker !== null)`). */
  function Kept(items: seq<ResidentialRecord>, parse: string -> Option<real>): seq<MapMarker>
  {
    if items == [] then []
    else
      var c := ToMarker(items[0], parse);
      (if c.Keep? then [c.marker] else []) + Kept(items[1..], parse)
  }

  /** The message of the first record whose conversion throws, if any. */
  function FirstThrow(items: seq<ResidentialRecord>, parse: string -> Option<real>): Option<string>
  {
    if items == [] then None
    else if ToMarker(items[0], parse).Throw? then Some(ToMarker(items[0], parse).message)
    else FirstThrow(items[1..], parse)
  }

  /**
    A page throws exactly when one of its records throws, and then with the
    message of the first such record: `map` stops at the first throw.
   */
  lemma {:induction false} FirstThrowSpec(items: seq<ResidentialRecord>, parse: string -> Option<real>)
    ensures FirstThrow(items, parse).None? <==> forall i :: 0 <= i < |items| ==> !ToMarker(items[i], parse).Throw?
    ensures FirstThrow(items, parse).Some? ==>
      exists i :: 0 <= i < |items| && ToMarker(items[i], parse) == Throw(FirstThrow(items, parse).value) &&
        forall j :: 0 <= j < i ==> !ToMarker(items[j], parse).Throw?
  {
    if items != [] && !ToMarker(items[0], parse).Throw? {
      FirstThrowSpec(items[1..], parse);
      assert forall i :: 1 <= i < |items| ==> items[i] == items[1..][i - 1];
      if FirstThrow(items[1..], parse).Some? {
        var i :| 0 <= i < |items[1..]| && ToMarker(items[1..][i], parse) == Throw(FirstThrow(items, parse).value) &&
          forall j :: 0 <= j < i ==> !ToMarker(items[1..][j], parse).Throw?;
        assert ToMarker(items[i + 1], parse) == Throw(FirstThrow(items, parse).value);
      }
    }
  }

  /** The first throw of a concatenation is the first part's, if it has one, else the second's. */
  lemma {:induction false} FirstThrowAppend(a: seq<ResidentialRecord>, b: seq<ResidentialRecord>, parse: string -> Option<real>)
    ensures FirstThrow(a + b, parse) == if FirstThrow(a, parse).Some? then FirstThrow(a, parse) else FirstThrow(b, parse)
  {
    if a == [] {
      assert a + b == b;
    } else {
      assert (a + b)[0] == a[0] && (a + b)[1..] == a[1..] + b;
      FirstThrowAppend(a[1..], b, parse);
    }
  }

  /**
    One page's markers: the message of the first record whose `map`
    callback throws, otherwise the markers of the records with a valid position.
   */
  function PageMarkers(items: seq<ResidentialRecord>, parse: string -> Option<real>): Result<seq<MapMarker>>
  {
    match FirstThrow(items, parse)
    case Some(e) => Failure(e)
    case None => Success(Kept(items, parse))
  }

  /**
    The kept markers are exactly the conversions of the records that
    convert, never more than there are records.
   */
  lemma {:induction false} KeptSpec(items: seq<ResidentialRecord>, parse: string -> Option<real>)
    ensures |Kept(items, parse)| <= |items|
    ensures forall m :: m in Kept(items, parse) <==>
      exists i :: 0 <= i < |items| && ToMarker(items[i], parse) == Keep(m)
  {
    if items != [] {
      KeptSpec(items[1..], parse);
      assert forall i :: 1 <= i < |items| ==> items[i] == items[1..][i - 1];
      forall m | exists i :: 0 <= i < |items| && ToMarker(items[i], parse) == Keep(m)
        ensures m in Kept(items, parse)
      {
        var i :| 0 <= i < |items| && ToMarker(items[i], parse) == Keep(m);
        if i > 0 {
          assert ToMarker(items[1..][i - 1], parse) == Keep(m);
        }
      }
    }
  }

  /** Both pages' markers, or the first page's error, or else the second's. */
  function Combine(a: Result<seq<MapMarker>>, b: Result<seq<MapMarker>>): Result<seq<MapMarker>>
  {
    if a.Failure? then a
    else if b.Failure? then b
    else Success(a.value + b.value)
  }

  lemma {:induction false} KeptAppend(a: seq<ResidentialRecord>, b: seq<ResidentialRecord>, parse: string -> Option<real>)
    ensures Kept(a + b, parse) == Kept(a, parse) + Kept(b, parse)
  {
    if a == [] {
      assert a + b == b;
      assert Kept(a, parse) == [];
    } else {
      var c := ToMarker(a[0], parse);
      var head := if c.Keep? then [c.marker] else [];
      assert (a + b)[0] == a[0] && (a + b)[1..] == a[1..] + b;
      KeptAppend(a[1..], b, parse);
      calc {
        Kept(a + b, parse);
        head + Kept(a[1..] + b, parse);
        head + (Kept(a[1..], parse) + Kept(b, parse));
        (head + Kept(a[1..], parse)) + Kept(b, parse);
        Kept(a, parse) + Kept(b, parse);
      }
    }
  }

  /** Converting a concatenation converts each part in order: no record is lost or reordered. */
  lemma PageMarkersAppend(a: seq<ResidentialRecord>, b: seq<ResidentialRecord>, parse: string -> Option<real>)
    ensures PageMarkers(a + b, parse) == Combine(PageMarkers(a, parse), PageMarkers(b, parse))
  {
    KeptAppend(a, b, parse);
    FirstThrowAppend(a, b, parse);
  }

  /**
    What the page loop does with one page's records: the markers, or the
    message of the error the conversion throws. The loop below is stated for any conversion;
    the hook runs it with `Converter(parse)`.
   */
  type PageConversion = seq<ResidentialRecord> -> Result<seq<MapMarker>>

  /** The hook's conversion of a page: `PageMarkers` with its `parseFloat`. */
  function Converter(parse: string -> Option<real>): PageConversion
  {
    items => PageMarkers(items, parse)
  }

  /** Page `p` ends the loop with an error: the response is not ok, or a record throws. */
  predicate PageFails(source: nat -> Response<ResidentialRecord>, convert: PageConversion, p: nat)
  {
    !source(p).Ok? || convert(source(p).page.items).Failure?
  }

  /** Page `p` ends the loop: it fails, or it says `has_more: false`. */
  predicate PageStops(source: nat -> Response<ResidentialRecord>, convert: PageConversion, p: nat)
  {
    PageFails(source, convert, p) || !source(p).page.hasMore
  }

  /** Pages 1 .. n-1 all go on to the next page. */
  predicate RunsThrough(source: nat -> Response<ResidentialRecord>, convert: PageConversion, n: nat)
  {
    forall p :: 1 <= p < n ==> !PageStops(source, convert, p)
  }

  /** The server eventually ends the pagination. */
  ghost predicate Terminates(source: nat -> Response<ResidentialRecord>, convert: PageConversion)
  {
    exists n :: n >= 1 && PageStops(source, convert, n)
  }

  /** The markers page `p` contributes: its converted records, or nothing when it fails. */
  function Delivered(source: nat -> Response<ResidentialRecord>, convert: PageConversion, p: nat): seq<MapMarker>
  {
    if PageFails(source, convert, p) then [] else convert(source(p).page.items).value
  }

  /** The markers of pages 1 .. n, concatenated in page order. */
  function Collected(source: nat -> Response<ResidentialRecord>, convert: PageConversion, n: nat): seq<MapMarker>
  {
    if n == 0 then [] else Collected(source, convert, n - 1) + Delivered(source, convert, n)
  }

  /** There is a first stopping page below any stopping page. */
  lemma {:induction false} FirstStopExists(source: nat -> Response<ResidentialRecord>, convert: PageConversion, bound: nat)
    requires bound >= 1 && PageStops(source, convert, bound)
    ensures exists n :: 1 <= n <= bound && RunsThrough(source, convert, n) && PageStops(source, convert, n)
  {
    if !RunsThrough(source, convert, bound) {
      var p :| 1 <= p < bound && PageStops(source, convert, p);
      FirstStopExists(source, convert, p);
    }
  }

  /** The number of pages requested is determined by the server: the first stopping page. */
  lemma RunLengthUnique(source: nat -> Response<ResidentialRecord>, convert: PageConversion, n: nat, m: nat)
    requires n >= 1 && RunsThrough(source, convert, n) && PageStops(source, convert, n)
    requires m >= 1 && RunsThrough(source, convert, m) && PageStops(source, convert, m)
    ensures n == m
  {
  }

  /** The last page requested. */
  ghost function StopPage(source: nat -> Response<ResidentialRecord>, convert: PageConversion): (n: nat)
    requires Terminates(source, convert)
    ensures n >= 1 && RunsThrough(source, convert, n) && PageStops(source, convert, n)
  {
    var bound :| bound >= 1 && PageStops(source, convert, bound);
    FirstStopExists(source, convert, bound);
    var n :| 1 <= n <= bound && RunsThrough(source, convert, n) && PageStops(source, convert, n);
    n
  }

  /** The result of the page loop. */
  datatype Outcome = Fetched(markers: seq<MapMarker>) | Failed(message: string)

  /** The message the `catch` stores when page `p` fails. */
  function PageError(source: nat -> Response<ResidentialRecord>, convert: PageConversion, p: nat): string
    requires PageFails(source, convert, p)
  {
    if !source(p).Ok? then ErrorText(source(p), FetchFailedMessage) else convert(source(p).page.items).error
  }

  /** The outcome of requesting pages 1, 2, ... until the first stopping page. */
  ghost function Pagination(source: nat -> Response<ResidentialRecord>, convert: PageConversion): Outcome
    requires Terminates(source, convert)
  {
    var n := StopPage(source, convert);
    if PageFails(source, convert, n) then Failed(PageError(source, convert, n))
    else Fetched(Collected(source, convert, n))
  }

  /** Only the last page can fail: a pagination that went on past a page had that page delivered. */
  lemma NoFailureBefore(source: nat -> Response<ResidentialRecord>, convert: PageConversion, n: nat)
    requires RunsThrough(source, convert, n) && !PageFails(source, convert, n)
    ensures forall p :: 1 <= p <= n ==> !PageFails(source, convert, p)
  {
    forall p | 1 <= p <= n
      ensures !PageFails(source, convert, p)
    {
      if p < n {
        assert !PageStops(source, convert, p);
      }
    }
  }

  /** The requests for pages 1 .. n. */
  function PageRequests(n: nat, limit: nat): (r: seq<PageRequest>)
    ensures |r| == n && forall i :: 0 <= i < n ==> r[i] == RequestFor(i + 1, limit)
  {
    seq(n, i requires 0 <= i < n => RequestFor(i + 1, limit))
  }

  /**
    The `while (hasMore)` loop: pages 1, 2, ... are requested one after the
    other with limit 500 and offset (page - 1) * 500, up to the first page
    that fails or has no more; the markers of the pages are concatenated
    in order.
   */
  method FetchAllPages(source: nat -> Response<ResidentialRecord>, convert: PageConversion)
    returns (requests: seq<PageRequest>, outcome: Outcome)
    requires Terminates(source, convert)
    ensures requests == PageRequests(StopPage(source, convert), MarkerPageLimit)
    ensures outcome == Pagination(source, convert)
  {
    ghost var bound := StopPage(source, convert);
    var allMarkers: seq<MapMarker> := [];
    var page: nat := 1;
    var hasMore := true;
    requests := [];
    while hasMore
      invariant Fetching(source, convert, bound, page, hasMore, requests, allMarkers)
      decreases bound + 1 - page
    {
      var failure;
      page, hasMore, requests, allMarkers, failure := NextPage(source, convert, bound, page, requests, allMarkers);
      if failure.Some? {
        outcome := Failed(failure.value);
        return;
      }
    }
    PaginationAt(source, convert, page - 1);
    outcome := Fetched(allMarkers);
  }

  /**
    The state of the page loop before requesting `page`: the earlier pages
    have been requested and their markers collected, and the loop goes on
    exactly while the last page neither failed nor said it has no more.
   */
  ghost predicate Fetching(source: nat -> Response<ResidentialRecord>, convert: PageConversion, bound: nat,
                           page: nat, hasMore: bool, requests: seq<PageRequest>, allMarkers: seq<MapMarker>)
  {
    && 1 <= page <= bound + 1
    && requests == PageRequests(page - 1, MarkerPageLimit)
    && allMarkers == Collected(source, convert, page - 1)
    && (hasMore ==> page <= bound && RunsThrough(source, convert, page))
    && (!hasMore ==> page >= 2 && RunsThrough(source, convert, page - 1) && PageStops(source, convert, page - 1)
                     && !PageFails(source, convert, page - 1))
  }

  /**
    One iteration of the page loop: the page is requested; a failure ends
    the pagination with its message, and a delivered page adds its markers
    and moves on.
   */
  method NextPage(source: nat -> Response<ResidentialRecord>, convert: PageConversion, ghost bound: nat,
                  page: nat, requests: seq<PageRequest>, allMarkers: seq<MapMarker>)
    returns (page': nat, hasMore: bool, requests': seq<PageRequest>, allMarkers': seq<MapMarker>, failure: Option<string>)
    requires Terminates(source, convert) && bound == StopPage(source, convert)
    requires Fetching(source, convert, bound, page, true, requests, allMarkers)
    ensures failure.Some? ==>
      requests' == PageRequests(StopPage(source, convert), MarkerPageLimit) && Pagination(source, convert) == Failed(failure.value)
    ensures failure.None? ==> page' == page + 1 && Fetching(source, convert, bound, page', hasMore, requests', allMarkers')
  {
    requests' := requests + [RequestFor(page, MarkerPageLimit)];
    var step := FetchPage(source, convert, page);
    if step.PageFailed? {
      FailedStep(source, convert, bound, page, requests, allMarkers);
      return page, false, requests', allMarkers, Some(step.message);
    }
    DeliveredStep(source, convert, bound, page, requests, allMarkers, step.markers, step.hasMore);
    page', hasMore, allMarkers', failure := page + 1, step.hasMore, allMarkers + step.markers, None;
  }

  /** A failing page ends the pagination with its error, after its own request. */
  lemma FailedStep(source: nat -> Response<ResidentialRecord>, convert: PageConversion, bound: nat,
                   page: nat, requests: seq<PageRequest>, allMarkers: seq<MapMarker>)
    requires Terminates(source, convert) && bound == StopPage(source, convert)
    requires Fetching(source, convert, bound, page, true, requests, allMarkers)
    requires PageFails(source, convert, page)
    ensures requests + [RequestFor(page, MarkerPageLimit)] == PageRequests(StopPage(source, convert), MarkerPageLimit)
    ensures Pagination(source, convert) == Failed(PageError(source, convert, page))
  {
    PageRequestsStep(page - 1, MarkerPageLimit);
    PaginationAt(source, convert, page);
  }

  /** A delivered page adds its markers and request, and the loop goes on exactly while it has more. */
  lemma DeliveredStep(source: nat -> Response<ResidentialRecord>, convert: PageConversion, bound: nat,
                      page: nat, requests: seq<PageRequest>, allMarkers: seq<MapMarker>,
                      markers: seq<MapMarker>, more: bool)
    requires PageStops(source, convert, bound)
    requires Fetching(source, convert, bound, page, true, requests, allMarkers)
    requires !PageFails(source, convert, page)
    requires markers == convert(source(page).page.items).value && more == source(page).page.hasMore
    ensures Fetching(source, convert, bound, page + 1, more, requests + [RequestFor(page, MarkerPageLimit)], allMarkers + markers)
  {
    PageRequestsStep(page - 1, MarkerPageLimit);
    Advance(source, convert, page);
    assert requests + [RequestFor(page, MarkerPageLimit)] == PageRequests(page, MarkerPageLimit);
    assert allMarkers + markers == Collected(source, convert, page);
    if more {
      ContinueStep(source, convert, page, bound);
    }
  }

  /** What one iteration makes of its page. */
  datatype PageStep = PageFailed(message: string) | PageDelivered(markers: seq<MapMarker>, hasMore: bool)

  /**
    One iteration's request: a response that is not ok, or a record whose
    conversion throws, fails with the `catch` message; otherwise the page's
    markers and `has_more` are delivered.
   */
  method FetchPage(source: nat -> Response<ResidentialRecord>, convert: PageConversion, page: nat)
    returns (step: PageStep)
    ensures step.PageFailed? <==> PageFails(source, convert, page)
    ensures step.PageFailed? ==> step.message == PageError(source, convert, page)
    ensures step.PageDelivered? ==>
      && step.markers == convert(source(page).page.items).value
      && step.hasMore == source(page).page.hasMore
  {
    var response := source(page);
    if !response.Ok? {
      return PageFailed(ErrorText(response, FetchFailedMessage));
    }
    var valid := convert(response.page.items);
    if valid.Failure? {
      return PageFailed(valid.error);
    }
    return PageDelivered(valid.value, response.page.hasMore);
  }

  /** The outcome when page `n` is the first stopping page. */
  lemma PaginationAt(source: nat -> Response<ResidentialRecord>, convert: PageConversion, n: nat)
    requires n >= 1 && RunsThrough(source, convert, n) && PageStops(source, convert, n)
    ensures Terminates(source, convert) && StopPage(source, convert) == n
    ensures PageFails(source, convert, n) ==> Pagination(source, convert) == Failed(PageError(source, convert, n))
    ensures !PageFails(source, convert, n) ==> Pagination(source, convert) == Fetched(Collected(source, convert, n))
  {
    RunLengthUnique(source, convert, n, StopPage(source, convert));
  }

  /** A delivered page extends the collected markers by its own. */
  lemma Advance(source: nat -> Response<ResidentialRecord>, convert: PageConversion, page: nat)
    requires page >= 1 && !PageFails(source, convert, page)
    ensures Collected(source, convert, page)
      == Collected(source, convert, page - 1) + convert(source(page).page.items).value
  {
  }

  /** A page that neither fails nor stops is not the last one, and the run goes on through it. */
  lemma ContinueStep(source: nat -> Response<ResidentialRecord>, convert: PageConversion, page: nat, bound: nat)
    requires 1 <= page <= bound && PageStops(source, convert, bound)
    requires RunsThrough(source, convert, page) && !PageStops(source, convert, page)
    ensures page < bound && RunsThrough(source, convert, page + 1)
  {
  }

  lemma PageRequestsStep(n: nat, limit: nat)
    ensures PageRequests(n + 1, limit) == PageRequests(n, limit) + [RequestFor(n + 1, limit)]
  {
  }

  /** Five full pages followed by a last page: six requests, offsets 0, 500, ..., 2500. */
  lemma SixPageExample(source: nat -> Response<ResidentialRecord>, convert: PageConversion)
    requires forall p :: 1 <= p <= 6 ==> source(p).Ok? && convert(source(p).page.items).Success?
    requires forall p :: 1 <= p <= 5 ==> source(p).page.hasMore
    requires !source(6).page.hasMore
    ensures Terminates(source, convert)
    ensures |PageRequests(StopPage(source, convert), MarkerPageLimit)| == 6
    ensures PageRequests(StopPage(source, convert), MarkerPageLimit)[5] == PageRequest(6, 500, 2500)
    ensures Pagination(source, convert).Fetched?
  {
    assert PageStops(source, convert, 6);
    RunLengthUnique(source, convert, 6, StopPage(source, convert));
  }

  /** The hook's state as far as fetches are concerned. */
  datatype MarkerState = MarkerState(
    markers: seq<MapMarker>,
    error: Option<string>,
    lastViewport: Option<Viewport>,
    cache: seq<Entry<seq<MapMarker>>>)

  /** The last committed rectangle covers the request: the fetch is skipped. */
  predicate Covered(s: MarkerState, bounds: Viewport)
  {
    s.lastViewport.Some? && Contains(s.lastViewport.value, bounds)
  }

  /** `getCachedMarkers(query)` after the purge: the first covering entry's markers that lie in the query. */
  function CachedMarkers(cache: seq<Entry<seq<MapMarker>>>, query: Viewport): Option<seq<MapMarker>>
  {
    match Find(cache, query)
    case None => None
    case Some(e) => Some(KeepInside(e.payload, query))
  }

  /**
    The lookup result is absent exactly when no live entry covers the query,
    and otherwise holds exactly the markers of the first covering entry that
    lie in the query, in the entry's order (`KeepInside`, see `KeepInsideAppend`).
   */
  lemma CachedMarkersSpec(cache: seq<Entry<seq<MapMarker>>>, query: Viewport, now: int)
    ensures var live := Purge(cache, now);
      CachedMarkers(live, query).None? <==> forall j :: 0 <= j < |live| ==> !Contains(live[j].viewport, query)
    ensures var live := Purge(cache, now);
      CachedMarkers(live, query).Some? ==>
        var i := FirstContaining(live, query).value;
        && Contains(live[i].viewport, query)
        && Live(live[i], now)
        && (forall j :: 0 <= j < i ==> !Contains(live[j].viewport, query))
        && (forall m :: m in CachedMarkers(live, query).value <==> m in live[i].payload && Inside(m, query))
        && CachedMarkers(live, query).value == KeepInside(live[i].payload, query)
  {
    var live := Purge(cache, now);
    match FirstContaining(live, query)
    case None =>
    case Some(i) => KeepInsideSpec(live[i].payload, query);
  }

  /** Neither skipped nor served from the cache: the pages will be requested. */
  predicate WillRequestPages(s: MarkerState, bounds: Viewport, now: int)
  {
    !Covered(s, bounds) && CachedMarkers(Purge(s.cache, now), Extended(bounds)).None?
  }

  /**
    `fetchMarkersForViewport(bounds)` as one step: the new state and the
    page requests sent. `now` is the time of the cache lookup and
    `finishedAt` the time the pages were all received.
   */
  ghost function FetchStep(s: MarkerState, bounds: Viewport, now: int, finishedAt: int,
                           source: nat -> Response<ResidentialRecord>, parse: string -> Option<real>): (MarkerState, seq<PageRequest>)
    requires WillRequestPages(s, bounds, now) ==> Terminates(source, Converter(parse))
  {
    var ext := Extended(bounds);
    var cleared := s.(error := None);
    if Covered(s, bounds) then (cleared, [])
    else
      var live := Purge(s.cache, now);
      match CachedMarkers(live, ext)
      case Some(hit) => (cleared.(cache := live, markers := MergeCached(s.markers, hit)), [])
      case None =>
        var requests := PageRequests(StopPage(source, Converter(parse)), MarkerPageLimit);
        match Pagination(source, Converter(parse))
        case Failed(message) => (cleared.(cache := live, error := Some(message)), requests)
        case Fetched(all) =>
          (MarkerState(MergeFetched(s.markers, ext, all), None, Some(ext), Insert(live, Entry(ext, all, finishedAt))), requests)
  }

  /**
    A request the last committed rectangle covers changes nothing but the
    cleared error: markers, cache and reference stay, and no page is requested.
   */
  lemma FetchSkipped(s: MarkerState, bounds: Viewport, now: int, finishedAt: int,
                     source: nat -> Response<ResidentialRecord>, parse: string -> Option<real>)
    requires Covered(s, bounds)
    ensures var (t, requests) := FetchStep(s, bounds, now, finishedAt, source, parse);
      t.markers == s.markers && t.cache == s.cache && t.lastViewport == s.lastViewport &&
      t.error.None? && requests == []
  {
  }

  /**
    A cache hit requests nothing and keeps the reference rectangle; the
    cached markers are merged in and nothing already shown is removed.
   */
  lemma FetchFromCache(s: MarkerState, bounds: Viewport, now: int, finishedAt: int,
                       source: nat -> Response<ResidentialRecord>, parse: string -> Option<real>)
    requires UniqueIds(s.markers)
    requires !Covered(s, bounds) && CachedMarkers(Purge(s.cache, now), Extended(bounds)).Some?
    ensures var (t, requests) := FetchStep(s, bounds, now, finishedAt, source, parse);
      var hit := CachedMarkers(Purge(s.cache, now), Extended(bounds)).value;
      && requests == []
      && t.lastViewport == s.lastViewport
      && t.cache == Purge(s.cache, now)
      && t.markers == MergeCached(s.markers, hit)
      && t.error.None?
      && UniqueIds(t.markers)
      && IdSet(t.markers) == IdSet(s.markers) + IdSet(hit)
      && (forall m :: m in hit ==> Inside(m, Extended(bounds)))
  {
    var hit := CachedMarkers(Purge(s.cache, now), Extended(bounds)).value;
    MergeCachedSpec(s.markers, hit);
    var live := Purge(s.cache, now);
    KeepInsideSpec(live[FirstContaining(live, Extended(bounds)).value].payload, Extended(bounds));
  }

  /**
    A failed page loop records the error and leaves the markers and the
    reference rectangle as they were; the cache only loses the entries the
    lookup purged.
   */
  lemma FetchFailure(s: MarkerState, bounds: Viewport, now: int, finishedAt: int,
                     source: nat -> Response<ResidentialRecord>, parse: string -> Option<real>)
    requires WillRequestPages(s, bounds, now) && Terminates(source, Converter(parse))
    requires Pagination(source, Converter(parse)).Failed?
    ensures var (t, requests) := FetchStep(s, bounds, now, finishedAt, source, parse);
      && t.markers == s.markers
      && t.lastViewport == s.lastViewport
      && t.cache == Purge(s.cache, now)
      && t.error == Some(Pagination(source, Converter(parse)).message)
      && |requests| == StopPage(source, Converter(parse))
  {
  }

  /**
    A successful page loop makes the extended rectangle the reference,
    caches the fetched markers under it as the newest entry, and merges
    them in by id.
   */
  lemma FetchSuccess(s: MarkerState, bounds: Viewport, now: int, finishedAt: int,
                     source: nat -> Response<ResidentialRecord>, parse: string -> Option<real>)
    requires UniqueIds(s.markers)
    requires WillRequestPages(s, bounds, now) && Terminates(source, Converter(parse))
    requires Pagination(source, Converter(parse)).Fetched?
    ensures var (t, requests) := FetchStep(s, bounds, now, finishedAt, source, parse);
      var all := Pagination(source, Converter(parse)).markers;
      && t.lastViewport == Some(Extended(bounds))
      && t.error.None?
      && |t.cache| <= CacheSize
      && t.cache[|t.cache| - 1] == Entry(Extended(bounds), all, finishedAt)
      && UniqueIds(t.markers)
      && (forall i :: 0 <= i < |all| && (forall k :: i < k < |all| ==> all[k].id != all[i].id) ==> all[i] in t.markers)
      && (forall m :: m in s.markers && !Inside(m, Extended(bounds)) && m.id !in IdSet(all) ==> m.id !in IdSet(t.markers))
  {
    var all := Pagination(source, Converter(parse)).markers;
    InsertKeepsNewest(Purge(s.cache, now), Entry(Extended(bounds), all, finishedAt));
    MergeFetchedSpec(s.markers, Extended(bounds), all);
  }

  /** Every fetch keeps marker ids unique and the cache within its bound. */
  lemma FetchKeepsInvariant(s: MarkerState, bounds: Viewport, now: int, finishedAt: int,
                            source: nat -> Response<ResidentialRecord>, parse: string -> Option<real>)
    requires UniqueIds(s.markers) && |s.cache| <= CacheSize
    requires WillRequestPages(s, bounds, now) ==> Terminates(source, Converter(parse))
    ensures UniqueIds(FetchStep(s, bounds, now, finishedAt, source, parse).0.markers)
    ensures |FetchStep(s, bounds, now, finishedAt, source, parse).0.cache| <= CacheSize
  {
    if !Covered(s, bounds) {
      var live := Purge(s.cache, now);
      match CachedMarkers(live, Extended(bounds))
      case Some(hit) => MergeCachedSpec(s.markers, hit);
      case None =>
        match Pagination(source, Converter(parse))
        case Failed(_) =>
        case Fetched(all) =>
          MergeFetchedSpec(s.markers, Extended(bounds), all);
          InsertKeepsNewest(live, Entry(Extended(bounds), all, finishedAt));
    }
  }

  /**
    After a successful fetch for a well-formed rectangle, asking again for
    that rectangle, or for any rectangle inside it, is skipped.
   */
  lemma SuccessThenInsideSkips(s: MarkerState, bounds: Viewport, inner: Viewport, now: int, finishedAt: int,
                               source: nat -> Response<ResidentialRecord>, parse: string -> Option<real>)
    requires WellFormed(bounds) && Contains(bounds, inner)
    requires WillRequestPages(s, bounds, now) && Terminates(source, Converter(parse))
    requires Pagination(source, Converter(parse)).Fetched?
    ensures Covered(FetchStep(s, bounds, now, finishedAt, source, parse).0, inner)
  {
    ExtendContains(bounds, ExtensionFactor);
    ContainsTransitive(Extended(bounds), bounds, inner);
  }

  /**
    The marker hook as the component sees it. `pending` is the viewport of
    the armed debounce timer, if any; `viewport` is the committed one.
   */
  class MarkerHook {
    var markers: seq<MapMarker>
    var error: Option<string>
    var viewport: Option<Viewport>
    var mapsLoaded: bool
    var pending: Option<Viewport>
    var lastViewport: Option<Viewport>
    var cache: seq<Entry<seq<MapMarker>>>

    ghost predicate Valid()
      reads this
    {
      UniqueIds(markers) && |cache| <= CacheSize
    }

    function State(): MarkerState
      reads this
    {
      MarkerState(markers, error, lastViewport, cache)
    }

    constructor()
      ensures Valid()
      ensures markers == [] && error.None? && viewport.None? && !mapsLoaded
      ensures pending.None? && lastViewport.None? && cache == []
    {
      markers := [];
      error := None;
      viewport := None;
      mapsLoaded := false;
      pending := None;
      lastViewport := None;
      cache := [];
    }

    /** `getCachedMarkers`: purges expired entries, then looks the query up. */
    method GetCachedMarkers(query: Viewport, now: int) returns (r: Option<seq<MapMarker>>)
      modifies this
      ensures cache == Purge(old(cache), now)
      ensures r == CachedMarkers(cache, query)
      ensures markers == old(markers) && error == old(error) && viewport == old(viewport)
      ensures mapsLoaded == old(mapsLoaded) && pending == old(pending) && lastViewport == old(lastViewport)
    {
      cache := Purge(cache, now);
      var found := Find(cache, query);
      if found.None? {
        return None;
      }
      var kept := DeleteOutside(found.value.payload, query);
      r := Some(kept);
    }

    /** `addToCache`: push, then keep the newest `CACHE_SIZE` entries. */
    method AddToCache(v: Viewport, ms: seq<MapMarker>, now: int)
      modifies this
      ensures cache == Insert(old(cache), Entry(v, ms, now))
      ensures |cache| <= CacheSize
      ensures markers == old(markers) && error == old(error) && viewport == old(viewport)
      ensures mapsLoaded == old(mapsLoaded) && pending == old(pending) && lastViewport == old(lastViewport)
    {
      cache := cache + [Entry(v, ms, now)];
      if |cache| > CacheSize {
        cache := cache[|cache| - CacheSize..];
      }
    }

    /** `fetchMarkersForViewport(bounds)`; returns the page requests it sent. */
    method FetchMarkersForViewport(bounds: Viewport, now: int, finishedAt: int,
                                   source: nat -> Response<ResidentialRecord>, parse: string -> Option<real>)
      returns (requests: seq<PageRequest>)
      requires Valid()
      requires WillRequestPages(State(), bounds, now) ==> Terminates(source, Converter(parse))
      modifies this
      ensures Valid()
      ensures (State(), requests) == FetchStep(old(State()), bounds, now, finishedAt, source, parse)
      ensures viewport == old(viewport) && mapsLoaded == old(mapsLoaded) && pending == old(pending)
    {
      ghost var s := State();
      FetchKeepsInvariant(s, bounds, now, finishedAt, source, parse);
      error := None;
      requests := [];
      var extendedBounds := Extended(bounds);
      if lastViewport.Some? && Contains(lastViewport.value, bounds) {
        return;
      }
      var cachedMarkers := GetCachedMarkers(extendedBounds, now);
      if cachedMarkers.Some? {
        var table := TableOf(markers);
        markers := SetEach(table, cachedMarkers.value);
        return;
      }
      var outcome;
      requests, outcome := FetchAllPages(source, Converter(parse));
      if outcome.Failed? {
        error := Some(outcome.message);
        return;
      }
      var allMarkers := outcome.markers;
      AddToCache(extendedBounds, allMarkers, finishedAt);
      var table := TableOf(markers);
      table := DeleteOutside(table, extendedBounds);
      markers := SetEach(table, allMarkers);
      lastViewport := Some(extendedBounds);
    }

    /**
      `debouncedSetViewport(next)`: the armed timer is always cancelled, and
      a new one is armed only for a significant change.
     */
    method DebouncedSetViewport(next: Viewport)
      modifies this
      ensures pending == (if MarkerViewportChanged(lastViewport, next) then Some(next) else None)
      ensures State() == old(State()) && viewport == old(viewport) && mapsLoaded == old(mapsLoaded)
    {
      pending := None;
      if MarkerViewportChanged(lastViewport, next) {
        pending := Some(next);
      }
    }

    /**
      The debounce timer fires: the pending viewport is committed and, once
      the maps script is loaded, fetched.
     */
    method TimerFires(now: int, finishedAt: int,
                      source: nat -> Response<ResidentialRecord>, parse: string -> Option<real>)
      returns (requests: seq<PageRequest>)
      requires Valid() && pending.Some?
      requires mapsLoaded && WillRequestPages(State(), pending.value, now) ==> Terminates(source, Converter(parse))
      modifies this
      ensures Valid()
      ensures viewport == old(pending) && pending.None? && mapsLoaded == old(mapsLoaded)
      ensures mapsLoaded ==>
        (State(), requests) == FetchStep(old(State()), old(pending.value), now, finishedAt, source, parse)
      ensures !mapsLoaded ==> State() == old(State()) && requests == []
    {
      viewport := pending;
      pending := None;
      requests := [];
      if mapsLoaded {
        requests := FetchMarkersForViewport(viewport.value, now, finishedAt, source, parse);
      }
    }

    /** The maps script has loaded: the committed viewport, if any, is fetched. */
    method MapsLoaded(now: int, finishedAt: int,
                      source: nat -> Response<ResidentialRecord>, parse: string -> Option<real>)
      returns (requests: seq<PageRequest>)
      requires Valid()
      requires !mapsLoaded && viewport.Some? && WillRequestPages(State(), viewport.value, now) ==> Terminates(source, Converter(parse))
      modifies this
      ensures Valid()
      ensures mapsLoaded && viewport == old(viewport) && pending == old(pending)
      ensures !old(mapsLoaded) && viewport.Some? ==>
        (State(), requests) == FetchStep(old(State()), viewport.value, now, finishedAt, source, parse)
      ensures old(mapsLoaded) || viewport.None? ==> State() == old(State()) && requests == []
    {
      requests := [];
      if !mapsLoaded {
        mapsLoaded := true;
        if viewport.Some? {
          requests := FetchMarkersForViewport(viewport.value, now, finishedAt, source, parse);
        }
      }
    }
  }

  /**
    An event that is not significant cancels a pending commit even when
    the pending one was significant: after the two events no commit is armed.
   */
  method InsignificantCancelsPending(hook: MarkerHook, first: Viewport, second: Viewport)
    requires MarkerViewportChanged(hook.lastViewport, first)
    requires !MarkerViewportChanged(hook.lastViewport, second)
    modifies hook
    ensures hook.pending.None? && hook.State() == old(hook.State())
  {
    hook.DebouncedSetViewport(first);
    assert hook.pending == Some(first);
    hook.DebouncedSetViewport(second);
  }
}
