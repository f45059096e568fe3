/**
  `useInfiniteResidentialProjectsViewport` and
  `useInfiniteCommercialProjectsViewport`: the card list beside the map.
  Both hooks are the same machine and differ only in the formatter
  (the residential one may throw on a missing `projectType`; the commercial
  one cannot), so one generic class models both.

  A viewport change that `shouldFetchNewData` calls significant resets the
  list to page 1; every render whose viewport or page changed runs
  `fetchProjects` with that render's viewport and page. The request is sent
  only when `shouldFetchNewData(lastViewport, viewport)` holds, and page 1's
  response records its viewport as the reference. Requests are in flight
  until their response is delivered, in any order.

  The commercial hook also keeps a viewport cache (`CardCache`) whose
  `getCachedProjects` and `addToCache` its fetch never calls.
 */
module ViewportCards {
  import opened Common
  import opened GeoRect
  import opened Significance
  import opened Projects
  import opened SpatialCache

  const CardFailedMessage: string := "Failed to fetch projects"

  /** One request sent to the viewport endpoint: the exact rectangle and the paging parameters. */
  datatype CardRequest = CardRequest(viewport: Viewport, request: PageRequest)

  /** What `fetchProjects` sends for the render's viewport and page, if anything. */
  function CardFetch(viewport: Option<Viewport>, lastViewport: Option<Viewport>, page: nat, limit: nat): Option<CardRequest>
  {
    if viewport.None? || !ShouldFetchNewData(lastViewport, viewport.value) then None
    else Some(CardRequest(viewport.value, RequestFor(page, limit)))
  }

  /** The request sent, as a list of zero or one requests. */
  function Sent(r: Option<CardRequest>): seq<CardRequest>
  {
    if r.Some? then [r.value] else []
  }

  /**
    Before any page-1 response the first viewport is always requested, with
    the exact rectangle (not extended) and offset `(page - 1) * limit`.
   */
  lemma FirstViewportRequested(v: Viewport, page: nat, limit: nat)
    ensures CardFetch(Some(v), None, page, limit).Some?
    ensures CardFetch(Some(v), None, page, limit).value.viewport == v
    ensures CardFetch(Some(v), None, page, limit).value.request.offset == (page - 1) * limit
  {
    FirstViewportSignificant(v);
  }

  /**
    Once page 1 of a viewport has been received, that viewport is the
    reference, and no page of it is ever requested again: `loadMore` raises
    the page but the fetch that follows is skipped.
   */
  lemma SameViewportNeverRequested(v: Viewport, page: nat, limit: nat)
    ensures CardFetch(Some(v), Some(v), page, limit).None?
  {
    SameViewportNotSignificant(v);
  }

  /**
    For a reference with positive spans, a request is sent exactly when the
    area changes by more than a tenth or the centre moves by more than a
    quarter of a span.
   */
  lemma CardFetchIff(o: Viewport, v: Viewport, page: nat, limit: nat)
    requires Height(o) > 0.0 && Width(o) > 0.0
    ensures CardFetch(Some(v), Some(o), page, limit).Some? <==>
      Abs(Area(o) - Area(v)) * 10.0 > Area(o) ||
      Abs(CenterLat(v) - CenterLat(o)) * 4.0 > Height(o) ||
      Abs(CenterLng(v) - CenterLng(o)) * 4.0 > Width(o)
  {
    ShouldFetchIff(o, v);
  }

  /** What one response turns into: the formatted page, or the message the `catch` stores. */
  datatype CardResult<P> = Loaded(formatted: seq<P>, total: int, hasMore: bool) | LoadFailed(message: string)

  /** `response.ok` check, `response.json()` and `projects.map(formatProject)`. */
  function ReadCardResponse<R, P>(response: Response<R>, format: R -> Result<P>): CardResult<P>
  {
    if !response.Ok? then LoadFailed(ErrorText(response, CardFailedMessage))
    else
      match FormatAll(response.page.items, format)
      case Failure(e) => LoadFailed(e)
      case Success(formatted) => Loaded(formatted, response.page.total, response.page.hasMore)
  }

  /**
    A response loads exactly when it is ok and every record formats; the
    loaded page holds every record formatted, in order, with the server's
    `total` and `has_more`. A response that is not ok stores the hook's own
    message, and an ok one with a throwing record the first throw's message.
   */
  lemma ReadCardResponseSpec<R, P>(response: Response<R>, format: R -> Result<P>)
    ensures ReadCardResponse(response, format).Loaded? <==>
      response.Ok? && forall i :: 0 <= i < |response.page.items| ==> format(response.page.items[i]).Success?
    ensures ReadCardResponse(response, format).Loaded? ==>
      var l := ReadCardResponse(response, format);
      && |l.formatted| == |response.page.items|
      && (forall i :: 0 <= i < |l.formatted| ==> format(response.page.items[i]) == Success(l.formatted[i]))
      && l.total == response.page.total && l.hasMore == response.page.hasMore
    ensures response.HttpError? ==> ReadCardResponse(response, format) == LoadFailed(CardFailedMessage)
    ensures response.Ok? && ReadCardResponse(response, format).LoadFailed? ==>
      var items := response.page.items;
      exists i :: 0 <= i < |items| && format(items[i]) == Failure(ReadCardResponse(response, format).message) &&
        forall j :: 0 <= j < i ==> format(items[j]).Success?
  {
  }

  /** The commercial formatter cannot throw. */
  function CommercialCardFormat(p: CommercialRecord): Result<CommercialProject>
  {
    Success(FormatCommercialCard(p))
  }

  /** A commercial response loads exactly when it is ok; the cards keep each record's `Coordinates`. */
  lemma CommercialCardsLoadWhenOk(response: Response<CommercialRecord>)
    ensures ReadCardResponse(response, CommercialCardFormat).Loaded? <==> response.Ok?
    ensures ReadCardResponse(response, CommercialCardFormat).Loaded? ==>
      forall i :: 0 <= i < |response.page.items| ==>
        ReadCardResponse(response, CommercialCardFormat).formatted[i].coordinates == response.page.items[i].upperCoordinates
  {
    ReadCardResponseSpec(response, CommercialCardFormat);
  }

  /** Page 1 replaces the list; any later page is appended to it. */
  function ApplyCardPage<P>(projects: seq<P>, page: nat, formatted: seq<P>): (r: seq<P>)
  {
    if page == 1 then formatted else projects + formatted
  }

  /**
    After a page-1 load the list is exactly that page; after a later page
    the old list is a prefix and the page follows it.
   */
  lemma ApplyCardPageSpec<P>(projects: seq<P>, page: nat, formatted: seq<P>)
    ensures page == 1 ==> ApplyCardPage(projects, page, formatted) == formatted
    ensures page != 1 ==>
      var r := ApplyCardPage(projects, page, formatted);
      |r| == |projects| + |formatted| && r[..|projects|] == projects && r[|projects|..] == formatted
  {
  }

  /** One viewport card hook: the residential hook with `FormatResidentialCard`, the commercial one with `CommercialCardFormat`. */
  class CardListHook<R, P> {
    const format: R -> Result<P>
    const limit: nat
    var viewport: Option<Viewport>
    var projects: seq<P>
    var loading: bool
    var error: Option<string>
    var hasMore: bool
    var page: nat
    var total: int
    var lastViewport: Option<Viewport>
    /** The requests whose responses have not been delivered yet, oldest first. */
    var inFlight: seq<CardRequest>

    ghost predicate Valid()
      reads this
    {
      page >= 1
    }

    constructor(format: R -> Result<P>, limit: nat)
      ensures Valid()
      ensures this.format == format && this.limit == limit
      ensures viewport.None? && projects == [] && !loading && error.None? && hasMore
      ensures page == 1 && total == 0 && lastViewport.None? && inFlight == []
    {
      this.format := format;
      this.limit := limit;
      viewport := None;
      projects := [];
      loading := false;
      error := None;
      hasMore := true;
      page := 1;
      total := 0;
      lastViewport := None;
      inFlight := [];
    }

    /**
      `fetchProjects` of the render whose page is `renderedPage`: with a
      viewport, the loading flag is raised and the error cleared before
      the significance test; a skipped fetch lowers the flag again.
     */
    method Fetch(renderedPage: nat)
      modifies this
      ensures var sent := CardFetch(old(viewport), old(lastViewport), renderedPage, limit);
        && inFlight == old(inFlight) + Sent(sent)
        && loading == (if old(viewport).None? then old(loading) else sent.Some?)
        && error == (if old(viewport).None? then old(error) else None)
      ensures viewport == old(viewport) && projects == old(projects) && hasMore == old(hasMore)
      ensures page == old(page) && total == old(total) && lastViewport == old(lastViewport)
    {
      if viewport.None? {
        return;
      }
      loading := true;
      error := None;
      if !ShouldFetchNewData(lastViewport, viewport.value) {
        loading := false;
        return;
      }
      inFlight := inFlight + [CardRequest(viewport.value, RequestFor(renderedPage, limit))];
    }

    /**
      The page hands the hook a new viewport: the reset effect runs, then the
      fetch effect with the page of the same render; when the reset moved
      the page back to 1, the next render fetches page 1 as well.
     */
    method SetViewport(v: Viewport)
      requires Valid()
      modifies this
      ensures Valid()
      ensures viewport == Some(v) && error.None?
      ensures var reset := ShouldFetchNewData(old(lastViewport), v);
        && projects == (if reset then [] else old(projects))
        && page == (if reset then 1 else old(page))
        && hasMore == (reset || old(hasMore))
        && loading == reset
        && inFlight == old(inFlight) +
             (if !reset then []
              else [CardRequest(v, RequestFor(old(page), limit))] +
                   (if old(page) != 1 then [CardRequest(v, RequestFor(1, limit))] else []))
      ensures total == old(total) && lastViewport == old(lastViewport)
    {
      var renderedPage := page;
      viewport := Some(v);
      if ShouldFetchNewData(lastViewport, v) {
        projects := [];
        page := 1;
        hasMore := true;
        error := None;
      }
      Fetch(renderedPage);
      if page != renderedPage {
        Fetch(page);
      }
    }

    /**
      The response to the `i`-th request in flight arrives: a load replaces
      (page 1, which also records the viewport) or extends the list and
      copies `total` and `has_more`; a failure stores its message. Either
      way the loading flag falls.
     */
    method Complete(i: nat, response: Response<R>)
      requires i < |inFlight|
      modifies this
      ensures inFlight == RemoveAt(old(inFlight), i) && !loading
      ensures var req := old(inFlight[i]);
        match ReadCardResponse(response, format)
        case LoadFailed(m) =>
          error == Some(m) && projects == old(projects) && lastViewport == old(lastViewport) &&
          hasMore == old(hasMore) && total == old(total)
        case Loaded(fs, t, more) =>
          && projects == ApplyCardPage(old(projects), req.request.page, fs)
          && lastViewport == (if req.request.page == 1 then Some(req.viewport) else old(lastViewport))
          && hasMore == more && total == t && error == old(error)
      ensures viewport == old(viewport) && page == old(page)
    {
      var req := inFlight[i];
      inFlight := RemoveAt(inFlight, i);
      var result := ReadCardResponse(response, format);
      match result {
        case LoadFailed(m) =>
          error := Some(m);
        case Loaded(fs, t, more) =>
          if req.request.page == 1 {
            projects := fs;
            lastViewport := Some(req.viewport);
          } else {
            projects := projects + fs;
          }
          hasMore := more;
          total := t;
      }
      loading := false;
    }

    /**
      `loadMore`: when idle and more is promised, the page goes up and the
      new render fetches it. When the committed viewport is already the
      reference, nothing is requested.
     */
    method LoadMore()
      requires Valid()
      modifies this
      ensures Valid()
      ensures page == (if !old(loading) && old(hasMore) then old(page) + 1 else old(page))
      ensures !old(loading) && old(hasMore) ==>
        inFlight == old(inFlight) + Sent(CardFetch(viewport, lastViewport, page, limit))
      ensures !old(loading) && old(hasMore) ==>
        var sent := CardFetch(viewport, lastViewport, page, limit);
        && loading == (if viewport.None? then old(loading) else sent.Some?)
        && error == (if viewport.None? then old(error) else None)
      ensures old(loading) || !old(hasMore) ==>
        inFlight == old(inFlight) && loading == old(loading) && error == old(error)
      ensures viewport.Some? && lastViewport == viewport ==> inFlight == old(inFlight)
      ensures viewport == old(viewport) && projects == old(projects) && lastViewport == old(lastViewport)
      ensures hasMore == old(hasMore) && total == old(total)
    {
      if !loading && hasMore {
        page := page + 1;
        Fetch(page);
        if viewport.Some? && lastViewport == viewport {
          SameViewportNeverRequested(viewport.value, page, limit);
        }
      }
    }

    /** `resetPage`: back to page 1, which a new render fetches when the page changed. */
    method ResetPage()
      requires Valid()
      modifies this
      ensures Valid() && page == 1
      ensures inFlight == old(inFlight) + (if old(page) != 1 then Sent(CardFetch(viewport, lastViewport, 1, limit)) else [])
      ensures old(page) != 1 && viewport.Some? ==>
        loading == CardFetch(viewport, lastViewport, 1, limit).Some? && error.None?
      ensures old(page) == 1 || viewport.None? ==> loading == old(loading) && error == old(error)
      ensures viewport == old(viewport) && projects == old(projects) && lastViewport == old(lastViewport)
      ensures hasMore == old(hasMore) && total == old(total)
    {
      if page != 1 {
        page := 1;
        Fetch(1);
      }
    }
  }

  /** The payload of one commercial cache entry: the projects with the `total` and `hasMore` they came with. */
  datatype CachedPage<P> = CachedPage(projects: seq<P>, total: int, hasMore: bool)

  /** `cacheRef` of the commercial card hook. */
  class CardCache<P> {
    var entries: seq<Entry<CachedPage<P>>>

    constructor()
      ensures entries == []
    {
      entries := [];
    }

    /**
      `getCachedProjects(query)`: drop the expired entries, then return the
      whole first entry whose rectangle contains the query, unfiltered.
     */
    method GetCachedProjects(query: Viewport, now: int) returns (r: Option<Entry<CachedPage<P>>>)
      modifies this
      ensures entries == Purge(old(entries), now)
      ensures r == Find(entries, query)
      ensures r.Some? ==> r.value in old(entries) && Live(r.value, now) && Contains(r.value.viewport, query)
      ensures r.None? ==> forall e :: e in old(entries) && Live(e, now) ==> !Contains(e.viewport, query)
    {
      entries := Purge(entries, now);
      r := Find(entries, query);
      PurgeMembers(old(entries), now);
      if r.None? {
        forall e | e in old(entries) && Live(e, now)
          ensures !Contains(e.viewport, query)
        {
          var j :| 0 <= j < |entries| && entries[j] == e;
        }
      }
    }

    /** `addToCache`: push the page, then keep the newest `CACHE_SIZE` entries. */
    method AddToCache(v: Viewport, projects: seq<P>, total: int, hasMore: bool, now: int)
      modifies this
      ensures entries == Insert(old(entries), Entry(v, CachedPage(projects, total, hasMore), now))
      ensures |entries| <= CacheSize && entries[|entries| - 1] == Entry(v, CachedPage(projects, total, hasMore), now)
    {
      entries := entries + [Entry(v, CachedPage(projects, total, hasMore), now)];
      if |entries| > CacheSize {
        entries := entries[|entries| - CacheSize..];
      }
    }
  }
}
