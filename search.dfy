/**
  The debounced search hooks `useCommercialSearch` and
  `useResidentialSearch`: one machine, differing only in the formatter
  applied to a delivered page (`FormatCommercialSearch`, which throws on a
  missing figure, or none).

  React's effects are modelled as `AfterRender`, run whenever `query` or
  `page` changed (both effects depend on `searchProjects`, which is
  rebuilt whenever one of those two changes). The debounce timer is the
  `pending` slot: at most one search is armed, and the effect's cleanup
  discards it before every re-run. A request stays in flight until its
  response is delivered, in any order.
 */
module Search {
  import opened Common
  import opened JsText
  import opened Projects
  import opened InfiniteLists

  /** The `throw new Error(...)` text of both hooks for a response that is not ok. */
  const SearchFailedMessage: string := "Failed to search projects"
  /** The `limit` both hooks put on the URL. */
  const SearchLimit: nat := 6

  /** One search URL: the query text and the page. */
  datatype SearchRequest = SearchRequest(query: string, page: nat)

  /** The commercial search's `nameOf`. */
  function CommercialName(p: CommercialProject): string
  {
    p.name
  }

  /**
    The search formatter keeps the names of the listing formatter, so a page
    of records the search formats is deduplicated against any list exactly
    as the listing hook's page of the same records is: the appended
    projects carry the same names, in the same order.
   */
  lemma SearchAndListingDedupAlike(prev: seq<CommercialProject>, items: seq<CommercialRecord>)
    requires FormatAll(items, FormatCommercialSearch).Success?
    ensures var s := AppendUnlisted(prev, FormatAll(items, FormatCommercialSearch).value, CommercialName);
      var l := AppendUnlisted(prev, FormatEach(items, FormatCommercialListing), CommercialName);
      |s| == |l| && forall i :: 0 <= i < |s| ==> s[i].name == l[i].name
  {
    var searched := FormatAll(items, FormatCommercialSearch).value;
    var listed := FormatEach(items, FormatCommercialListing);
    forall i | 0 <= i < |items|
      ensures searched[i].name == listed[i].name
    {
      CommercialSearchErrors(items[i]);
    }
    UnlistedByName(searched, listed, Names(prev, CommercialName), CommercialName);
  }

  class SearchHook<R, P> {
    const format: R -> Result<P>
    const nameOf: P -> string
    var query: string
    var results: seq<P>
    var loading: bool
    var error: Option<string>
    var hasMore: bool
    var page: nat
    /** The `lastQuery` ref: the query whose results are listed. */
    var lastQuery: string
    /** The armed debounce timer, holding the query and page its callback captured. */
    var pending: Option<SearchRequest>
    /** The requests whose responses have not been delivered yet, oldest first. */
    var inFlight: seq<SearchRequest>

    /** The page is at least 1, and an armed timer searches for the current, non-blank query. */
    ghost predicate Valid()
      reads this
    {
      && page >= 1
      && (pending.Some? ==> pending.value.query == query && !IsBlank(query))
    }

    /** The state of the first render, before its effects run (see `Mount`). */
    constructor(format: R -> Result<P>, nameOf: P -> string)
      ensures Valid() && this.format == format && this.nameOf == nameOf
      ensures query == "" && results == [] && !loading && error.None? && hasMore
      ensures page == 1 && lastQuery == "" && pending.None? && inFlight == []
    {
      this.format := format;
      this.nameOf := nameOf;
      query := "";
      results := [];
      loading := false;
      error := None;
      hasMore := true;
      page := 1;
      lastQuery := "";
      pending := None;
      inFlight := [];
    }

    /**
      `searchProjects` with the query and page it captured: a blank query
      empties the results and withdraws the promise of more without a
      request; otherwise the flag rises, the error clears and the search
      is requested.
     */
    method SearchProjects(q: string, p: nat)
      modifies this
      ensures IsBlank(q) ==>
        && results == [] && !hasMore
        && loading == old(loading) && error == old(error) && inFlight == old(inFlight)
      ensures !IsBlank(q) ==>
        && loading && error.None? && inFlight == old(inFlight) + [SearchRequest(q, p)]
        && results == old(results) && hasMore == old(hasMore)
      ensures query == old(query) && page == old(page) && lastQuery == old(lastQuery) && pending == old(pending)
    {
      if IsBlank(q) {
        results := [];
        hasMore := false;
      } else {
        loading := true;
        error := None;
        inFlight := inFlight + [SearchRequest(q, p)];
      }
    }

    /**
      The two effects after a render that changed `query` or `page`. The
      debounce effect drops the armed timer; for a blank query it empties
      the results, and for a query other than the listed one it arms a
      search for the current query and page. The load-more effect searches
      at once when the page is past the first and the query is the listed one.
     */
    method AfterRender()
      requires page >= 1
      modifies this
      ensures Valid()
      ensures pending == (if !IsBlank(query) && lastQuery != query then Some(SearchRequest(query, page)) else None)
      ensures results == (if IsBlank(query) then [] else old(results))
      ensures hasMore == (if IsBlank(query) then false else old(hasMore))
      ensures var loads := page > 1 && !IsBlank(query) && lastQuery == query;
        && inFlight == old(inFlight) + (if loads then [SearchRequest(query, page)] else [])
        && loading == (loads || old(loading))
        && error == (if loads then None else old(error))
      ensures query == old(query) && page == old(page) && lastQuery == old(lastQuery)
    {
      pending := None;
      if IsBlank(query) {
        results := [];
        hasMore := false;
      } else if lastQuery != query {
        pending := Some(SearchRequest(query, page));
      }
      if page > 1 && !IsBlank(query) && lastQuery == query {
        SearchProjects(query, page);
      }
    }

    /** The first render's effects. */
    method Mount()
      requires Valid()
      modifies this
      ensures Valid()
      ensures IsBlank(query) ==>
        && results == [] && !hasMore && pending.None? && inFlight == old(inFlight)
        && loading == old(loading) && error == old(error)
      ensures !IsBlank(query) ==>
        && pending == (if lastQuery != query then Some(SearchRequest(query, page)) else None)
        && results == old(results) && hasMore == old(hasMore)
        && var loads := page > 1 && lastQuery == query;
           && inFlight == old(inFlight) + (if loads then [SearchRequest(query, page)] else [])
           && loading == (loads || old(loading))
           && error == (if loads then None else old(error))
      ensures query == old(query) && page == old(page) && lastQuery == old(lastQuery)
    {
      AfterRender();
    }

    /**
      `setQuery(q)`. A new query cancels the armed search; a blank one
      empties the results at once, and one other than the listed query
      arms a search for it. Setting the same query again renders nothing.
     */
    method SetQuery(q: string)
      requires Valid()
      modifies this
      ensures Valid() && query == q && page == old(page) && lastQuery == old(lastQuery)
      ensures q == old(query) ==>
        && results == old(results) && hasMore == old(hasMore) && pending == old(pending)
        && inFlight == old(inFlight) && loading == old(loading) && error == old(error)
      ensures q != old(query) ==>
        && pending == (if !IsBlank(q) && lastQuery != q then Some(SearchRequest(q, page)) else None)
        && results == (if IsBlank(q) then [] else old(results))
        && hasMore == (if IsBlank(q) then false else old(hasMore))
        && var loads := page > 1 && !IsBlank(q) && lastQuery == q;
           && inFlight == old(inFlight) + (if loads then [SearchRequest(q, page)] else [])
           && loading == (loads || old(loading))
           && error == (if loads then None else old(error))
    {
      if q != query {
        query := q;
        AfterRender();
      }
    }

    /**
      The debounce timer fires: the page returns to 1 and the captured
      search is requested, for the page it captured. When the page was past
      the first, the page change renders again and, while the listed query
      is still another one, the debounce effect arms a second search, for page 1.
     */
    method TimerFires()
      requires Valid()
      modifies this
      ensures Valid()
      ensures old(pending).None? ==>
        && pending.None? && page == old(page) && inFlight == old(inFlight)
        && results == old(results) && hasMore == old(hasMore) && loading == old(loading) && error == old(error)
      ensures old(pending).Some? ==>
        && page == 1 && loading && error.None?
        && inFlight == old(inFlight) + [old(pending).value]
        && pending == (if old(page) != 1 && lastQuery != query then Some(SearchRequest(query, 1)) else None)
        && results == old(results) && hasMore == old(hasMore)
      ensures query == old(query) && lastQuery == old(lastQuery)
    {
      if pending.None? {
        return;
      }
      var armed := pending.value;
      pending := None;
      var pageChanged := page != 1;
      page := 1;
      SearchProjects(armed.query, armed.page);
      if pageChanged {
        AfterRender();
      }
    }

    /**
      The response to the `i`-th search in flight arrives. A page for a
      query other than the listed one replaces the results and becomes the
      listed query; a page for the listed query appends its projects with
      unlisted names. Either way `has_more` is copied. A response that is
      not ok, or a record whose formatting throws, stores the message and
      keeps the results. The flag falls in every case.
     */
    method Complete(i: nat, response: Response<R>)
      requires Valid() && i < |inFlight|
      modifies this
      ensures Valid() && inFlight == RemoveAt(old(inFlight), i) && !loading
      ensures var formatted := if response.Ok? then FormatAll(response.page.items, format)
                               else Failure(ErrorText(response, SearchFailedMessage));
        && (formatted.Success? ==>
              && lastQuery == old(inFlight[i]).query
              && results == (if old(lastQuery) != old(inFlight[i]).query then formatted.value
                             else AppendUnlisted(old(results), formatted.value, nameOf))
              && hasMore == response.page.hasMore && error == old(error))
        && (formatted.Failure? ==>
              && error == Some(formatted.error)
              && results == old(results) && hasMore == old(hasMore) && lastQuery == old(lastQuery))
      ensures query == old(query) && page == old(page) && pending == old(pending)
    {
      var request := inFlight[i];
      inFlight := RemoveAt(inFlight, i);
      var formatted := if response.Ok? then FormatAll(response.page.items, format)
                       else Failure(ErrorText(response, SearchFailedMessage));
      if formatted.Success? {
        if lastQuery != request.query {
          lastQuery := request.query;
          results := formatted.value;
        } else {
          results := AppendUnlisted(results, formatted.value, nameOf);
        }
        hasMore := response.page.hasMore;
      } else {
        error := Some(formatted.error);
      }
      loading := false;
    }

    /**
      `loadMore`: when idle, promised more and holding a non-blank query,
      the next page is selected, and its render's effects run; the
      load-more effect then searches it only if the query is the listed one.
     */
    method LoadMore()
      requires Valid()
      modifies this
      ensures Valid() && query == old(query) && lastQuery == old(lastQuery)
      ensures old(loading) || !old(hasMore) || IsBlank(query) ==>
        && page == old(page) && pending == old(pending) && inFlight == old(inFlight)
        && results == old(results) && hasMore == old(hasMore) && loading == old(loading) && error == old(error)
      ensures !old(loading) && old(hasMore) && !IsBlank(query) ==>
        && page == old(page) + 1 && results == old(results) && hasMore
        && (lastQuery == query ==>
              pending.None? && loading && error.None? && inFlight == old(inFlight) + [SearchRequest(query, page)])
        && (lastQuery != query ==>
              pending == Some(SearchRequest(query, page)) && !loading && error == old(error) &&
              inFlight == old(inFlight))
    {
      if !loading && hasMore && !IsBlank(query) {
        page := page + 1;
        AfterRender();
      }
    }
  }
}
