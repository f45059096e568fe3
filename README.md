# Projects map and listings — a Dafny model

This project models the data core of the property-listing site: a Next.js front end over a remote projects API. The parts modelled are:

- **Residential map markers.** The hook that keeps the pins of the map in step with the visible rectangle. It decides whether a rectangle changed enough to matter and serves it from a small, expiring spatial cache when it can. Otherwise it walks the paginated marker endpoint, turns every record with a usable `Coordinates` string into a marker, and merges the new markers by id with the ones already shown.
- **Viewport card lists.** The residential and commercial card-list hooks, with their own significance test, their page-1-replaces / later-pages-append rule, `loadMore` and `resetPage`.
- **Infinite lists.** The three infinite listing hooks. The general and commercial ones append only the projects whose name is not already listed; the residential one appends every project of a later page.
- **Search.** The two debounced search hooks.
- **Commercial markers.** The one-shot commercial marker hook.
- **Map reconciliation.** The marker layer of the map component, which removes, moves and adds pins so that the map shows exactly one pin per id.
- **Project cache.** The memoised "fetch every page" server helper.
- **Sitemap.** The sitemap generator, with `encodeURIComponent` and the slug rule.

The modelling choices:

- **Numbers.** Coordinates are `real`. JavaScript's division by a zero span is followed exactly: a positive amount over zero exceeds every threshold, and zero over zero (NaN) exceeds none.
- **Parsing.** `parseFloat` is a parameter `parse: string -> Option<real>`, where `None` stands for NaN.
- **The remote API.** It is a parameter `source: nat -> Response<T>` that gives, for each page, either a page of records, an HTTP error or a rejected request.
- **Page conversion.** The residential marker page loop is stated for any page conversion (`PageConversion`). The hook runs it with `Converter(parse)`, the `map`/`filter` conversion of `PageMarkers`.
- **Hooks.** Each React hook is a `class` whose fields are its state variables. Each effect is a method.
- **Requests in flight.** A list hook sends a request with one method, which appends it to `inFlight`. A response is applied with `Complete(i, response)`, in any order, so the `loading` guards are meaningful.
- **Timers.** A timer is a `pending` slot, and its expiry is a `TimerFires` method.
- **Proofs against specifications.** Loops that build results (the page loops, the marker table) are methods proved against specification functions, and the properties are proved as lemmas about those functions.

Behaviour of the code that the model states as written:

- **Extension factor.** `getExtendedBounds` extends each side by 0.2 of the span, so `{2,8,2,8}` becomes `{0.8,9.2,0.8,9.2}`, the 1.4-times box (`GeoRect.ExtendedExample`).
- **Cache on failure.** The marker hook purges expired cache entries while looking the rectangle up, before it fetches, so after a failed fetch the cache is the purged cache (`ResidentialMapMarkers.FetchFailure`).
- **Later card pages.** The card hooks never fetch page 2 or later for an unchanged viewport. Once page 1 arrives, the viewport is its own reference, and the significance test finds no change (`ViewportCards.SameViewportNeverRequested`).
- **`ok` in the project cache.** `getAllProjects` never reads `response.ok`. A page that is not ok is modelled as a failed request, which rejects and leaves the memo empty.
- **No NaN check for commercial markers.** Commercial markers are built without a NaN check, so their coordinates are `Option<real>` (`CommercialMapMarkers.UnparsedCoordinateKept`).
- **Thrown errors.** A formatter that reads a property of a missing field (`projectType[0]`, `configuration.value`, `totalUnits.toString()`) throws a `TypeError`. Its message names `undefined` or `null` and the property (`Projects.TypeErrorOf`). The hook stores the message of the first record that throws, and keeps its list (`Projects.FormatAll`).

## Model

| member | source | states |
|---|---|---|
| GeoRect.ContainsReflexive | src/hooks/useResidentialMapMarkers.ts:77-84 | every rectangle contains itself |
| GeoRect.ContainsTransitive | src/hooks/useResidentialMapMarkers.ts:77-84 | containment is transitive |
| GeoRect.ContainsAntisymmetric | src/hooks/useResidentialMapMarkers.ts:77-84 | two rectangles that contain each other are equal |
| GeoRect.ContainsIffCovers | src/hooks/useResidentialMapMarkers.ts:67-84 | for a well-formed inner rectangle, `viewportContains` holds exactly when every point inside it (by `isPointInViewport`) is inside the outer one |
| GeoRect.CornersIn | src/hooks/useResidentialMapMarkers.ts:67-74 | a rectangle is well formed exactly when both its corners pass the point-in test |
| GeoRect.ExtendContains | src/hooks/useResidentialMapMarkers.ts:31-41 | an extended rectangle contains the original exactly when the original is well formed |
| GeoRect.ExtendedGeometry | src/hooks/useResidentialMapMarkers.ts:31-41 | extension multiplies both spans by 1.4 about the same centre, moving each edge out by a fifth of its span |
| GeoRect.ExtendedTwice | src/app/map/residential/page.tsx:28-37 | extending twice multiplies both spans by 1.96 about the same centre |
| GeoRect.ExtendedExample | src/hooks/useResidentialMapMarkers.ts:31-41 | `{2,8,2,8}` extends to `{0.8,9.2,0.8,9.2}` |
| Significance.SameViewportNotSignificant | src/hooks/useResidentialMapMarkers.ts:87-117 | neither significance test fires for an unchanged rectangle |
| Significance.MarkerChangedIff | src/hooks/useResidentialMapMarkers.ts:87-117 | for a reference with positive spans, the marker test fires exactly when a span changes by more than 10% or the centre moves by more than 5% of a span |
| Significance.ShouldFetchIff | src/hooks/useInfiniteCommercialProjectsViewport.ts:123-157 | for a reference with positive spans, the card test fires exactly when the area changes by more than 10% or the centre moves by more than 25% of a span |
| Significance.ZoomAboutCentre | src/hooks/useInfiniteCommercialProjectsViewport.ts:123-157 | a zoom about the same centre by area factor k triggers a card fetch exactly when \|1 - k\| > 0.1 |
| Significance.ShrinkExamples | src/hooks/useInfiniteCommercialProjectsViewport.ts:123-157 | shrinking the area to 85% refetches and shrinking it to 95% does not |
| Significance.MarkerPanNorth | src/hooks/useResidentialMapMarkers.ts:87-117 | for a rectangle with positive spans, a north-south pan is significant exactly when it exceeds a twentieth of the height |
| Significance.CardPanImpliesMarkerPan | src/hooks/useInfiniteResidentialProjectsViewport.ts:81-115 | for a pure pan, a card refetch implies a marker refetch (5% is below 25%) |
| Significance.FlatReferenceAlwaysChanges | src/hooks/useResidentialMapMarkers.ts:87-117 | against a reference of zero height, any rectangle with non-zero height is a significant change (division by zero gives Infinity) |
| Significance.FirstViewportSignificant | src/hooks/useResidentialMapMarkers.ts:88 | with no reference yet, both tests fire |
| SpatialCache.Purge | src/hooks/useResidentialMapMarkers.ts:123-125 | the purge keeps only entries younger than five minutes and never grows the cache |
| SpatialCache.PurgeAppend | src/hooks/useResidentialMapMarkers.ts:123-125 | the purge distributes over concatenation, so order is kept |
| SpatialCache.PurgeKeepsLive | src/hooks/useResidentialMapMarkers.ts:123-125 | entry i survives exactly when it is live |
| SpatialCache.PurgeMembers | src/hooks/useResidentialMapMarkers.ts:123-125 | the survivors are exactly the live entries |
| SpatialCache.PurgeIdempotent | src/hooks/useResidentialMapMarkers.ts:123-125 | purging twice at the same instant is purging once |
| SpatialCache.AllLivePurge | src/hooks/useResidentialMapMarkers.ts:123-125 | a cache of live entries is left as it is |
| SpatialCache.FirstContaining | src/hooks/useResidentialMapMarkers.ts:127-129 | the lookup returns the first entry whose rectangle contains the query, and none exactly when no entry does |
| SpatialCache.InsertKeepsNewest | src/hooks/useResidentialMapMarkers.ts:139-151 | an insert appends the new entry last, keeps at most ten, and drops only the oldest |
| SpatialCache.InsertAllKeepsLast | src/hooks/useResidentialMapMarkers.ts:139-151 | after any sequence of inserts into an empty cache, it holds the last min(n, 10) entries in order |
| SpatialCache.ElevenInsertsDropFirst | src/hooks/useResidentialMapMarkers.ts:144-148 | eleven inserts leave exactly the last ten |
| SpatialCache.FoundIsLive | src/hooks/useResidentialMapMarkers.ts:120-136 | an entry found after the purge is live and contains the query |
| MapMarkers.IndexOfId | src/hooks/useResidentialMapMarkers.ts:174-178 | the index found is the first marker with that id, and none exactly when the id is absent |
| MapMarkers.SetByIdSpec | src/hooks/useResidentialMapMarkers.ts:174-178 | `Map.set` on the id table replaces the marker at its id's position, or appends it when the id is new, keeping ids unique |
| MapMarkers.SetAllIds | src/hooks/useResidentialMapMarkers.ts:174-178 | setting a batch keeps ids unique and yields exactly the union of both id sets |
| MapMarkers.SetAllKeepsPositions | src/hooks/useResidentialMapMarkers.ts:174-178 | existing ids keep their position, and markers whose id is not in the batch are unchanged |
| MapMarkers.SetAllLatestWins | src/hooks/useResidentialMapMarkers.ts:174-178 | the last marker of the batch with a given id is the one kept |
| MapMarkers.SetAllAppendOrder | src/hooks/useResidentialMapMarkers.ts:174-178 | ids new to the table are appended in the order of their first appearance in the batch (Map insertion order) |
| MapMarkers.SetAllFromUnique | src/hooks/useResidentialMapMarkers.ts:252-265 | building a table from markers with unique ids gives those markers back in order |
| MapMarkers.KeepInsideSnoc | src/hooks/useResidentialMapMarkers.ts:133-135 | a marker appended to the list is kept exactly when it is inside, and a single marker stays exactly when it is inside |
| MapMarkers.KeepInsideAppend | src/hooks/useResidentialMapMarkers.ts:133-135 | keeping the markers inside a rectangle keeps their order: it distributes over concatenation |
| MapMarkers.KeepInsideSpec | src/hooks/useResidentialMapMarkers.ts:258-262 | deleting the markers outside the extended rectangle keeps exactly the markers inside it, keeps ids unique and never adds ids |
| MapMarkers.MergeCachedSpec | src/hooks/useResidentialMapMarkers.ts:170-181 | the cache-hit merge keeps ids unique, has exactly the union of ids, keeps markers not overwritten, takes the latest cached marker per id, and appends new ids in order |
| MapMarkers.MergeFetchedSpec | src/hooks/useResidentialMapMarkers.ts:252-265 | the fetch merge keeps ids unique and holds every fetched marker (latest per id). It keeps an old marker inside the rectangle that was not refetched and drops an old marker outside it |
| MapMarkers.TableOf | src/hooks/useResidentialMapMarkers.ts:253-256 | the loop building the table computes the id table of the previous markers |
| MapMarkers.SetEach | src/hooks/useResidentialMapMarkers.ts:174-178 | the `forEach(set)` loop computes the batch update of the table |
| MapMarkers.DeleteOutside | src/hooks/useResidentialMapMarkers.ts:258-262 | the delete loop computes the markers inside the rectangle, in order |
| JsText.TrimStartSpec | src/hooks/useResidentialMapMarkers.ts:221 | the start trim removes exactly the leading white space |
| JsText.TrimEndSpec | src/hooks/useResidentialMapMarkers.ts:221 | the end trim removes exactly the trailing white space |
| JsText.BlankIffTrimEmpty | src/hooks/useCommercialSearch.ts:16 | a string is all white space exactly when `trim()` leaves nothing |
| JsText.JoinSplit | src/hooks/useResidentialMapMarkers.ts:221 | joining the parts of `split(',')` with the separator gives back the string |
| JsText.SplitIncludes | src/hooks/useResidentialMapMarkers.ts:221 | `split` yields two or more parts exactly when the string contains the separator |
| JsText.SplitPartsClean | src/hooks/useResidentialMapMarkers.ts:221 | no part of a split contains the separator |
| JsText.ToLower | src/app/sitemap.ts:13 | `toLowerCase` keeps the length and lowers each character |
| JsText.Or | src/hooks/useResidentialMapMarkers.ts:215 | `a \|\| b` is truthy exactly when either side is, and is `a` when `a` is truthy |
| Projects.TypeErrorInjective | src/hooks/useInfiniteResidentialProjectsViewport.ts:47-48 | the `TypeError` message determines whether the missing value was `undefined` or `null` and which property was read |
| Projects.FirstOr | src/hooks/useInfiniteResidentialProjectsViewport.ts:47 | `list[0] \|\| fallback` throws exactly on a missing list, with the `TypeError` for reading '0', and gives the first element when it is a non-empty string |
| Projects.ResidentialErrors | src/hooks/useInfiniteResidentialProjectsViewport.ts:44-71 | a residential record formats exactly when it has a `projectType` array and a `configuration`; a missing `projectType` throws the error for '0', and otherwise a missing `configuration` throws the error for 'value' |
| Projects.ResidentialDefaults | src/hooks/useInfiniteResidentialProjectsViewport.ts:44-71 | a record that formats gets its unit sizes from the configuration and the stated defaults for locality, property type, bhk, project type and coordinates |
| Projects.ResidentialFormattersAgree | src/hooks/useInfiniteResidentialProjects.ts:12-39 | the listing formatter differs from the card formatter only in taking the lower-case `coordinates` field |
| Projects.FormatAll | src/hooks/useInfiniteResidentialProjectsViewport.ts:152 | `map(formatProject)` fails exactly when some record throws, with the message of the first record that throws, and otherwise formats every record in order |
| Projects.CommercialSearchErrors | src/hooks/useCommercialSearch.ts:36-62 | the search formatter throws exactly when one of the six figures is missing, with the `toString` error of the first missing one, and otherwise keeps name, RERA and figures and takes the address as description |
| ResidentialMapMarkers.ParsePositionSpec | src/hooks/useResidentialMapMarkers.ts:215-226 | a coordinate string without a comma gives no position, any position is the parse of the first two trimmed comma parts, and a truthy string whose first two trimmed parts both parse yields exactly that position |
| ResidentialMapMarkers.ToMarkerSpec | src/hooks/useResidentialMapMarkers.ts:213-235 | a record becomes a marker exactly when it has a position and a `ProjectType` list, throws exactly when it has a position and no list (with the `TypeError` for reading '0'), and the marker carries the record's fields and defaults |
| ResidentialMapMarkers.KeptSpec | src/hooks/useResidentialMapMarkers.ts:213-235 | the page's markers are exactly the conversions of its records that kept a marker |
| ResidentialMapMarkers.KeptAppend | src/hooks/useResidentialMapMarkers.ts:213-235 | converting a concatenation converts each part in order |
| ResidentialMapMarkers.FirstThrowSpec | src/hooks/useResidentialMapMarkers.ts:213-235 | a page throws exactly when one of its records throws, with the message of the first such record |
| ResidentialMapMarkers.FirstThrowAppend | src/hooks/useResidentialMapMarkers.ts:213-235 | the first throw of a concatenation is the first part's, if any, else the second part's |
| ResidentialMapMarkers.PageMarkersAppend | src/hooks/useResidentialMapMarkers.ts:213-237 | converting a concatenation fails with the first part's error, else the second part's, and otherwise yields the parts' markers in order |
| ResidentialMapMarkers.StopPage | src/hooks/useResidentialMapMarkers.ts:185-244 | the loop's last page is the first page that fails or has no more |
| ResidentialMapMarkers.NoFailureBefore | src/hooks/useResidentialMapMarkers.ts:185-244 | every page before a delivered stopping page was delivered |
| ResidentialMapMarkers.PageRequests | src/hooks/useResidentialMapMarkers.ts:191-199 | the i-th request asks for page i+1 with offset i times the limit |
| ResidentialMapMarkers.FetchAllPages | src/hooks/useResidentialMapMarkers.ts:185-244 | the page loop sends requests for pages 1 up to the stopping page with limit 500, and yields every page's markers in order, or the first failure's message |
| ResidentialMapMarkers.NextPage | src/hooks/useResidentialMapMarkers.ts:191-243 | one loop round either ends with the failure the whole loop reports, or moves one page on with the loop invariant kept |
| ResidentialMapMarkers.FailedStep | src/hooks/useResidentialMapMarkers.ts:206-208 | a failing page is the stopping page, and the loop's outcome is its error |
| ResidentialMapMarkers.DeliveredStep | src/hooks/useResidentialMapMarkers.ts:237-243 | a delivered page appends its markers and its request and keeps the loop invariant |
| ResidentialMapMarkers.FetchPage | src/hooks/useResidentialMapMarkers.ts:201-237 | one request fails exactly when the response is not ok or a record throws, and otherwise yields the page's markers and `has_more` |
| ResidentialMapMarkers.PaginationAt | src/hooks/useResidentialMapMarkers.ts:185-244 | a run that stops at page n ends with n's failure or with every page's markers through n |
| ResidentialMapMarkers.SixPageExample | src/hooks/useResidentialMapMarkers.ts:185-244 | six delivered pages, the last without more, make six requests, the last with offset 2500 |
| ResidentialMapMarkers.CachedMarkersSpec | src/hooks/useResidentialMapMarkers.ts:120-136 | a cache hit returns the markers of the first live entry containing the extended rectangle, filtered to that rectangle in the entry's order |
| ResidentialMapMarkers.FetchSkipped | src/hooks/useResidentialMapMarkers.ts:156-167 | a rectangle inside the last fetched rectangle keeps the markers, the cache and the reference, clears the error and sends nothing |
| ResidentialMapMarkers.FetchFromCache | src/hooks/useResidentialMapMarkers.ts:170-181 | a cache hit sets the markers to the previous ones merged with the cached ones, clears the error, sends nothing, leaves the reference rectangle alone and leaves the cache purged |
| ResidentialMapMarkers.FetchFailure | src/hooks/useResidentialMapMarkers.ts:268-274 | a failed page loop keeps the markers, stores the error and leaves the cache purged but otherwise unchanged |
| ResidentialMapMarkers.FetchSuccess | src/hooks/useResidentialMapMarkers.ts:246-267 | a successful page loop caches the markers under the extended rectangle, merges them, clears the error and makes the extended rectangle the reference |
| ResidentialMapMarkers.FetchKeepsInvariant | src/hooks/useResidentialMapMarkers.ts:154-275 | every fetch keeps marker ids unique and the cache at most ten entries |
| ResidentialMapMarkers.SuccessThenInsideSkips | src/hooks/useResidentialMapMarkers.ts:163-167 | after a successful fetch, every rectangle inside the fetched one is skipped |
| ResidentialMapMarkers.MarkerHook.constructor | src/hooks/useResidentialMapMarkers.ts:43-51 | the hook starts with no markers, no error, no rectangle, an empty cache and nothing pending |
| ResidentialMapMarkers.MarkerHook.GetCachedMarkers | src/hooks/useResidentialMapMarkers.ts:120-136 | the lookup purges the cache and returns the filtered markers of the first containing entry |
| ResidentialMapMarkers.MarkerHook.AddToCache | src/hooks/useResidentialMapMarkers.ts:139-151 | the new entry is appended and the cache holds at most ten entries |
| ResidentialMapMarkers.MarkerHook.FetchMarkersForViewport | src/hooks/useResidentialMapMarkers.ts:154-275 | the fetch moves the hook's state and sends the requests that the specification step `FetchStep` gives |
| ResidentialMapMarkers.MarkerHook.DebouncedSetViewport | src/hooks/useResidentialMapMarkers.ts:278-288 | a significant rectangle replaces the pending one, and an insignificant one cancels it |
| ResidentialMapMarkers.MarkerHook.TimerFires | src/hooks/useResidentialMapMarkers.ts:283-294 | the pending rectangle becomes the viewport and is fetched once the map is loaded |
| ResidentialMapMarkers.MarkerHook.MapsLoaded | src/hooks/useResidentialMapMarkers.ts:291-294 | the first load fetches the current rectangle, and nothing happens otherwise |
| ResidentialMapMarkers.InsignificantCancelsPending | src/hooks/useResidentialMapMarkers.ts:278-288 | a significant rectangle followed by an insignificant one leaves nothing pending and the state unchanged |
| ResidentialMapPage.MarkerFetchRectangle | src/app/map/residential/page.tsx:77-89 | the marker hook fetches a rectangle 1.96 times the visible one about its centre, covering both the cards' and the hook's rectangle |
| ResidentialMapPage.RepeatedViewportSchedulesButSkips | src/app/map/residential/page.tsx:77-89 | reporting the same visible rectangle again arms the debounce, but the fetch that follows is skipped |
| ViewportCards.FirstViewportRequested | src/hooks/useInfiniteCommercialProjectsViewport.ts:159-182 | the first viewport is always requested, unextended, at offset (page-1) times the limit |
| ViewportCards.SameViewportNeverRequested | src/hooks/useInfiniteCommercialProjectsViewport.ts:178-182 | a viewport equal to the reference is never requested, for any page |
| ViewportCards.CardFetchIff | src/hooks/useInfiniteCommercialProjectsViewport.ts:178-182 | a request is sent exactly when the area changes by more than a tenth or the centre moves by more than a quarter span |
| ViewportCards.ReadCardResponseSpec | src/hooks/useInfiniteCommercialProjectsViewport.ts:187-214 | a response loads exactly when it is ok and every record formats, the result keeps order, `total` and `has_more`, an HTTP error stores the hook's message, and a throwing record the message of the first record that throws |
| ViewportCards.CommercialCardsLoadWhenOk | src/hooks/useInfiniteCommercialProjectsViewport.ts:187-202 | a commercial response loads exactly when it is ok, and each card keeps its record's coordinates |
| ViewportCards.ApplyCardPageSpec | src/hooks/useInfiniteCommercialProjectsViewport.ts:196-202 | page 1 replaces the list, and a later page is appended after the old list |
| ViewportCards.CardListHook.constructor | src/hooks/useInfiniteCommercialProjectsViewport.ts:45-54 | the hook starts on page 1 with an empty list, more to load and no reference |
| ViewportCards.CardListHook.Fetch | src/hooks/useInfiniteCommercialProjectsViewport.ts:159-215 | a render sends a request exactly when the significance test passes, and the loading flag follows it |
| ViewportCards.CardListHook.SetViewport | src/hooks/useInfiniteCommercialProjectsViewport.ts:218-231 | a significant viewport resets the list and the page and fetches; an insignificant one keeps both |
| ViewportCards.CardListHook.Complete | src/hooks/useInfiniteCommercialProjectsViewport.ts:185-214 | a response replaces or appends the page and sets the reference on page 1, or stores the error and keeps the list |
| ViewportCards.CardListHook.LoadMore | src/hooks/useInfiniteCommercialProjectsViewport.ts:233-237 | `loadMore` raises the page only when idle with more to load, and never requests the reference viewport again; when it raises the page, loading and error follow the fetch, otherwise they are unchanged; `hasMore` and the total never change |
| ViewportCards.CardListHook.ResetPage | src/hooks/useInfiniteCommercialProjectsViewport.ts:246 | the page returns to 1, with a fetch (loading set, error cleared) only when it changed and a viewport is known, and loading, error, `hasMore` and the total otherwise unchanged |
| ViewportCards.CardCache.constructor | src/hooks/useInfiniteCommercialProjectsViewport.ts:52 | the card cache starts empty |
| ViewportCards.CardCache.GetCachedProjects | src/hooks/useInfiniteCommercialProjectsViewport.ts:86-96 | the lookup purges the cache and returns a live entry containing the query, or none exactly when no live entry contains it |
| ViewportCards.CardCache.AddToCache | src/hooks/useInfiniteCommercialProjectsViewport.ts:99-113 | the new page is appended last and the cache holds at most ten entries |
| InfiniteLists.Unlisted | src/hooks/useInfiniteCommercialProjects.ts:87-92 | the filtered page keeps only page members whose name is not already listed |
| InfiniteLists.UnlistedMembers | src/hooks/useInfiniteCommercialProjects.ts:87-92 | the kept projects are exactly the page members with an unlisted name |
| InfiniteLists.UnlistedAppend | src/hooks/useInfiniteCommercialProjects.ts:87-92 | the filter keeps order and distributes over concatenation |
| InfiniteLists.AllListedAddsNothing | src/hooks/useInfiniteCommercialProjects.ts:87-92 | a page of already listed names adds nothing |
| InfiniteLists.AppendUnlistedSpec | src/hooks/useInfiniteProjects.ts:29-34 | the list grows by exactly the page's unlisted projects, after the old list |
| InfiniteLists.SamePageDuplicatesKept | src/hooks/useInfiniteProjects.ts:29-34 | two projects of the same new name in one page are both kept (the name set is built before the page) |
| InfiniteLists.RedeliveryAddsNothing | src/hooks/useInfiniteProjects.ts:29-34 | receiving the same page twice adds nothing the second time |
| InfiniteLists.UnlistedByName | src/hooks/useInfiniteCommercialProjects.ts:87-92 | the filter looks only at names: two pages with the same names in the same order keep projects of the same names, in the same order |
| InfiniteLists.FormatEach | src/hooks/useInfiniteCommercialProjects.ts:59-85 | mapping the formatter keeps length and order |
| InfiniteLists.InfiniteList.constructor | src/hooks/useInfiniteProjects.ts:4-9 | the list starts empty on page 1 with more to load |
| InfiniteLists.InfiniteList.LoadProjects | src/hooks/useInfiniteProjects.ts:11-43 | a load sends the request at offset (page-1) times the limit only when idle with more to load |
| InfiniteLists.InfiniteList.Complete | src/hooks/useInfiniteProjects.ts:20-42 | an ok response appends the unlisted projects and sets `has_more`, and any other stores the error |
| InfiniteLists.InfiniteList.LoadMore | src/hooks/useInfiniteProjects.ts:45-54 | `loadMore` raises the page and loads it only when idle with more to load |
| InfiniteLists.ResidentialList.constructor | src/hooks/useInfiniteResidentialProjects.ts:4-10 | the list starts empty on page 1 with more to load |
| InfiniteLists.ResidentialList.Mount | src/hooks/useInfiniteResidentialProjects.ts:55-68 | the mount effect requests page 1 |
| InfiniteLists.ResidentialList.LoadProjects | src/hooks/useInfiniteResidentialProjects.ts:70-91 | a page effect requests the page only when idle and not on page 1 |
| InfiniteLists.ResidentialList.Complete | src/hooks/useInfiniteResidentialProjects.ts:55-87 | page 1 sets the list, a later page is appended in full with no name check, and a failed response or a throwing record stores its message and keeps the list |
| InfiniteLists.ResidentialList.LoadMore | src/hooks/useInfiniteResidentialProjects.ts:93-97 | `loadMore` raises the page only when idle with more to load |
| GoogleMapLayer.Pin.constructor | src/components/GoogleMap.tsx:70-77 | a new pin is on the map at the marker's position with its title |
| GoogleMapLayer.Pin.SetPosition | src/components/GoogleMap.tsx:67-69 | moving a pin changes only its position |
| GoogleMapLayer.Pin.Detach | src/components/GoogleMap.tsx:55-61 | `setMap(null)` takes the pin off the map |
| GoogleMapLayer.LastWith | src/components/GoogleMap.tsx:64-105 | the last marker with an id exists exactly when the id occurs |
| GoogleMapLayer.LastWithIsLast | src/components/GoogleMap.tsx:64-105 | a marker with no later marker of the same id is the last one |
| GoogleMapLayer.PositionsLast | src/components/GoogleMap.tsx:64-69 | after the loop, each id's position is that of its last marker |
| GoogleMapLayer.PositionsUntouched | src/components/GoogleMap.tsx:64-69 | an id absent from the markers keeps its position |
| GoogleMapLayer.TitlesSpec | src/components/GoogleMap.tsx:70-77 | each id's title is that of its first marker (a pin is created once, then only moved) |
| GoogleMapLayer.MarkerLayer.constructor | src/components/GoogleMap.tsx:23-24 | the layer starts with no pins |
| GoogleMapLayer.MarkerLayer.UpdateMarkers | src/components/GoogleMap.tsx:48-106 | without a map nothing changes, neither the table nor any pin's position or map; otherwise the pins are exactly the markers' ids, the pins of dropped ids are off the map, a kept pin is the same object, and each pin has its id's last position and first title |
| GoogleMapLayer.MarkerLayer.SameIdsKeepObjects | src/components/GoogleMap.tsx:64-69 | reconciling with the same ids keeps every pin object |
| GoogleMapLayer.MarkerLayer.RemoveAbsent | src/components/GoogleMap.tsx:55-61 | pins whose id is absent are detached and dropped, and the rest are untouched |
| GoogleMapLayer.MarkerLayer.AddOrMove | src/components/GoogleMap.tsx:64-105 | the add/move loop leaves the pins settled: every marker's id has a pin with its last position |
| GoogleMapLayer.MarkerLayer.PlacedAllSettled | src/components/GoogleMap.tsx:64-105 | placing every marker establishes the settled state |
| GoogleMapLayer.MarkerLayer.PlaceNext | src/components/GoogleMap.tsx:65-104 | one round moves the id's pin or adds one |
| GoogleMapLayer.MarkerLayer.Move | src/components/GoogleMap.tsx:67-69 | an existing pin is moved to the marker's position |
| GoogleMapLayer.MarkerLayer.Add | src/components/GoogleMap.tsx:70-103 | a new id gets a new pin |
| GoogleMapLayer.MarkerLayer.NewPin | src/components/GoogleMap.tsx:70-103 | the new pin is fresh, on the map, and stored under the marker's id |
| Search.SearchHook.constructor | src/hooks/useCommercialSearch.ts:4-13 | the search starts blank on page 1 |
| Search.SearchHook.SearchProjects | src/hooks/useCommercialSearch.ts:15-83 | a blank query clears the results and stops, and any other query sends a request |
| Search.SearchHook.AfterRender | src/hooks/useCommercialSearch.ts:86-109 | after a render a changed non-blank query arms the debounce, a blank one clears the results, and a later page of the same query loads at once |
| Search.SearchHook.Mount | src/hooks/useCommercialSearch.ts:86-102 | on mount a blank query clears the results and sends nothing, leaving loading and error alone; a non-blank query schedules the debounced search when it differs from the last one and otherwise loads a later page directly |
| Search.SearchHook.SetQuery | src/hooks/useCommercialSearch.ts:86-102 | typing re-arms or cancels the debounce, and a blank query clears the results |
| Search.SearchHook.TimerFires | src/hooks/useCommercialSearch.ts:86-102 | the timer resets the page to 1 and sends the captured request |
| Search.SearchAndListingDedupAlike | src/hooks/useCommercialSearch.ts:36-73 | a search page that formats is deduplicated against any list exactly as the listing hook's page of the same records: the appended projects have the same names, in order |
| Search.SearchHook.Complete | src/hooks/useCommercialSearch.ts:30-82 | a new query replaces the results, the same query appends its unlisted ones, and a failed response or a record whose formatting throws stores the message and keeps the results |
| Search.SearchHook.LoadMore | src/hooks/useCommercialSearch.ts:111-115 | `loadMore` raises the page only when idle with more to load and a non-blank query; the new page is then scheduled or requested, with the error kept while scheduled |
| CommercialMapMarkers.WithCoordinates | src/hooks/useCommercialMapMarkers.ts:55 | every record the filter keeps has a non-empty `Coordinates` containing a comma |
| CommercialMapMarkers.MarkersOf | src/hooks/useCommercialMapMarkers.ts:55-68 | there is one marker per record with coordinates, in order |
| CommercialMapMarkers.WithCoordinatesMembers | src/hooks/useCommercialMapMarkers.ts:55 | the kept records are exactly those whose `Coordinates` is non-empty and contains a comma |
| CommercialMapMarkers.WithCoordinatesAppend | src/hooks/useCommercialMapMarkers.ts:55 | the filter distributes over concatenation |
| CommercialMapMarkers.ToMarkerSpec | src/hooks/useCommercialMapMarkers.ts:59-68 | the marker's coordinates are the parses of the first two comma parts, and its fields and default type come from the record |
| CommercialMapMarkers.MarkersOfAppend | src/hooks/useCommercialMapMarkers.ts:55-68 | conversion distributes over concatenation |
| CommercialMapMarkers.NoCommaNoMarker | src/hooks/useCommercialMapMarkers.ts:55 | a coordinate string without a comma yields no marker |
| CommercialMapMarkers.UnparsedCoordinateKept | src/hooks/useCommercialMapMarkers.ts:59-68 | an unparsable latitude still yields a marker, with a NaN latitude |
| CommercialMapMarkers.MarkerHook.constructor | src/hooks/useCommercialMapMarkers.ts:12-16 | the hook starts with no markers, not loaded and not ready |
| CommercialMapMarkers.MarkerHook.MapsLoaded | src/hooks/useCommercialMapMarkers.ts:19-40 | readiness starts the one fetch, and only the first time |
| CommercialMapMarkers.MarkerHook.Complete | src/hooks/useCommercialMapMarkers.ts:42-79 | an ok response sets the converted markers, and any other stores the error and keeps the markers |
| ProjectCache.StopPage | src/lib/projectCache.ts:10-28 | the loop's last page is the first that fails or reaches the total |
| ProjectCache.PagesThrough | src/lib/projectCache.ts:10-28 | the pages requested are 1 up to n, in order |
| ProjectCache.EarlierPagesDelivered | src/lib/projectCache.ts:10-28 | every page before the stopping page was delivered, and each delivered page appends its items |
| ProjectCache.AllProjectsReachTotal | src/lib/projectCache.ts:22-27 | a completed loop holds at least the total, and every earlier page was below it |
| ProjectCache.FirstPageSuffices | src/lib/projectCache.ts:10-31 | a first page holding the whole total ends the loop after one request |
| ProjectCache.Memo.constructor | src/lib/projectCache.ts:3 | the memo starts empty |
| ProjectCache.Memo.GetAllProjects | src/lib/projectCache.ts:5-32 | a filled memo is returned without any request; otherwise pages 1 up to the stopping page are requested and the result is stored and returned |
| Sitemap.HexDigit | src/app/sitemap.ts:13 | escapes use upper-case hexadecimal digits |
| Sitemap.Utf8 | src/app/sitemap.ts:13 | a code point encodes to one to four bytes |
| Sitemap.Utf8RoundTrip | src/app/sitemap.ts:13 | decoding the UTF-8 bytes gives back the code point |
| Sitemap.Utf8LeadByte | src/app/sitemap.ts:13 | the lead byte gives the sequence length |
| Sitemap.PercentBytes | src/app/sitemap.ts:13 | each byte becomes a three-character escape |
| Sitemap.EncodedAlphabet | src/app/sitemap.ts:13 | encoding leaves only unreserved characters and `%` |
| Sitemap.PercentBytesAlphabet | src/app/sitemap.ts:13 | escapes use only unreserved characters and `%` |
| Sitemap.EncodeUnreserved | src/app/sitemap.ts:13 | an unreserved string is its own encoding |
| Sitemap.PercentBytesInjective | src/app/sitemap.ts:13 | equal escape strings come from equal bytes |
| Sitemap.EncodeCharPrefix | src/app/sitemap.ts:13 | the encoding of one character is prefix-free |
| Sitemap.EncodeInjective | src/app/sitemap.ts:13 | `encodeURIComponent` is injective |
| Sitemap.CollapseWhitespace | src/app/sitemap.ts:13 | replacing white-space runs never lengthens the name |
| Sitemap.CollapseSpec | src/app/sitemap.ts:13 | no white space survives the replacement |
| Sitemap.CollapseKeeps | src/app/sitemap.ts:13 | every output character is `-` or an input character |
| Sitemap.CollapseNoWhitespace | src/app/sitemap.ts:13 | a string without white space is unchanged |
| Sitemap.CollapseIdempotent | src/app/sitemap.ts:13 | the replacement is idempotent |
| Sitemap.LowerFixed | src/app/sitemap.ts:13 | a lower-case string is its own lower case |
| Sitemap.SlugBaseIdempotent | src/app/sitemap.ts:13 | the pre-encoding slug has no white space and is a fixed point |
| Sitemap.SameSlugIff | src/app/sitemap.ts:13 | two names share a slug exactly when they lower and collapse to the same string, and a slug has no `/` |
| Sitemap.BaseUrl | src/app/sitemap.ts:9 | the base URL is the environment value when set and non-empty, else the default site |
| Sitemap.SitemapShape | src/app/sitemap.ts:22-38 | the home and listing routes come first, daily, then one weekly route per project in order |
| Sitemap.SharedUrlIff | src/app/sitemap.ts:12-20 | two projects share a URL exactly when their names agree once lowered and collapsed |

## Left out

- React machinery: re-render scheduling, StrictMode double effects, effect cleanups and stale closures are not modelled. Each effect is a method called at the point it would run. The captured values modelled are the search's query and page (`SearchRequest`), the card request's viewport and page (`CardRequest`), and the search held by the pending debounce timer.
- Timers and polling: `setTimeout`, and the `checkGoogleMapsLoaded` poll that re-arms itself with `setTimeout` every 100 ms until `window.google` exists, are a pending slot and a `MapsLoaded` method. No clock ticks.
- Clock: `Date.now()` is a parameter (`now`, `finishedAt`).
- Floating point: coordinates are exact reals, so rounding is not modelled. NaN from `parseFloat` is `None`. The zoom value computed with `Math.log2` is never used and is not modelled.
- `parseFloat` itself is a parameter, not a definition of JavaScript number parsing.
- Text: `toLowerCase` and the `\s` class are modelled for ASCII letters and the white-space characters listed in `JsText.IsWhitespace`. Other Unicode case mappings and spaces are not modelled.
- Date formatting of `possessionDate`, the sitemap's `lastModified` and pass-through record fields that no operation inspects or reads a property of are not modelled. A present figure of a commercial record is represented by the text its `toString()` gives.
- Record shapes: a JSON list field is an array or missing (`undefined` or `null`). A field holding another kind of value, such as a string in `projectType`, is not modelled.
- Google Maps widget calls: the info window, click listeners, map construction and the cleanup effect of the map component are not modelled. The early return on the script-onload path before the info window exists is not modelled either.
- ResidentialMapMarkers.MarkerHook.FetchMarkersForViewport: the whole fetch is one atomic step, so overlapping fetches and the `loading` flag are not modelled.
- CommercialMapMarkers.MarkerHook.Complete: the fetch is one request and one completion; `loading` is modelled only as set and cleared.
- ResidentialMapMarkers.FetchAllPages: requires that some page stops the loop (`Terminates`). A server that always answers `has_more` makes the source loop forever, and that case is not modelled.
- ProjectCache.Memo.GetAllProjects: requires that some page stops the loop, for the same reason.
- Request URLs: query strings, headers and the viewport parameters are carried as values (page, limit, offset, rectangle), not as URL text.
- The commercial card cache (`getCachedProjects`, `addToCache`) is modelled as its own class. The source's `fetchProjects` never calls it, so the card hook does not use it.
- `useGoogleMapsScript`, `useUserLocation` and the presentation components and pages are not part of this model.
