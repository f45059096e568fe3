/**
  The plain "load more" lists: `useInfiniteProjects`,
  `useInfiniteCommercialProjects` and `useInfiniteResidentialProjects`.

  The first two are one machine: every page change runs `loadProjects`,
  which is a no-op while a request is in flight or once the server said
  there is nothing more; a delivered page is formatted and only the
  projects whose name is not yet listed are appended. The residential
  list loads page 1 once on mount, skips page 1 in `loadProjects`, and
  appends later pages without any deduplication.

  Requests are in flight until their response is delivered, in any order.
 */
module InfiniteLists {
  import opened Common
  import opened Projects

  /** The `throw new Error(...)` text of `useInfiniteProjects` for a response that is not ok. */
  const ProjectsFailedMessage: string := "Failed to fetch projects"
  /** The same text in `useInfiniteCommercialProjects`. */
  const CommercialFailedMessage: string := "Failed to fetch commercial projects"
  /** The same text in `useInfiniteResidentialProjects`. */
  const ResidentialFailedMessage: string := "Failed to fetch residential projects"

  /** `new Set(prev.map(p => p.name))`. */
  function Names<P>(xs: seq<P>, nameOf: P -> string): set<string>
  {
    set i | 0 <= i < |xs| :: nameOf(xs[i])
  }

  /** `page.filter(p => !names.has(p.name))`. */
  function Unlisted<P>(page: seq<P>, names: set<string>, nameOf: P -> string): (r: seq<P>)
    ensures |r| <= |page|
    ensures forall i :: 0 <= i < |r| ==> r[i] in page && nameOf(r[i]) !in names
  {
    if page == [] then []
    else (if nameOf(page[0]) in names then [] else [page[0]]) + Unlisted(page[1..], names, nameOf)
  }

  /** `[...prev, ...page.filter(p => !currentProjectNames.has(p.name))]`. */
  function AppendUnlisted<P>(prev: seq<P>, page: seq<P>, nameOf: P -> string): seq<P>
  {
    prev + Unlisted(page, Names(prev, nameOf), nameOf)
  }

  /** The filter drops nothing it should keep: a page item stays exactly when its name is not listed. */
  lemma {:induction false} UnlistedMembers<P>(page: seq<P>, names: set<string>, nameOf: P -> string)
    ensures forall x :: x in Unlisted(page, names, nameOf) <==> x in page && nameOf(x) !in names
  {
    if page != [] {
      UnlistedMembers(page[1..], names, nameOf);
      assert page == [page[0]] + page[1..];
    }
  }

  /** The filter keeps page order: filtering a concatenation filters each part. */
  lemma {:induction false} UnlistedAppend<P>(a: seq<P>, b: seq<P>, names: set<string>, nameOf: P -> string)
    ensures Unlisted(a + b, names, nameOf) == Unlisted(a, names, nameOf) + Unlisted(b, names, nameOf)
  {
    if a == [] {
      assert a + b == b;
    } else {
      assert (a + b)[0] == a[0] && (a + b)[1..] == a[1..] + b;
      UnlistedAppend(a[1..], b, names, nameOf);
      var head := if nameOf(a[0]) in names then [] else [a[0]];
      assert Unlisted(a + b, names, nameOf) == head + Unlisted(a[1..] + b, names, nameOf);
      assert Unlisted(a, names, nameOf) == head + Unlisted(a[1..], names, nameOf);
    }
  }

  /** A page whose names are all listed adds nothing. */
  lemma {:induction false} AllListedAddsNothing<P>(page: seq<P>, names: set<string>, nameOf: P -> string)
    requires forall i :: 0 <= i < |page| ==> nameOf(page[i]) in names
    ensures Unlisted(page, names, nameOf) == []
  {
    if page != [] {
      AllListedAddsNothing(page[1..], names, nameOf);
    }
  }

  /**
    Appending keeps the old list as a prefix; what follows it are page items
    with unlisted names, and every page item with an unlisted name is there.
   */
  lemma AppendUnlistedSpec<P>(prev: seq<P>, page: seq<P>, nameOf: P -> string)
    ensures var r := AppendUnlisted(prev, page, nameOf);
      && |prev| <= |r| <= |prev| + |page|
      && r[..|prev|] == prev
      && (forall i :: |prev| <= i < |r| ==> r[i] in page && nameOf(r[i]) !in Names(prev, nameOf))
      && (forall x :: x in page && nameOf(x) !in Names(prev, nameOf) ==> x in r[|prev|..])
  {
    var r := AppendUnlisted(prev, page, nameOf);
    UnlistedMembers(page, Names(prev, nameOf), nameOf);
    assert r[|prev|..] == Unlisted(page, Names(prev, nameOf), nameOf);
    forall i | |prev| <= i < |r|
      ensures r[i] in page && nameOf(r[i]) !in Names(prev, nameOf)
    {
      assert r[i] == r[|prev|..][i - |prev|];
    }
  }

  /**
    Names are only checked against the old list: two projects of one page
    that share a new name are both appended.
   */
  lemma SamePageDuplicatesKept<P>(prev: seq<P>, a: P, b: P, nameOf: P -> string)
    requires nameOf(a) == nameOf(b) && nameOf(a) !in Names(prev, nameOf)
    ensures AppendUnlisted(prev, [a, b], nameOf) == prev + [a, b]
  {
    var names := Names(prev, nameOf);
    assert [a, b][1..] == [b] && [b][1..] == [];
    assert Unlisted([b], names, nameOf) == [b];
    assert Unlisted([a, b], names, nameOf) == [a] + [b];
  }

  /** Delivering the same page twice appends it once: the second delivery adds nothing. */
  lemma RedeliveryAddsNothing<P>(prev: seq<P>, page: seq<P>, nameOf: P -> string)
    ensures AppendUnlisted(AppendUnlisted(prev, page, nameOf), page, nameOf) == AppendUnlisted(prev, page, nameOf)
  {
    var r := AppendUnlisted(prev, page, nameOf);
    AppendUnlistedSpec(prev, page, nameOf);
    forall i | 0 <= i < |page|
      ensures nameOf(page[i]) in Names(r, nameOf)
    {
      if nameOf(page[i]) in Names(prev, nameOf) {
        var j :| 0 <= j < |prev| && nameOf(prev[j]) == nameOf(page[i]);
        assert r[j] == prev[j];
      } else {
        var k :| 0 <= k < |r| - |prev| && r[|prev|..][k] == page[i];
        assert r[|prev| + k] == page[i];
      }
    }
    AllListedAddsNothing(page, Names(r, nameOf), nameOf);
  }

  /**
    The filter looks at names only: two pages with the same names in the
    same order keep projects of the same names, in the same order.
   */
  lemma {:induction false} UnlistedByName<P>(a: seq<P>, b: seq<P>, names: set<string>, nameOf: P -> string)
    requires |a| == |b| && forall i :: 0 <= i < |a| ==> nameOf(a[i]) == nameOf(b[i])
    ensures |Unlisted(a, names, nameOf)| == |Unlisted(b, names, nameOf)|
    ensures forall i :: 0 <= i < |Unlisted(a, names, nameOf)| ==>
      nameOf(Unlisted(a, names, nameOf)[i]) == nameOf(Unlisted(b, names, nameOf)[i])
  {
    if a != [] {
      assert forall i :: 1 <= i < |a| ==> a[i] == a[1..][i - 1] && b[i] == b[1..][i - 1];
      UnlistedByName(a[1..], b[1..], names, nameOf);
    }
  }

  /** `data.projects.map(format)` for a formatter that cannot throw. */
  function FormatEach<R, P>(items: seq<R>, format: R -> P): (r: seq<P>)
    ensures |r| == |items| && forall i :: 0 <= i < |items| ==> r[i] == format(items[i])
  {
    seq(|items|, i requires 0 <= i < |items| => format(items[i]))
  }

  /**
    One name-deduplicating list: `useInfiniteProjects` with the identity
    formatter and `ProjectsFailedMessage`, `useInfiniteCommercialProjects`
    with `FormatCommercialListing` and `CommercialFailedMessage`.
   */
  class InfiniteList<R, P> {
    const format: R -> P
    const nameOf: P -> string
    const limit: nat
    const notOkMessage: string
    var projects: seq<P>
    var loading: bool
    var error: Option<string>
    var hasMore: bool
    var page: nat
    /** The requests whose responses have not been delivered yet, oldest first. */
    var inFlight: seq<PageRequest>

    ghost predicate Valid()
      reads this
    {
      page >= 1
    }

    /** The initial state; the mount effect then runs `LoadProjects` for page 1. */
    constructor(format: R -> P, nameOf: P -> string, limit: nat, notOkMessage: string)
      ensures Valid()
      ensures this.format == format && this.nameOf == nameOf && this.limit == limit && this.notOkMessage == notOkMessage
      ensures projects == [] && !loading && error.None? && hasMore && page == 1 && inFlight == []
    {
      this.format := format;
      this.nameOf := nameOf;
      this.limit := limit;
      this.notOkMessage := notOkMessage;
      projects := [];
      loading := false;
      error := None;
      hasMore := true;
      page := 1;
      inFlight := [];
    }

    /**
      `loadProjects` for the current page: nothing while loading or when
      nothing more is promised; otherwise the flag rises, the error clears
      and page `page` is requested at offset `(page - 1) * limit`.
     */
    method LoadProjects()
      modifies this
      ensures old(loading) || !old(hasMore) ==>
        loading == old(loading) && error == old(error) && inFlight == old(inFlight)
      ensures !old(loading) && old(hasMore) ==>
        loading && error.None? && inFlight == old(inFlight) + [RequestFor(page, limit)]
      ensures projects == old(projects) && hasMore == old(hasMore) && page == old(page)
    {
      if loading || !hasMore {
        return;
      }
      loading := true;
      error := None;
      inFlight := inFlight + [RequestFor(page, limit)];
    }

    /**
      The response to the `i`-th request in flight arrives. A page appends
      its projects with unlisted names and copies `has_more`; a failure
      stores its message and leaves the list alone. The flag falls either way.
     */
    method Complete(i: nat, response: Response<R>)
      requires i < |inFlight|
      modifies this
      ensures inFlight == RemoveAt(old(inFlight), i) && !loading
      ensures response.Ok? ==>
        && projects == AppendUnlisted(old(projects), FormatEach(response.page.items, format), nameOf)
        && hasMore == response.page.hasMore && error == old(error)
      ensures !response.Ok? ==>
        error == Some(ErrorText(response, notOkMessage)) && projects == old(projects) && hasMore == old(hasMore)
      ensures page == old(page)
    {
      inFlight := RemoveAt(inFlight, i);
      if response.Ok? {
        projects := AppendUnlisted(projects, FormatEach(response.page.items, format), nameOf);
        hasMore := response.page.hasMore;
      } else {
        error := Some(ErrorText(response, notOkMessage));
      }
      loading := false;
    }

    /** `loadMore`: when idle and more is promised, the next page is selected and loaded. */
    method LoadMore()
      requires Valid()
      modifies this
      ensures Valid()
      ensures !old(loading) && old(hasMore) ==>
        page == old(page) + 1 && loading && error.None? && inFlight == old(inFlight) + [RequestFor(old(page) + 1, limit)]
      ensures old(loading) || !old(hasMore) ==>
        page == old(page) && loading == old(loading) && error == old(error) && inFlight == old(inFlight)
      ensures projects == old(projects) && hasMore == old(hasMore)
    {
      if !loading && hasMore {
        page := page + 1;
        LoadProjects();
      }
    }
  }

  /** Which of the residential list's two fetches a request belongs to. */
  datatype ResidentialFetch = Initial(request: PageRequest) | More(request: PageRequest)

  /** `useInfiniteResidentialProjects`. */
  class ResidentialList {
    const limit: nat
    var projects: seq<ResidentialProject>
    var loading: bool
    var error: Option<string>
    var hasMore: bool
    var page: nat
    var total: int
    /** The requests whose responses have not been delivered yet, oldest first. */
    var inFlight: seq<ResidentialFetch>

    ghost predicate Valid()
      reads this
    {
      page >= 1
    }

    /** The initial state, before the mount effects. */
    constructor(limit: nat)
      ensures Valid() && this.limit == limit
      ensures projects == [] && !loading && error.None? && hasMore && page == 1 && total == 0 && inFlight == []
    {
      this.limit := limit;
      projects := [];
      loading := false;
      error := None;
      hasMore := true;
      page := 1;
      total := 0;
      inFlight := [];
    }

    /**
      The mount effects: `fetchInitialData` requests page 1 without touching
      the loading flag, and the page effect's `loadProjects` skips page 1.
     */
    method Mount()
      requires Valid() && page == 1
      modifies this
      ensures Valid() && inFlight == old(inFlight) + [Initial(RequestFor(1, limit))]
      ensures projects == old(projects) && loading == old(loading) && error == old(error)
      ensures hasMore == old(hasMore) && page == old(page) && total == old(total)
    {
      inFlight := inFlight + [Initial(RequestFor(1, limit))];
      LoadProjects();
    }

    /** `loadProjects`: nothing while loading or on page 1; otherwise page `page` is requested. */
    method LoadProjects()
      modifies this
      ensures old(loading) || page == 1 ==>
        loading == old(loading) && error == old(error) && inFlight == old(inFlight)
      ensures !old(loading) && page != 1 ==>
        loading && error.None? && inFlight == old(inFlight) + [More(RequestFor(page, limit))]
      ensures projects == old(projects) && hasMore == old(hasMore) && page == old(page) && total == old(total)
    {
      if loading || page == 1 {
        return;
      }
      loading := true;
      error := None;
      inFlight := inFlight + [More(RequestFor(page, limit))];
    }

    /**
      The response to the `i`-th request in flight arrives. The initial load
      records `total` before formatting, so a record that makes
      `formatProject` throw still leaves the total set; its formatted page
      replaces the list. A later page is appended as it is, without any
      name check. Only a later page's completion lowers the loading flag.
     */
    method Complete(i: nat, response: Response<ResidentialRecord>)
      requires i < |inFlight|
      modifies this
      ensures inFlight == RemoveAt(old(inFlight), i)
      ensures var formatted := if response.Ok? then FormatAll(response.page.items, FormatResidentialListing)
                               else Failure(ErrorText(response, ResidentialFailedMessage));
        && error == (if formatted.Failure? then Some(formatted.error) else old(error))
        && hasMore == (if formatted.Success? then response.page.hasMore else old(hasMore))
        && (old(inFlight[i]).Initial? ==>
              && projects == (if formatted.Success? then formatted.value else old(projects))
              && total == (if response.Ok? then response.page.total else old(total))
              && loading == old(loading))
        && (old(inFlight[i]).More? ==>
              && projects == (if formatted.Success? then old(projects) + formatted.value else old(projects))
              && total == old(total) && !loading)
      ensures page == old(page)
    {
      var fetch := inFlight[i];
      inFlight := RemoveAt(inFlight, i);
      if !response.Ok? {
        error := Some(ErrorText(response, ResidentialFailedMessage));
      } else {
        if fetch.Initial? {
          total := response.page.total;
        }
        var formatted := FormatAll(response.page.items, FormatResidentialListing);
        if formatted.Failure? {
          error := Some(formatted.error);
        } else {
          projects := if fetch.Initial? then formatted.value else projects + formatted.value;
          hasMore := response.page.hasMore;
        }
      }
      if fetch.More? {
        loading := false;
      }
    }

    /** `loadMore`: when idle and more is promised, the next page is selected and loaded. */
    method LoadMore()
      requires Valid()
      modifies this
      ensures Valid()
      ensures !old(loading) && old(hasMore) ==>
        page == old(page) + 1 && loading && error.None? && inFlight == old(inFlight) + [More(RequestFor(old(page) + 1, limit))]
      ensures old(loading) || !old(hasMore) ==>
        page == old(page) && loading == old(loading) && error == old(error) && inFlight == old(inFlight)
      ensures projects == old(projects) && hasMore == old(hasMore) && total == old(total)
    {
      if !loading && hasMore {
        page := page + 1;
        LoadProjects();
      }
    }
  }
}
