/**
  `getAllProjects`: the whole residential listing, fetched once per server
  process and memoised in a module-level variable. Pages 1, 2, ... of 100
  are requested one after the other and their projects concatenated; the
  loop stops after the first page at which the collected count reaches
  the server's `total`. The response's `ok` flag is never read, so any
  failed request rejects the call, and the memo is written only once the
  loop has finished.
 */
module ProjectCache {
  import opened Common

  /** The `limit` of every page request. */
  const CacheLimit: nat := 100

  /** The projects of pages 1 .. n, concatenated in page order (a failed page contributes nothing). */
  function Accumulated<T>(source: nat -> Response<T>, n: nat): seq<T>
  {
    if n == 0 then [] else Accumulated(source, n - 1) + ItemsOf(source(n))
  }

  /**
    Page `p` ends the loop: its request fails (which rejects the call), or
    the projects collected through it number at least its `total`.
   */
  predicate PageStops<T>(source: nat -> Response<T>, p: nat)
  {
    !source(p).Ok? || |Accumulated(source, p)| >= source(p).page.total
  }

  /** Pages 1 .. n-1 all go on to the next page. */
  predicate RunsThrough<T>(source: nat -> Response<T>, n: nat)
  {
    forall p :: 1 <= p < n ==> !PageStops(source, p)
  }

  /** The server eventually ends the loop. */
  ghost predicate Terminates<T>(source: nat -> Response<T>)
  {
    exists n :: n >= 1 && PageStops(source, n)
  }

  /** There is a first stopping page at or below any stopping page. */
  lemma {:induction false} FirstStopExists<T>(source: nat -> Response<T>, bound: nat)
    requires bound >= 1 && PageStops(source, bound)
    ensures exists n :: 1 <= n <= bound && RunsThrough(source, n) && PageStops(source, n)
  {
    if !RunsThrough(source, bound) {
      var p :| 1 <= p < bound && PageStops(source, p);
      FirstStopExists(source, p);
    }
  }

  /** The last page requested is determined by the server: the first stopping page. */
  lemma RunLengthUnique<T>(source: nat -> Response<T>, n: nat, m: nat)
    requires n >= 1 && RunsThrough(source, n) && PageStops(source, n)
    requires m >= 1 && RunsThrough(source, m) && PageStops(source, m)
    ensures n == m
  {
  }

  /** The last page requested. */
  ghost function StopPage<T>(source: nat -> Response<T>): (n: nat)
    requires Terminates(source)
    ensures n >= 1 && RunsThrough(source, n) && PageStops(source, n)
  {
    var bound :| bound >= 1 && PageStops(source, bound);
    FirstStopExists(source, bound);
    var n :| 1 <= n <= bound && RunsThrough(source, n) && PageStops(source, n);
    n
  }

  /** What the loop produces: every project, or `None` when a request failed and the call rejects. */
  ghost function AllProjects<T>(source: nat -> Response<T>): Option<seq<T>>
    requires Terminates(source)
  {
    var n := StopPage(source);
    if source(n).Ok? then Some(Accumulated(source, n)) else None
  }

  /** The page numbers 1 .. n, in order. */
  function PagesThrough(n: nat): (r: seq<nat>)
    ensures |r| == n && forall i :: 0 <= i < n ==> r[i] == i + 1
  {
    seq(n, i requires 0 <= i < n => i + 1)
  }

  /**
    Only the stopping page may fail: every page before it was delivered,
    and the projects collected through it are its predecessors' projects
    followed by its own.
   */
  lemma EarlierPagesDelivered<T>(source: nat -> Response<T>, n: nat)
    requires n >= 1 && RunsThrough(source, n)
    ensures forall p :: 1 <= p < n ==> source(p).Ok?
    ensures source(n).Ok? ==> Accumulated(source, n) == Accumulated(source, n - 1) + source(n).page.items
  {
    forall p | 1 <= p < n
      ensures source(p).Ok?
    {
      assert !PageStops(source, p);
    }
  }

  /**
    A delivered result covers the server's count: it holds at least the
    last page's `total` projects, and every earlier page reported a larger
    `total` than had been collected through it.
   */
  lemma AllProjectsReachTotal<T>(source: nat -> Response<T>)
    requires Terminates(source)
    ensures var n := StopPage(source);
      AllProjects(source).Some? ==>
        && |AllProjects(source).value| >= source(n).page.total
        && forall p :: 1 <= p < n ==> source(p).Ok? && |Accumulated(source, p)| < source(p).page.total
  {
    var n := StopPage(source);
    forall p | 1 <= p < n
      ensures source(p).Ok? && |Accumulated(source, p)| < source(p).page.total
    {
      assert !PageStops(source, p);
    }
  }

  /** A first page that already holds its `total` is the only request; a failed first page rejects. */
  lemma FirstPageSuffices<T>(source: nat -> Response<T>)
    requires source(1).Ok? ==> |source(1).page.items| >= source(1).page.total
    ensures Terminates(source) && StopPage(source) == 1
    ensures AllProjects(source) == (if source(1).Ok? then Some(source(1).page.items) else None)
  {
    assert Accumulated(source, 1) == [] + ItemsOf(source(1)) == ItemsOf(source(1));
    assert PageStops(source, 1);
    RunLengthUnique(source, 1, StopPage(source));
    assert StopPage(source) == 1;
  }

  /** The module-level `projectCache` variable. */
  class Memo<T> {
    var cached: Option<seq<T>>

    constructor()
      ensures cached.None?
    {
      cached := None;
    }

    /**
      `getAllProjects`: a memoised list is returned as it is, without any
      request. Otherwise pages 1, 2, ... are requested with limit 100
      until the first stopping page; a failed request rejects and leaves
      the memo empty, and a completed loop stores and returns its list.
     */
    method GetAllProjects(source: nat -> Response<T>) returns (pages: seq<nat>, result: Option<seq<T>>)
      requires cached.Some? || Terminates(source)
      modifies this
      ensures old(cached).Some? ==> pages == [] && result == old(cached) && cached == old(cached)
      ensures old(cached).None? ==>
        && pages == PagesThrough(StopPage(source))
        && result == AllProjects(source) && cached == result
    {
      if cached.Some? {
        return [], cached;
      }
      ghost var bound := StopPage(source);
      var projects: seq<T> := [];
      var page: nat := 1;
      pages := [];
      while true
        invariant 1 <= page <= bound
        invariant RunsThrough(source, page)
        invariant pages == PagesThrough(page - 1)
        invariant projects == Accumulated(source, page - 1)
        invariant cached.None?
        decreases bound - page
      {
        pages := pages + [page];
        var response := source(page);
        if !response.Ok? {
          RunLengthUnique(source, page, bound);
          return pages, None;
        }
        projects := projects + response.page.items;
        if |projects| >= response.page.total {
          RunLengthUnique(source, page, bound);
          break;
        }
        page := page + 1;
      }
      cached := Some(projects);
      result := cached;
    }
  }
}
