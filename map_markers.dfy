/**
  Map markers and the id-keyed merges of the residential marker hook. A
  JavaScript `Map` keyed by id is modelled by its entry list in insertion
  order: `set` on an existing key replaces the value where it stands, `set`
  on a new key appends, and `Array.from(map.values())` is the list itself.
 */
module MapMarkers {
  import opened Common
  import opened GeoRect

  datatype MapMarker = MapMarker(position: LatLng, title: string, id: string, coverImage: string, projectType: string)

  /** `isPointInViewport(marker.position.lat, marker.position.lng, v)`. */
  predicate Inside(m: MapMarker, v: Viewport)
  {
    PointIn(m.position.lat, m.position.lng, v)
  }

  predicate UniqueIds(ms: seq<MapMarker>)
  {
    forall i, j :: 0 <= i < j < |ms| ==> ms[i].id != ms[j].id
  }

  function IdSet(ms: seq<MapMarker>): set<string>
  {
    set i | 0 <= i < |ms| :: ms[i].id
  }

  /** The position of the first marker with the given id. */
  function IndexOfId(ms: seq<MapMarker>, id: string): (r: Option<nat>)
    ensures r.Some? ==> r.value < |ms| && ms[r.value].id == id
    ensures r.Some? ==> forall j :: 0 <= j < r.value ==> ms[j].id != id
    ensures r.None? <==> id !in IdSet(ms)
  {
    if ms == [] then None
    else if ms[0].id == id then Some(0)
    else
      var rest := IndexOfId(ms[1..], id);
      assert IdSet(ms) == {ms[0].id} + IdSet(ms[1..]) by {
        forall x | x in IdSet(ms) ensures x in {ms[0].id} + IdSet(ms[1..]) {
          var i :| 0 <= i < |ms| && ms[i].id == x;
          if i > 0 { assert ms[1..][i - 1].id == x; }
        }
        forall x | x in IdSet(ms[1..]) ensures x in IdSet(ms) {
          var i :| 0 <= i < |ms[1..]| && ms[1..][i].id == x;
          assert ms[i + 1].id == x;
        }
      }
      match rest
      case None => None
      case Some(k) => Some(k + 1)
  }

  /** `markerMap.set(m.id, m)` on the entry list. */
  function SetById(ms: seq<MapMarker>, m: MapMarker): seq<MapMarker>
  {
    match IndexOfId(ms, m.id)
    case Some(i) => ms[i := m]
    case None => ms + [m]
  }

  /** `xs.forEach(m => markerMap.set(m.id, m))`, in the order of `xs`. */
  function SetAll(ms: seq<MapMarker>, xs: seq<MapMarker>): seq<MapMarker>
  {
    if xs == [] then ms else SetById(SetAll(ms, xs[..|xs| - 1]), xs[|xs| - 1])
  }

  /** The markers that lie inside `v`, in order (the delete-while-iterating loop). */
  function KeepInside(ms: seq<MapMarker>, v: Viewport): seq<MapMarker>
  {
    if ms == [] then []
    else KeepInside(ms[..|ms| - 1], v) + (if Inside(ms[|ms| - 1], v) then [ms[|ms| - 1]] else [])
  }

  /** The cache-hit merge: `new Map(prev)` and then every cached marker set by id. */
  function MergeCached(prev: seq<MapMarker>, cached: seq<MapMarker>): seq<MapMarker>
  {
    SetAll(SetAll([], prev), cached)
  }

  /** The fetch merge: `new Map(prev)`, delete what lies outside `ext`, then set every fetched marker. */
  function MergeFetched(prev: seq<MapMarker>, ext: Viewport, fetched: seq<MapMarker>): seq<MapMarker>
  {
    SetAll(KeepInside(SetAll([], prev), ext), fetched)
  }

  lemma IdSetAppend(ms: seq<MapMarker>, m: MapMarker)
    ensures IdSet(ms + [m]) == IdSet(ms) + {m.id}
  {
    var s := ms + [m];
    forall x | x in IdSet(s) ensures x in IdSet(ms) + {m.id} {
      var i :| 0 <= i < |s| && s[i].id == x;
      if i < |ms| { assert ms[i].id == x; }
    }
    forall x | x in IdSet(ms) ensures x in IdSet(s) {
      var i :| 0 <= i < |ms| && ms[i].id == x;
      assert s[i].id == x;
    }
    assert s[|ms|].id == m.id;
  }

  lemma IdSetUpdate(ms: seq<MapMarker>, i: nat, m: MapMarker)
    requires i < |ms| && ms[i].id == m.id
    ensures IdSet(ms[i := m]) == IdSet(ms)
  {
    var s := ms[i := m];
    forall x | x in IdSet(s) ensures x in IdSet(ms) {
      var k :| 0 <= k < |s| && s[k].id == x;
      assert ms[k].id == x;
    }
    forall x | x in IdSet(ms) ensures x in IdSet(s) {
      var k :| 0 <= k < |ms| && ms[k].id == x;
      assert s[k].id == x;
    }
  }

  /**
    Setting one marker by id keeps the ids unique, adds its id to the id
    set, leaves every earlier entry at its position (replacing only the one
    with the same id), and appends when the id is new.
   */
  lemma SetByIdSpec(ms: seq<MapMarker>, m: MapMarker)
    requires UniqueIds(ms)
    ensures var r := SetById(ms, m);
      && UniqueIds(r)
      && IdSet(r) == IdSet(ms) + {m.id}
      && |r| == (if m.id in IdSet(ms) then |ms| else |ms| + 1)
      && (forall j :: 0 <= j < |ms| ==> r[j].id == ms[j].id)
      && (forall j :: 0 <= j < |ms| && ms[j].id != m.id ==> r[j] == ms[j])
      && m in r
  {
    match IndexOfId(ms, m.id)
    case Some(i) =>
      IdSetUpdate(ms, i, m);
      assert SetById(ms, m)[i] == m;
    case None =>
      IdSetAppend(ms, m);
      assert SetById(ms, m)[|ms|] == m;
  }

  /** Setting a list of markers keeps the ids unique and makes the id set the union. */
  lemma {:induction false} SetAllIds(ms: seq<MapMarker>, xs: seq<MapMarker>)
    requires UniqueIds(ms)
    ensures UniqueIds(SetAll(ms, xs))
    ensures IdSet(SetAll(ms, xs)) == IdSet(ms) + IdSet(xs)
  {
    if xs != [] {
      var init, x := xs[..|xs| - 1], xs[|xs| - 1];
      SetAllIds(ms, init);
      SetByIdSpec(SetAll(ms, init), x);
      assert xs == init + [x];
      IdSetAppend(init, x);
    }
  }

  /**
    Markers already in the table keep their positions; the ones whose id is
    not set again keep their fields too.
   */
  lemma {:induction false} SetAllKeepsPositions(ms: seq<MapMarker>, xs: seq<MapMarker>)
    requires UniqueIds(ms)
    ensures |SetAll(ms, xs)| >= |ms|
    ensures forall j :: 0 <= j < |ms| ==> SetAll(ms, xs)[j].id == ms[j].id
    ensures forall j :: 0 <= j < |ms| && ms[j].id !in IdSet(xs) ==> SetAll(ms, xs)[j] == ms[j]
  {
    if xs != [] {
      var init, x := xs[..|xs| - 1], xs[|xs| - 1];
      SetAllKeepsPositions(ms, init);
      SetAllIds(ms, init);
      SetByIdSpec(SetAll(ms, init), x);
      assert xs == init + [x];
      IdSetAppend(init, x);
    }
  }

  /** The last marker set for each id is the one the table holds: later values win. */
  lemma {:induction false} SetAllLatestWins(ms: seq<MapMarker>, xs: seq<MapMarker>, i: nat)
    requires UniqueIds(ms)
    requires i < |xs|
    requires forall k :: i < k < |xs| ==> xs[k].id != xs[i].id
    ensures xs[i] in SetAll(ms, xs)
  {
    var init, x := xs[..|xs| - 1], xs[|xs| - 1];
    SetAllIds(ms, init);
    SetByIdSpec(SetAll(ms, init), x);
    if i < |xs| - 1 {
      SetAllLatestWins(ms, init, i);
      var t := SetAll(ms, init);
      var j :| 0 <= j < |t| && t[j] == xs[i];
      assert xs[i].id != x.id;
      if j < |t| {
        assert SetAll(ms, xs)[j] == t[j];
      }
    }
  }

  /** The list prefix up to the first occurrence stays, so first positions agree on a prefix. */
  lemma IndexOfIdPrefix(xs: seq<MapMarker>, n: nat, id: string)
    requires n <= |xs| && id in IdSet(xs[..n])
    ensures IndexOfId(xs, id) == IndexOfId(xs[..n], id)
  {
    var k := IndexOfId(xs[..n], id).value;
    assert xs[k].id == xs[..n][k].id == id;
    assert forall j :: 0 <= j < n ==> xs[j].id == xs[..n][j].id;
    assert xs[k].id in IdSet(xs);
  }

  /** The ids at positions `n..` of `r` occur in `xs`, in the order of their first occurrence there. */
  predicate NewIdsInOrder(r: seq<MapMarker>, n: nat, xs: seq<MapMarker>)
  {
    (forall j :: n <= j < |r| ==> IndexOfId(xs, r[j].id).Some?) &&
    (forall j1, j2 :: n <= j1 < j2 < |r| ==> IndexOfId(xs, r[j1].id).value < IndexOfId(xs, r[j2].id).value)
  }

  /** Relabelling the reference list keeps the order when every first position is unchanged. */
  lemma NewIdsRelabel(t: seq<MapMarker>, r: seq<MapMarker>, n: nat, init: seq<MapMarker>, xs: seq<MapMarker>)
    requires |r| == |t| && forall j :: 0 <= j < |t| ==> r[j].id == t[j].id
    requires forall j :: n <= j < |t| ==> IndexOfId(xs, t[j].id) == IndexOfId(init, t[j].id)
    requires NewIdsInOrder(t, n, init)
    ensures NewIdsInOrder(r, n, xs)
  {
  }

  /** Appending an id whose first occurrence is after all others keeps the order. */
  lemma NewIdsAppend(t: seq<MapMarker>, x: MapMarker, n: nat, init: seq<MapMarker>, xs: seq<MapMarker>)
    requires n <= |t| && IndexOfId(xs, x.id) == Some(|init|)
    requires forall j :: n <= j < |t| ==> IndexOfId(xs, t[j].id) == IndexOfId(init, t[j].id)
    requires NewIdsInOrder(t, n, init)
    ensures NewIdsInOrder(t + [x], n, xs)
  {
    var r := t + [x];
    assert forall j :: n <= j < |t| ==> r[j] == t[j];
    assert r[|t|] == x;
  }

  lemma NewIdsStep(t: seq<MapMarker>, n: nat, xs: seq<MapMarker>)
    requires xs != [] && n <= |t| && UniqueIds(t)
    requires IdSet(xs[..|xs| - 1]) <= IdSet(t)
    requires NewIdsInOrder(t, n, xs[..|xs| - 1])
    ensures NewIdsInOrder(SetById(t, xs[|xs| - 1]), n, xs)
  {
    var init, x := xs[..|xs| - 1], xs[|xs| - 1];
    forall j | n <= j < |t| ensures IndexOfId(xs, t[j].id) == IndexOfId(init, t[j].id) {
      IndexOfIdPrefix(xs, |xs| - 1, t[j].id);
    }
    match IndexOfId(t, x.id)
    case Some(i) =>
      NewIdsRelabel(t, t[i := x], n, init, xs);
    case None =>
      assert forall j :: 0 <= j < |init| ==> xs[j].id == init[j].id && init[j].id in IdSet(init);
      assert IndexOfId(xs, x.id) == Some(|init|);
      NewIdsAppend(t, x, n, init, xs);
  }

  /**
    New ids are appended after the existing entries in the order of their
    first appearance in `xs`.
   */
  lemma {:induction false} SetAllAppendOrder(ms: seq<MapMarker>, xs: seq<MapMarker>)
    requires UniqueIds(ms)
    ensures NewIdsInOrder(SetAll(ms, xs), |ms|, xs)
  {
    if xs != [] {
      var init := xs[..|xs| - 1];
      SetAllAppendOrder(ms, init);
      SetAllIds(ms, init);
      SetAllKeepsPositions(ms, init);
      NewIdsStep(SetAll(ms, init), |ms|, xs);
    }
  }

  /** The last marker of a list with unique ids has an id no earlier marker has. */
  lemma LastIdFresh(ms: seq<MapMarker>)
    requires ms != [] && UniqueIds(ms)
    ensures ms[|ms| - 1].id !in IdSet(ms[..|ms| - 1])
  {
    assert forall k :: 0 <= k < |ms| - 1 ==> ms[..|ms| - 1][k].id == ms[k].id != ms[|ms| - 1].id;
  }

  lemma UniqueAppend(ms: seq<MapMarker>, m: MapMarker)
    requires UniqueIds(ms) && m.id !in IdSet(ms)
    ensures UniqueIds(ms + [m])
  {
    assert forall i :: 0 <= i < |ms| ==> (ms + [m])[i].id == ms[i].id && ms[i].id in IdSet(ms);
  }

  /** In a list with unique ids, two members with the same id are the same marker. */
  lemma SameIdSameMarker(ms: seq<MapMarker>, a: MapMarker, b: MapMarker)
    requires UniqueIds(ms) && a in ms && b in ms
    ensures a.id == b.id ==> a == b
  {
  }

  /** A list with unique ids is its own `Map`: building the table from it changes nothing. */
  lemma {:induction false} SetAllFromUnique(xs: seq<MapMarker>)
    requires UniqueIds(xs)
    ensures SetAll([], xs) == xs
  {
    if xs != [] {
      var init, x := xs[..|xs| - 1], xs[|xs| - 1];
      SetAllFromUnique(init);
      LastIdFresh(xs);
      assert init + [x] == xs;
    }
  }

  /**
    Filtering a list grown by one marker keeps the marker exactly when it
    is inside; in particular a single marker stays exactly when it is inside.
   */
  lemma KeepInsideSnoc(ms: seq<MapMarker>, x: MapMarker, v: Viewport)
    ensures KeepInside(ms + [x], v) == KeepInside(ms, v) + (if Inside(x, v) then [x] else [])
    ensures KeepInside([x], v) == if Inside(x, v) then [x] else []
  {
    assert (ms + [x])[..|ms + [x]| - 1] == ms;
    assert [x][..0] == [];
  }

  /** `filter` keeps the original order: filtering a concatenation filters each part. */
  lemma {:induction false} KeepInsideAppend(s: seq<MapMarker>, t: seq<MapMarker>, v: Viewport)
    ensures KeepInside(s + t, v) == KeepInside(s, v) + KeepInside(t, v)
  {
    if t == [] {
      assert s + t == s;
    } else {
      var init, x := t[..|t| - 1], t[|t| - 1];
      var last := if Inside(x, v) then [x] else [];
      calc {
        KeepInside(s + t, v);
        { assert s + t == (s + init) + [x]; }
        KeepInside((s + init) + [x], v);
        { KeepInsideSnoc(s + init, x, v); }
        KeepInside(s + init, v) + last;
        { KeepInsideAppend(s, init, v); }
        KeepInside(s, v) + KeepInside(init, v) + last;
        { KeepInsideSnoc(init, x, v); assert t == init + [x]; }
        KeepInside(s, v) + KeepInside(t, v);
      }
    }
  }

  /** Keeping the markers inside a rectangle keeps exactly those, in order, with ids still unique. */
  lemma {:induction false} KeepInsideSpec(ms: seq<MapMarker>, v: Viewport)
    ensures forall m :: m in KeepInside(ms, v) <==> m in ms && Inside(m, v)
    ensures |KeepInside(ms, v)| <= |ms|
    ensures UniqueIds(ms) ==> UniqueIds(KeepInside(ms, v))
    ensures IdSet(KeepInside(ms, v)) <= IdSet(ms)
  {
    if ms != [] {
      var init, x := ms[..|ms| - 1], ms[|ms| - 1];
      KeepInsideSpec(init, v);
      assert ms == init + [x];
      IdSetAppend(init, x);
      var k := KeepInside(init, v);
      if Inside(x, v) {
        IdSetAppend(k, x);
        if UniqueIds(ms) {
          LastIdFresh(ms);
          UniqueAppend(k, x);
        }
      }
    }
  }

  /**
    The cache-hit merge keeps ids unique, keeps every previous marker whose
    id is not cached at its place, and holds the latest cached marker for
    every cached id.
   */
  lemma MergeCachedSpec(prev: seq<MapMarker>, cached: seq<MapMarker>)
    requires UniqueIds(prev)
    ensures UniqueIds(MergeCached(prev, cached))
    ensures |MergeCached(prev, cached)| >= |prev|
    ensures IdSet(MergeCached(prev, cached)) == IdSet(prev) + IdSet(cached)
    ensures forall j :: 0 <= j < |prev| && prev[j].id !in IdSet(cached) ==> MergeCached(prev, cached)[j] == prev[j]
    ensures forall i :: 0 <= i < |cached| && (forall k :: i < k < |cached| ==> cached[k].id != cached[i].id) ==>
      cached[i] in MergeCached(prev, cached)
    ensures NewIdsInOrder(MergeCached(prev, cached), |prev|, cached)
  {
    SetAllFromUnique(prev);
    SetAllAppendOrder(prev, cached);
    SetAllIds(prev, cached);
    SetAllKeepsPositions(prev, cached);
    forall i | 0 <= i < |cached| && (forall k :: i < k < |cached| ==> cached[k].id != cached[i].id)
      ensures cached[i] in MergeCached(prev, cached)
    {
      SetAllLatestWins(prev, cached, i);
    }
  }

  /**
    The fetch merge keeps ids unique, holds the latest fetched marker for
    every fetched id, keeps every previous marker inside the extended
    rectangle, and drops every previous marker outside it that was not
    fetched again.
   */
  lemma MergeFetchedSpec(prev: seq<MapMarker>, ext: Viewport, fetched: seq<MapMarker>)
    requires UniqueIds(prev)
    ensures UniqueIds(MergeFetched(prev, ext, fetched))
    ensures forall i :: 0 <= i < |fetched| && (forall k :: i < k < |fetched| ==> fetched[k].id != fetched[i].id) ==>
      fetched[i] in MergeFetched(prev, ext, fetched)
    ensures forall m :: m in prev && Inside(m, ext) && m.id !in IdSet(fetched) ==> m in MergeFetched(prev, ext, fetched)
    ensures forall m :: m in prev && !Inside(m, ext) && m.id !in IdSet(fetched) ==> m.id !in IdSet(MergeFetched(prev, ext, fetched))
    ensures var kept := KeepInside(prev, ext);
      && |MergeFetched(prev, ext, fetched)| >= |kept|
      && (forall j :: 0 <= j < |kept| ==> MergeFetched(prev, ext, fetched)[j].id == kept[j].id)
      && NewIdsInOrder(MergeFetched(prev, ext, fetched), |kept|, fetched)
  {
    SetAllFromUnique(prev);
    KeepInsideSpec(prev, ext);
    var kept := KeepInside(prev, ext);
    SetAllAppendOrder(kept, fetched);
    SetAllIds(kept, fetched);
    SetAllKeepsPositions(kept, fetched);
    var r := MergeFetched(prev, ext, fetched);
    forall i | 0 <= i < |fetched| && (forall k :: i < k < |fetched| ==> fetched[k].id != fetched[i].id)
      ensures fetched[i] in r
    {
      SetAllLatestWins(kept, fetched, i);
    }
    forall m | m in prev && Inside(m, ext) && m.id !in IdSet(fetched) ensures m in r {
      var j :| 0 <= j < |kept| && kept[j] == m;
      assert r[j] == kept[j];
    }
    forall m | m in prev && !Inside(m, ext) && m.id !in IdSet(fetched) ensures m.id !in IdSet(r) {
      forall a | 0 <= a < |kept| ensures kept[a].id != m.id {
        SameIdSameMarker(prev, kept[a], m);
      }
    }
  }

  /** `new Map(xs.map(m => [m.id, m]))`, entry by entry. */
  method TableOf(xs: seq<MapMarker>) returns (table: seq<MapMarker>)
    ensures table == SetAll([], xs)
  {
    table := [];
    var i := 0;
    while i < |xs|
      invariant 0 <= i <= |xs|
      invariant table == SetAll([], xs[..i])
    {
      assert xs[..i + 1][..i] == xs[..i];
      table := SetById(table, xs[i]);
      i := i + 1;
    }
    assert xs[..|xs|] == xs;
  }

  /** `xs.forEach(m => markerMap.set(m.id, m))`. */
  method SetEach(table: seq<MapMarker>, xs: seq<MapMarker>) returns (r: seq<MapMarker>)
    ensures r == SetAll(table, xs)
  {
    r := table;
    var i := 0;
    while i < |xs|
      invariant 0 <= i <= |xs|
      invariant r == SetAll(table, xs[..i])
    {
      assert xs[..i + 1][..i] == xs[..i];
      r := SetById(r, xs[i]);
      i := i + 1;
    }
    assert xs[..|xs|] == xs;
  }

  /** The `for (const [id, marker] of markerMap)` loop that deletes what lies outside `v`. */
  method DeleteOutside(table: seq<MapMarker>, v: Viewport) returns (r: seq<MapMarker>)
    ensures r == KeepInside(table, v)
  {
    r := [];
    var i := 0;
    while i < |table|
      invariant 0 <= i <= |table|
      invariant r == KeepInside(table[..i], v)
    {
      assert table[..i + 1][..i] == table[..i];
      if Inside(table[i], v) {
        r := r + [table[i]];
      }
      i := i + 1;
    }
    assert table[..|table|] == table;
  }
}
