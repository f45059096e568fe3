/**
  `updateMarkers` of the `GoogleMap` component: the id-keyed reconcile of
  `markersRef`, a JavaScript `Map` from marker id to a Google Maps marker
  object. Ids absent from the new list are detached from the map and
  deleted; ids already present keep their marker object, which is only
  moved; new ids get a new marker object. Listener registration and the
  info window's content are left out.
 */
module GoogleMapLayer {
  import opened Common
  import opened GeoRect
  import opened MapMarkers

  /** A `google.maps.Marker`: its position, whether it is attached to the map, and its title. */
  class Pin {
    var position: LatLng
    var onMap: bool
    const title: string
    /** The id the marker object was created for, as the key it is stored under. */
    ghost const key: string

    /** `new google.maps.Marker({ position, map, title })` for the marker id `key`. */
    constructor(position: LatLng, title: string, ghost key: string)
      ensures this.position == position && this.title == title && this.key == key && onMap
    {
      this.position := position;
      this.title := title;
      this.key := key;
      onMap := true;
    }

    /** `marker.setPosition(p)`. */
    method SetPosition(p: LatLng)
      modifies this
      ensures position == p && onMap == old(onMap)
    {
      position := p;
    }

    /** `marker.setMap(null)`. */
    method Detach()
      modifies this
      ensures !onMap && position == old(position)
    {
      onMap := false;
    }
  }

  /** The last marker of the list with the given id: its position is the one a pin ends up with. */
  function LastWith(ms: seq<MapMarker>, id: string): (r: Option<MapMarker>)
    ensures r.Some? <==> id in IdSet(ms)
    ensures r.Some? ==> r.value.id == id && r.value in ms
  {
    if ms == [] then None
    else
      var init := ms[..|ms| - 1];
      assert ms == init + [ms[|ms| - 1]];
      IdSetAppend(init, ms[|ms| - 1]);
      if ms[|ms| - 1].id == id then Some(ms[|ms| - 1]) else LastWith(init, id)
  }

  /**
    `LastWith` picks the latest occurrence: no later marker carries the id,
    and for a list without repeated ids it is the only marker with that id.
   */
  lemma {:induction false} LastWithIsLast(ms: seq<MapMarker>, id: string, i: nat)
    requires i < |ms| && ms[i].id == id
    ensures LastWith(ms, id).Some?
    ensures (forall k :: i < k < |ms| ==> ms[k].id != id) ==> LastWith(ms, id) == Some(ms[i])
  {
    if i < |ms| - 1 {
      LastWithIsLast(ms[..|ms| - 1], id, i);
      if ms[|ms| - 1].id == id {
        assert ms[|ms| - 1].id == id;
      }
    }
  }

  /** How the first occurrences change when a list prefix grows by one marker. */
  lemma PrefixStep(ms: seq<MapMarker>, i: nat)
    requires i < |ms|
    ensures IdSet(ms[..i + 1]) == IdSet(ms[..i]) + {ms[i].id}
    ensures forall id :: id in IdSet(ms[..i]) ==> IndexOfId(ms[..i + 1], id) == IndexOfId(ms[..i], id)
    ensures ms[i].id !in IdSet(ms[..i]) ==> IndexOfId(ms[..i + 1], ms[i].id) == Some(i)
  {
    assert ms[..i + 1] == ms[..i] + [ms[i]];
    assert ms[..i + 1][..i] == ms[..i];
    IdSetAppend(ms[..i], ms[i]);
    forall id | id in IdSet(ms[..i])
      ensures IndexOfId(ms[..i + 1], id) == IndexOfId(ms[..i], id)
    {
      IndexOfIdPrefix(ms[..i + 1], i, id);
    }
    if ms[i].id !in IdSet(ms[..i]) {
      assert forall j :: 0 <= j < i ==> ms[..i][j].id != ms[i].id;
    }
  }

  /** The positions after setting each marker's position in list order, starting from `start`. */
  ghost function Positions(start: map<string, LatLng>, ms: seq<MapMarker>): map<string, LatLng>
  {
    if ms == [] then start
    else Positions(start, ms[..|ms| - 1])[ms[|ms| - 1].id := ms[|ms| - 1].position]
  }

  lemma {:induction false} PositionsKeys(start: map<string, LatLng>, ms: seq<MapMarker>)
    ensures Positions(start, ms).Keys == start.Keys + IdSet(ms)
  {
    if ms != [] {
      var i := |ms| - 1;
      PositionsKeys(start, ms[..i]);
      assert ms == ms[..i] + [ms[i]];
      IdSetAppend(ms[..i], ms[i]);
    }
  }

  /** An id of the list ends at the position of its last occurrence. */
  lemma {:induction false} PositionsLast(start: map<string, LatLng>, ms: seq<MapMarker>, id: string)
    requires id in IdSet(ms)
    ensures id in Positions(start, ms) && Positions(start, ms)[id] == LastWith(ms, id).value.position
  {
    var i := |ms| - 1;
    assert ms == ms[..i] + [ms[i]];
    IdSetAppend(ms[..i], ms[i]);
    if ms[i].id != id {
      PositionsLast(start, ms[..i], id);
    }
  }

  /** An id absent from the list keeps its starting position. */
  lemma {:induction false} PositionsUntouched(start: map<string, LatLng>, ms: seq<MapMarker>, id: string)
    requires id in start && id !in IdSet(ms)
    ensures id in Positions(start, ms) && Positions(start, ms)[id] == start[id]
  {
    if ms != [] {
      var i := |ms| - 1;
      assert ms == ms[..i] + [ms[i]];
      IdSetAppend(ms[..i], ms[i]);
      PositionsUntouched(start, ms[..i], id);
    }
  }

  /** The title of the first occurrence of each id. */
  ghost function Titles(ms: seq<MapMarker>): map<string, string>
  {
    if ms == [] then map[]
    else
      var t := Titles(ms[..|ms| - 1]);
      var m := ms[|ms| - 1];
      if m.id in t then t else t[m.id := m.title]
  }

  lemma {:induction false} TitlesKeys(ms: seq<MapMarker>)
    ensures Titles(ms).Keys == IdSet(ms)
  {
    if ms != [] {
      var i := |ms| - 1;
      TitlesKeys(ms[..i]);
      PrefixStep(ms, i);
      assert ms[..i + 1] == ms;
    }
  }

  /** `Titles` holds, for every id of the list, the title of its first occurrence. */
  lemma {:induction false} TitlesSpec(ms: seq<MapMarker>)
    ensures Titles(ms).Keys == IdSet(ms)
    ensures forall id :: id in Titles(ms) ==> Titles(ms)[id] == ms[IndexOfId(ms, id).value].title
  {
    TitlesKeys(ms);
    if ms != [] {
      var i := |ms| - 1;
      TitlesSpec(ms[..i]);
      TitlesKeys(ms[..i]);
      PrefixStep(ms, i);
      assert ms[..i + 1] == ms;
      forall id | id in IdSet(ms[..i])
        ensures ms[..i][IndexOfId(ms[..i], id).value] == ms[IndexOfId(ms, id).value]
      {
      }
    }
  }

  /** The title `Titles` keeps for one id of the list is that of its first occurrence. */
  lemma TitleOf(ms: seq<MapMarker>, id: string)
    requires id in IdSet(ms)
    ensures id in Titles(ms) && Titles(ms)[id] == ms[IndexOfId(ms, id).value].title
  {
    TitlesSpec(ms);
  }

  /** Growing the handled prefix by one marker sets its position and, for a new id, its title. */
  lemma MapsStep(start: map<string, LatLng>, ms: seq<MapMarker>, i: nat)
    requires i < |ms|
    ensures Positions(start, ms[..i + 1]) == Positions(start, ms[..i])[ms[i].id := ms[i].position]
    ensures Titles(ms[..i + 1]) ==
      if ms[i].id in Titles(ms[..i]) then Titles(ms[..i]) else Titles(ms[..i])[ms[i].id := ms[i].title]
  {
    assert ms[..i + 1][..i] == ms[..i];
  }

  /** The id-to-marker table of one map, and whether the map and its info window exist yet. */
  class MarkerLayer {
    var ready: bool
    var pins: map<string, Pin>
    /** Every marker object this table has held, stored or detached. */
    ghost var Repr: set<Pin>

    /** Every stored marker is on the map, each under the id it was created for (so no
      marker object is stored under two ids). */
    ghost predicate Valid()
      reads this, Repr
    {
      && (forall id :: id in pins ==> pins[id] in Repr && pins[id].onMap)
      && (forall id :: id in pins ==> pins[id].key == id)
    }

    constructor(ready: bool)
      ensures Valid() && this.ready == ready && pins == map[]
    {
      this.ready := ready;
      pins := map[];
      Repr := {};
    }

    /**
      The table after reconciling the table `before` with `markers`: exactly
      the ids of the list are stored; an id that was stored keeps its object;
      an id that was dropped has its object detached; an object under a new
      id is new since `R0` and titled by the first occurrence of the id; and
      every object stands at the position of the last occurrence of its id.
     */
    ghost predicate Reconciled(markers: seq<MapMarker>, before: map<string, Pin>, R0: set<Pin>)
      reads this, Repr, before.Values
    {
      && Valid()
      && pins.Keys == IdSet(markers)
      && (forall id :: id in before && id in IdSet(markers) ==> pins[id] == before[id])
      && (forall id :: id in before && id !in IdSet(markers) ==> !before[id].onMap)
      && (forall id :: id in pins && id !in before ==>
            pins[id] !in R0 && pins[id].title == markers[IndexOfId(markers, id).value].title)
      && (forall id :: id in pins ==> pins[id].position == LastWith(markers, id).value.position)
    }

    /**
      `updateMarkers()` for the list `markers`: nothing happens before the map
      exists; afterwards the table is reconciled with the list, and the new
      marker objects are the only objects created.
     */
    method UpdateMarkers(markers: seq<MapMarker>)
      requires Valid()
      modifies this, Repr
      ensures Valid() && ready == old(ready) && fresh(Repr - old(Repr))
      ensures !ready ==> pins == old(pins) && unchanged(this) && unchanged(Repr)
      ensures !ready ==> forall id :: id in pins ==> pins[id].position == old(pins[id].position) && pins[id].onMap == old(pins[id].onMap)
      ensures ready ==> Reconciled(markers, old(pins), old(Repr))
    {
      if !ready {
        return;
      }
      RemoveAbsent(markers);
      ghost var kept := pins;
      AddOrMove(markers);
      forall id | id in old(pins) && id !in IdSet(markers)
        ensures !old(pins[id]).onMap
      {
        assert old(pins[id]).key == id && id !in kept;
        assert old(pins[id]) !in kept.Values;
      }
    }

    /**
      Reconciling a table whose ids are already those of the list creates and
      drops nothing: the table holds the very same marker objects.
     */
    lemma SameIdsKeepObjects(markers: seq<MapMarker>, before: map<string, Pin>, R0: set<Pin>)
      requires before.Keys == IdSet(markers) && Reconciled(markers, before, R0)
      ensures pins == before
    {
      assert pins.Keys == before.Keys;
      forall id | id in pins
        ensures pins[id] == before[id]
      {
      }
    }

    /** The first `forEach`: every id absent from `markers` is detached and deleted. */
    method RemoveAbsent(markers: seq<MapMarker>)
      requires Valid()
      modifies Repr, `pins
      ensures Valid() && Repr == old(Repr)
      ensures pins.Keys == old(pins).Keys * IdSet(markers)
      ensures forall id :: id in pins ==> pins[id] == old(pins[id])
      ensures forall id :: id in old(pins) && id !in pins ==> !old(pins[id]).onMap
    {
      ghost var before := pins;
      var keys := pins.Keys;
      while keys != {}
        invariant keys <= before.Keys && pins.Keys <= before.Keys
        invariant forall id :: id in pins ==> pins[id] == before[id]
        invariant forall id :: id in keys ==> id in pins
        invariant forall id :: id in before && id !in keys ==> (id in pins <==> id in IdSet(markers))
        invariant forall id :: id in before && id !in pins ==> !before[id].onMap
        invariant Valid()
        invariant forall id :: id in before ==> before[id] in Repr && before[id].key == id
        decreases keys
      {
        var id :| id in keys;
        keys := keys - {id};
        if IndexOfId(markers, id).None? {
          pins[id].Detach();
          pins := pins - {id};
        }
      }
    }

    /** The positions of the stored marker objects. */
    ghost function StoredPositions(table: map<string, Pin>): map<string, LatLng>
      reads table.Values
    {
      map id | id in table :: table[id].position
    }

    /**
      The table after the second `forEach` over `markers`, when it began with
      the table `before`: exactly the ids of the list are stored, ids already
      stored keep their objects, an object under a new id is new since `R0`
      and titled by the first occurrence of the id, and every object stands
      at the position of the last occurrence of its id.
     */
    ghost predicate Settled(markers: seq<MapMarker>, before: map<string, Pin>, R0: set<Pin>)
      reads this, Repr
    {
      && Valid()
      && pins.Keys == IdSet(markers)
      && (forall id :: id in before ==> id in pins && pins[id] == before[id])
      && (forall id :: id in pins && id !in before ==>
            pins[id] !in R0 && pins[id].title == markers[IndexOfId(markers, id).value].title)
      && (forall id :: id in pins ==> pins[id].position == LastWith(markers, id).value.position)
    }

    /**
      The table part-way through the second `forEach`: the ids stored before
      it began keep their objects (`kept`), the stored ids are those of `kept`
      and of `titles`, positions are those of `pos`, and every object not in
      `kept` is new since `R0` and carries the title `titles` gives its id.
     */
    ghost predicate Placed(kept: map<string, Pin>, pos: map<string, LatLng>, titles: map<string, string>, R0: set<Pin>)
      reads this, Repr
    {
      && Valid()
      && pins.Keys == kept.Keys + titles.Keys
      && pins.Keys == pos.Keys
      && (forall id :: id in pins ==> pins[id].position == pos[id])
      && (forall id :: id in kept ==> pins[id] == kept[id])
      && (forall id :: id in pins && id !in kept ==> pins[id] !in R0 && pins[id].title == titles[id])
    }

    /**
      The second `forEach`, in list order: an id already stored moves its
      marker object; a new id gets a new one, titled by its first occurrence.
     */
    method AddOrMove(markers: seq<MapMarker>)
      requires Valid() && pins.Keys <= IdSet(markers)
      modifies pins.Values, `pins, `Repr
      ensures fresh(Repr - old(Repr))
      ensures Settled(markers, old(pins), old(Repr))
    {
      ghost var kept := pins;
      ghost var start := StoredPositions(kept);
      ghost var pos := start;
      ghost var titles: map<string, string> := map[];
      var i := 0;
      while i < |markers|
        invariant 0 <= i <= |markers|
        invariant pos == Positions(start, markers[..i]) && titles == Titles(markers[..i])
        invariant fresh(Repr - old(Repr))
        invariant Placed(kept, pos, titles, old(Repr))
      {
        var m := markers[i];
        MapsStep(start, markers, i);
        PlaceNext(m, kept, pos, titles, old(Repr));
        pos := pos[m.id := m.position];
        titles := if m.id in titles then titles else titles[m.id := m.title];
        i := i + 1;
      }
      assert markers[..i] == markers;
      PlacedAllSettled(markers, kept, start, old(Repr));
    }

    /** Once the whole list is handled, the table is settled. */
    lemma PlacedAllSettled(markers: seq<MapMarker>, kept: map<string, Pin>, start: map<string, LatLng>, R0: set<Pin>)
      requires kept.Keys <= IdSet(markers)
      requires Placed(kept, Positions(start, markers), Titles(markers), R0)
      ensures Settled(markers, kept, R0)
    {
      TitlesKeys(markers);
      forall id | id in pins
        ensures pins[id].position == LastWith(markers, id).value.position
      {
        PositionsLast(start, markers, id);
      }
      forall id | id in pins && id !in kept
        ensures pins[id].title == markers[IndexOfId(markers, id).value].title
      {
        TitleOf(markers, id);
      }
    }

    /**
      One step of the second `forEach` (`get`, then `setPosition` or `new
      Marker` and `set`), as it moves the ghost maps `pos` and `titles` on.
     */
    method PlaceNext(m: MapMarker, ghost kept: map<string, Pin>, ghost pos: map<string, LatLng>,
                     ghost titles: map<string, string>, ghost R0: set<Pin>)
      requires Placed(kept, pos, titles, R0)
      modifies `pins, `Repr, pins.Values
      ensures fresh(Repr - old(Repr))
      ensures Placed(kept, pos[m.id := m.position], if m.id in titles then titles else titles[m.id := m.title], R0)
    {
      if m.id in pins {
        Move(m, kept, pos, titles, R0);
      } else {
        Add(m, kept, pos, titles, R0);
      }
    }

    /** `setPosition` on the object already stored under the id. */
    method Move(m: MapMarker, ghost kept: map<string, Pin>, ghost pos: map<string, LatLng>,
                ghost titles: map<string, string>, ghost R0: set<Pin>)
      requires Placed(kept, pos, titles, R0) && m.id in pins
      modifies pins[m.id]
      ensures Placed(kept, pos[m.id := m.position], if m.id in titles then titles else titles[m.id := m.title], R0)
    {
      pins[m.id].SetPosition(m.position);
      assert m.id in titles || m.id in kept;
    }

    /** `new Marker` for an id not yet stored, and `set` under that id. */
    method Add(m: MapMarker, ghost kept: map<string, Pin>, ghost pos: map<string, LatLng>,
               ghost titles: map<string, string>, ghost R0: set<Pin>)
      requires Placed(kept, pos, titles, R0) && m.id !in pins
      modifies `pins, `Repr
      ensures fresh(Repr - old(Repr))
      ensures Placed(kept, pos[m.id := m.position], if m.id in titles then titles else titles[m.id := m.title], R0)
    {
      NewPin(m);
    }

    /** `new google.maps.Marker(...)` on the map, stored under the marker's id. */
    method NewPin(m: MapMarker)
      modifies `pins, `Repr
      ensures m.id in pins && fresh(pins[m.id])
      ensures pins == old(pins)[m.id := pins[m.id]] && Repr == old(Repr) + {pins[m.id]}
      ensures pins[m.id].position == m.position && pins[m.id].title == m.title
      ensures pins[m.id].key == m.id && pins[m.id].onMap
    {
      var pin := new Pin(m.position, m.title, m.id);
      pins, Repr := pins[m.id := pin], Repr + {pin};
    }
  }
}
