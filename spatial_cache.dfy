/**
  The bounded, expiring cache of viewport results (`cacheRef.current`): a
  list of entries in insertion order. A lookup first drops every entry
  aged 5 minutes or more and then takes the first entry whose rectangle
  contains the query; an insert appends and keeps only the newest 10.
  The payload is the marker list in the marker hook and the projects with
  their `total` and `hasMore` in the commercial card hook.
 */
module SpatialCache {
  import opened Common
  import opened GeoRect

  /** `CACHE_EXPIRY`: 5 minutes, in milliseconds. */
  const CacheExpiry: int := 5 * 60 * 1000
  /** `CACHE_SIZE`. */
  const CacheSize: nat := 10

  datatype Entry<T> = Entry(viewport: Viewport, payload: T, timestamp: int)

  /** The filter's condition `now - entry.timestamp < CACHE_EXPIRY`. */
  predicate Live<T>(e: Entry<T>, now: int)
  {
    now - e.timestamp < CacheExpiry
  }

  /** `entries.filter(entry => now - entry.timestamp < CACHE_EXPIRY)`. */
  function Purge<T>(entries: seq<Entry<T>>, now: int): (r: seq<Entry<T>>)
    ensures |r| <= |entries|
    ensures forall i :: 0 <= i < |r| ==> Live(r[i], now)
  {
    if entries == [] then []
    else (if Live(entries[0], now) then [entries[0]] else []) + Purge(entries[1..], now)
  }

  /**
    Purging a concatenation purges each part: the survivors are exactly the
    live entries, each part's survivors staying in place and in order.
   */
  lemma {:induction false} PurgeAppend<T>(a: seq<Entry<T>>, b: seq<Entry<T>>, now: int)
    ensures Purge(a + b, now) == Purge(a, now) + Purge(b, now)
  {
    if a != [] {
      assert (a + b)[0] == a[0] && (a + b)[1..] == a[1..] + b;
      PurgeAppend(a[1..], b, now);
      var head := if Live(a[0], now) then [a[0]] else [];
      calc {
        Purge(a + b, now);
        head + Purge(a[1..] + b, now);
        head + (Purge(a[1..], now) + Purge(b, now));
        (head + Purge(a[1..], now)) + Purge(b, now);
      }
    } else {
      assert a + b == b;
    }
  }

  /** An entry survives a purge exactly when it is live: nothing live is dropped. */
  lemma {:induction false} PurgeKeepsLive<T>(entries: seq<Entry<T>>, now: int, i: nat)
    requires i < |entries|
    ensures Live(entries[i], now) <==> Purge(entries[..i + 1], now) == Purge(entries[..i], now) + [entries[i]]
  {
    assert entries[..i + 1] == entries[..i] + [entries[i]];
    PurgeAppend(entries[..i], [entries[i]], now);
    assert Purge([entries[i]], now) == (if Live(entries[i], now) then [entries[i]] else []) + Purge([entries[i]][1..], now);
  }

  /** The survivors of a purge are exactly the live entries of the list. */
  lemma {:induction false} PurgeMembers<T>(entries: seq<Entry<T>>, now: int)
    ensures forall e :: e in Purge(entries, now) <==> e in entries && Live(e, now)
  {
    if entries != [] {
      PurgeMembers(entries[1..], now);
      assert entries == [entries[0]] + entries[1..];
    }
  }

  /** Purging twice at the same instant changes nothing more. */
  lemma {:induction false} PurgeIdempotent<T>(entries: seq<Entry<T>>, now: int)
    ensures Purge(Purge(entries, now), now) == Purge(entries, now)
  {
    var r := Purge(entries, now);
    AllLivePurge(r, now);
  }

  lemma {:induction false} AllLivePurge<T>(entries: seq<Entry<T>>, now: int)
    requires forall i :: 0 <= i < |entries| ==> Live(entries[i], now)
    ensures Purge(entries, now) == entries
  {
    if entries != [] {
      AllLivePurge(entries[1..], now);
    }
  }

  /** The index of the first entry whose rectangle contains `query` (`Array.prototype.find`). */
  function FirstContaining<T>(entries: seq<Entry<T>>, query: Viewport): (r: Option<nat>)
    ensures r.Some? ==> r.value < |entries| && Contains(entries[r.value].viewport, query)
    ensures r.Some? ==> forall j :: 0 <= j < r.value ==> !Contains(entries[j].viewport, query)
    ensures r.None? ==> forall j :: 0 <= j < |entries| ==> !Contains(entries[j].viewport, query)
  {
    if entries == [] then None
    else if Contains(entries[0].viewport, query) then Some(0)
    else
      match FirstContaining(entries[1..], query)
      case None => None
      case Some(k) => Some(k + 1)
  }

  /** The entry `find` returns, or `None` for `undefined`. */
  function Find<T>(entries: seq<Entry<T>>, query: Viewport): Option<Entry<T>>
  {
    match FirstContaining(entries, query)
    case None => None
    case Some(i) => Some(entries[i])
  }

  /** `push` the entry, then keep `slice(-CACHE_SIZE)` when the list grew beyond the bound. */
  function Insert<T>(entries: seq<Entry<T>>, e: Entry<T>): seq<Entry<T>>
  {
    var s := entries + [e];
    if |s| > CacheSize then s[|s| - CacheSize..] else s
  }

  /**
    After an insert the cache holds at most 10 entries, ends with the new
    one, and is what remains of the old list plus the new entry once the
    oldest entries are dropped: the survivors keep their order.
   */
  lemma InsertKeepsNewest<T>(entries: seq<Entry<T>>, e: Entry<T>)
    ensures var r := Insert(entries, e);
      && |r| <= CacheSize
      && |r| == (if |entries| < CacheSize then |entries| + 1 else CacheSize)
      && r[|r| - 1] == e
      && r == (entries + [e])[|entries| + 1 - |r|..]
  {
  }

  /** Inserting entries one after another, oldest first. */
  function InsertAll<T>(entries: seq<Entry<T>>, es: seq<Entry<T>>): seq<Entry<T>>
  {
    if es == [] then entries else Insert(InsertAll(entries, es[..|es| - 1]), es[|es| - 1])
  }

  /**
    Starting from an empty cache, any sequence of inserts leaves exactly the
    last `min(n, 10)` entries inserted, in insertion order (FIFO eviction).
   */
  lemma {:induction false} InsertAllKeepsLast<T>(es: seq<Entry<T>>)
    ensures InsertAll([], es) == es[|es| - (if |es| < CacheSize then |es| else CacheSize)..]
  {
    if es != [] {
      var init := es[..|es| - 1];
      InsertAllKeepsLast(init);
      var k := if |init| < CacheSize then |init| else CacheSize;
      assert InsertAll([], init) == init[|init| - k..];
      assert init[|init| - k..] + [es[|es| - 1]] == es[|es| - 1 - k..];
    }
  }

  /** Eleven inserts into an empty cache leave ten entries, and the first one inserted is gone. */
  lemma ElevenInsertsDropFirst<T>(es: seq<Entry<T>>)
    requires |es| == 11
    ensures InsertAll([], es) == es[1..]
    ensures |InsertAll([], es)| == 10
  {
    InsertAllKeepsLast(es);
  }

  /** A lookup after purging never hands out an expired entry. */
  lemma FoundIsLive<T>(entries: seq<Entry<T>>, now: int, query: Viewport)
    requires Find(Purge(entries, now), query).Some?
    ensures Live(Find(Purge(entries, now), query).value, now)
    ensures Contains(Find(Purge(entries, now), query).value.viewport, query)
  {
  }
}
