/**
 * The client side of recommendations (components/Recommendations.tsx): the browser cache of
 * earlier answers, which is cleaned of expired entries when the component loads, and the
 * conversion of the endpoint's results into media items with repeated ids dropped.
 */
module RecommendationsView {
  import opened Wrappers
  import opened Text
  import opened MediaTypes

  // ---------------------------------------------------------------------------------------------
  // The cache in localStorage

  /** `CachedRecommendationEntry` */
  datatype Entry = Entry(expiry: int, id: string, kind: string, recommendations: seq<MediaItem>)

  /** The slot "tmdb-recommendations" as the cleanup reads it: nothing (or the empty text), text
      whose parsing or reading throws, or a table of entries by TMDB id. */
  datatype CacheSlot = Missing | Unreadable | Stored(entries: map<string, Entry>)

  /** The entries still live at `now`: expiry is strict, an entry expiring at `now` is dropped. */
  function Live(cache: map<string, Entry>, now: int): (r: map<string, Entry>)
    ensures forall k :: k in r <==> k in cache && now < cache[k].expiry
    ensures forall k :: k in r ==> r[k] == cache[k]
  {
    map k | k in cache && now < cache[k].expiry :: cache[k]
  }

  /** Cleaning twice at the same time keeps what cleaning once kept. */
  lemma LiveIdempotent(cache: map<string, Entry>, now: int)
    ensures Live(Live(cache, now), now) == Live(cache, now)
  {
  }

  /** A later cleanup after an earlier one keeps what a single later cleanup would. */
  lemma LiveLater(cache: map<string, Entry>, now: int, later: int)
    requires now <= later
    ensures Live(Live(cache, now), later) == Live(cache, later)
  {
  }

  class RecommendationCache {
    /** `typeof window !== "undefined"` */
    const inBrowser: bool
    var slot: CacheSlot

    constructor (inBrowser: bool, slot: CacheSlot)
      ensures this.inBrowser == inBrowser && this.slot == slot
    {
      this.inBrowser := inBrowser;
      this.slot := slot;
    }

    /** `cleanupCache()` at time `now`: outside a browser, with nothing stored, or when reading
        fails it returns `{}` and writes nothing; otherwise it keeps the live entries under their
        own keys, writes them back and returns them. */
    method CleanupCache(now: int) returns (cleaned: map<string, Entry>)
      modifies this
      ensures !inBrowser || !old(slot).Stored? ==> cleaned == map[] && slot == old(slot)
      ensures inBrowser && old(slot).Stored? ==>
        cleaned == Live(old(slot).entries, now) && slot == Stored(cleaned)
    {
      if !inBrowser {
        return map[];
      }
      if !slot.Stored? {
        return map[];
      }
      var cache := slot.entries;
      cleaned := map[];
      var pending := cache.Keys;
      while pending != {}
        invariant pending <= cache.Keys
        invariant forall k :: k in cleaned <==> k in cache && k !in pending && now < cache[k].expiry
        invariant forall k :: k in cleaned ==> cleaned[k] == cache[k]
        decreases pending
      {
        var id :| id in pending;
        var entry := cache[id];
        if now < entry.expiry {
          cleaned := cleaned[id := entry];
        }
        pending := pending - {id};
      }
      slot := Stored(cleaned);
    }
  }

  // ---------------------------------------------------------------------------------------------
  // From search results to media items

  /** One element of the endpoint's `recommendations`: a TMDB search result whose ids have been
      replaced by tokens. */
  datatype SearchResult = SearchResult(
    id: MediaId,
    title: Option<string>,
    originalTitle: Option<string>,
    name: Option<string>,
    posterPath: Option<string>,
    backdropPath: Option<string>,
    overview: Option<string>,
    releaseDate: Option<string>,
    voteAverage: Option<real>,
    voteCount: Option<real>,
    originalLanguage: Option<string>)

  /** The conversion applied to each result: the title is the first truthy of `title`,
      `original_title` and `name` (the last of them when none is), missing votes count as 0, the
      language defaults to "" and every item is marked as a movie. */
  function ToMediaItem(m: SearchResult): (r: MediaItem)
    ensures r.id == m.id && r.name.None?
    ensures Truthy(m.title) ==> r.title == m.title
    ensures !Truthy(m.title) && Truthy(m.originalTitle) ==> r.title == m.originalTitle
    ensures !Truthy(m.title) && !Truthy(m.originalTitle) ==> r.title == m.name
    ensures Truthy(r.title) <==> Truthy(m.title) || Truthy(m.originalTitle) || Truthy(m.name)
    ensures r.voteAverage == if m.voteAverage.Some? then m.voteAverage.value else 0.0
    ensures r.voteCount == if m.voteCount.Some? then m.voteCount.value else 0.0
    ensures r.mediaType == Some("movie")
    ensures r.originalLanguage == Some(if Truthy(m.originalLanguage) then m.originalLanguage.value else "")
    ensures r.posterPath == m.posterPath && r.backdropPath == m.backdropPath
    ensures r.overview == m.overview && r.releaseDate == m.releaseDate
  {
    MediaItem(
      id := m.id,
      title := if Truthy(m.title) then m.title else if Truthy(m.originalTitle) then m.originalTitle else m.name,
      name := None,
      posterPath := m.posterPath,
      backdropPath := m.backdropPath,
      overview := m.overview,
      releaseDate := m.releaseDate,
      voteAverage := m.voteAverage.GetOr(0.0),
      voteCount := m.voteCount.GetOr(0.0),
      mediaType := Some("movie"),
      originalLanguage := Some(m.originalLanguage.GetOr("")))
  }

  /** `data.recommendations.map(...)` */
  function ToMediaItems(results: seq<SearchResult>): (items: seq<MediaItem>)
    ensures |items| == |results|
    ensures forall i :: 0 <= i < |items| ==> items[i] == ToMediaItem(results[i])
  {
    seq(|results|, i requires 0 <= i < |results| => ToMediaItem(results[i]))
  }

  // ---------------------------------------------------------------------------------------------
  // Dropping repeated ids

  /** No earlier item has the id of item `i`. Ids are compared as the `Set` does: a number and a
      string are never the same id. */
  predicate IsFirst(items: seq<MediaItem>, i: int)
    requires 0 <= i < |items|
  {
    forall j :: 0 <= j < i ==> items[j].id != items[i].id
  }

  /** The items that are the first with their id, in order. */
  function Firsts(items: seq<MediaItem>): (r: seq<MediaItem>)
    ensures |r| <= |items|
    ensures forall x :: x in r ==> x in items
  {
    if items == [] then []
    else
      var n := |items| - 1;
      assert forall x :: x in items[..n] ==> x in items;
      Firsts(items[..n]) + (if IsFirst(items, n) then [items[n]] else [])
  }

  /** The ids of some items. */
  function Ids(items: seq<MediaItem>): set<MediaId> {
    set x | x in items :: x.id
  }

  /** No two items have the same id. */
  predicate DistinctIds(items: seq<MediaItem>) {
    forall i, j :: 0 <= i < j < |items| ==> items[i].id != items[j].id
  }

  lemma IdsAppend(items: seq<MediaItem>, x: MediaItem)
    ensures Ids(items + [x]) == Ids(items) + {x.id}
  {
    assert forall y :: y in items + [x] <==> y in items || y == x;
  }

  /** The items kept carry every id of the input, and only those. */
  lemma {:induction false} FirstsKeepIds(items: seq<MediaItem>)
    ensures Ids(Firsts(items)) == Ids(items)
  {
    if items != [] {
      var n := |items| - 1;
      var front := items[..n];
      assert items == front + [items[n]];
      FirstsKeepIds(front);
      IdsAppend(front, items[n]);
      if IsFirst(items, n) {
        IdsAppend(Firsts(front), items[n]);
      } else {
        var j :| 0 <= j < n && items[j].id == items[n].id;
        assert front[j] in front;
      }
    }
  }

  /** No id is kept twice. */
  lemma {:induction false} FirstsDistinct(items: seq<MediaItem>)
    ensures DistinctIds(Firsts(items))
  {
    if items != [] {
      var n := |items| - 1;
      var front := items[..n];
      FirstsDistinct(front);
      if IsFirst(items, n) {
        FirstsKeepIds(front);
        var kept := Firsts(front);
        assert items[n].id !in Ids(front);
        forall i | 0 <= i < |kept|
          ensures kept[i].id != items[n].id
        {
          assert kept[i] in kept;
        }
      }
    }
  }

  /** Items whose ids are already distinct are all kept, in order. */
  lemma {:induction false} FirstsOfDistinct(items: seq<MediaItem>)
    requires DistinctIds(items)
    ensures Firsts(items) == items
  {
    if items != [] {
      var n := |items| - 1;
      var front := items[..n];
      assert DistinctIds(front);
      FirstsOfDistinct(front);
      assert IsFirst(items, n);
      assert items == front + [items[n]];
    }
  }

  /** Dropping repeated ids a second time changes nothing. */
  lemma FirstsIdempotent(items: seq<MediaItem>)
    ensures Firsts(Firsts(items)) == Firsts(items)
  {
    FirstsDistinct(items);
    FirstsOfDistinct(Firsts(items));
  }

  /** The `seenIds` filter: one pass that keeps an item when its id has not been seen and then
      records the id. */
  method DedupeById(allMediaItems: seq<MediaItem>) returns (mediaItems: seq<MediaItem>)
    ensures mediaItems == Firsts(allMediaItems)
  {
    var seenIds: set<MediaId> := {};
    mediaItems := [];
    for i := 0 to |allMediaItems|
      invariant mediaItems == Firsts(allMediaItems[..i])
      invariant seenIds == Ids(allMediaItems[..i])
    {
      var item := allMediaItems[i];
      var prefix := allMediaItems[..i + 1];
      assert prefix[..i] == allMediaItems[..i];
      assert item.id in seenIds <==> !IsFirst(prefix, i) by {
        if item.id in seenIds {
          var x :| x in allMediaItems[..i] && x.id == item.id;
          var j :| 0 <= j < i && allMediaItems[..i][j] == x;
          assert prefix[j].id == prefix[i].id;
        }
        if !IsFirst(prefix, i) {
          var j :| 0 <= j < i && prefix[j].id == prefix[i].id;
          assert prefix[j] in allMediaItems[..i];
        }
      }
      if item.id !in seenIds {
        seenIds := seenIds + {item.id};
        mediaItems := mediaItems + [item];
      }
      assert Ids(prefix) == Ids(allMediaItems[..i]) + {item.id} by {
        assert prefix == allMediaItems[..i] + [item];
      }
    }
    assert allMediaItems[..|allMediaItems|] == allMediaItems;
  }

  /** What the view shows for a list of results: every result's id exactly once. */
  lemma RecommendedIds(results: seq<SearchResult>)
    ensures Ids(Firsts(ToMediaItems(results))) == set m | m in results :: m.id
    ensures DistinctIds(Firsts(ToMediaItems(results)))
  {
    var items := ToMediaItems(results);
    FirstsKeepIds(items);
    FirstsDistinct(items);
    forall x | x in Ids(items)
      ensures x in set m | m in results :: m.id
    {
      var y :| y in items && y.id == x;
      var i :| 0 <= i < |items| && items[i] == y;
      assert results[i] in results;
    }
    forall x | x in set m | m in results :: m.id
      ensures x in Ids(items)
    {
      var m :| m in results && m.id == x;
      var i :| 0 <= i < |results| && results[i] == m;
      assert items[i] in items;
    }
  }
}
