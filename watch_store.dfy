/**
 * The local watch-state store of lib/api.ts: the watchlist (a list without
 * two entries of the same `id`) and the recently-viewed history (move to
 * front, at most ten entries). Every operation reads the whole stored list,
 * computes a new one and writes it back under its key.
 *
 * Entries are compared by `id` alone, exactly as the source compares them,
 * so a movie and a TV show with the same numeric id count as the same entry.
 */
module WatchStore {
  import opened Collections
  import opened Storage
  import opened ApiTypes

  const WatchlistKey: string := "watchlist"
  const RecentlyViewedKey: string := "recentlyViewed"

  /** The length the recently-viewed history is cut to after every insertion. */
  const RecentlyViewedCap: nat := 10

  /** `list.some(entry => entry.id === id)`. */
  predicate HasId(list: seq<Media>, id: int)
  {
    exists k :: 0 <= k < |list| && list[k].Id() == id
  }

  /** No two entries of `list` share an id. */
  predicate DistinctIds(list: seq<Media>)
  {
    forall i, j :: 0 <= i < j < |list| ==> list[i].Id() != list[j].Id()
  }

  /** The filter callback `m => m.id !== id`. */
  function DiffersFrom(id: int): Media -> bool
  {
    (m: Media) => m.Id() != id
  }

  /**
   * `list.filter(m => m.id !== id)`: every entry with that id is gone, every
   * other entry survives with all its copies, in its original order, and a list without the id is
   * returned unchanged.
   */
  function WithoutId(list: seq<Media>, id: int): (r: seq<Media>)
    ensures !HasId(r, id)
    ensures forall m :: m in r <==> m in list && m.Id() != id
    ensures forall m :: multiset(r)[m] == if m.Id() != id then multiset(list)[m] else 0
    ensures SubsequenceOf(r, list)
    ensures !HasId(list, id) ==> r == list
  {
    var r := Filter(list, DiffersFrom(id));
    FilterMultiset(list, DiffersFrom(id));
    FilterIsSubsequence(list, DiffersFrom(id));
    assert forall k :: 0 <= k < |r| ==> DiffersFrom(id)(r[k]);
    if HasId(list, id) then r
    else
      FilterKeepsAll(list, DiffersFrom(id));
      r
  }

  /**
   * The list `addToWatchlist` stores: unchanged when an entry already has
   * the item's id, otherwise the item appended after every earlier entry.
   */
  function Appended(list: seq<Media>, item: Media): (r: seq<Media>)
    ensures HasId(r, item.Id())
    ensures HasId(list, item.Id()) ==> r == list
    ensures !HasId(list, item.Id()) ==> |r| == |list| + 1 && r[..|list|] == list && r[|list|] == item
  {
    if HasId(list, item.Id()) then list
    else
      assert (list + [item])[|list|].Id() == item.Id();
      list + [item]
  }

  /**
   * The list `addToRecentlyViewed` stores: the item first, then the earlier
   * entries without the item's id, in their order, cut to ten entries.
   */
  function MovedToFront(list: seq<Media>, item: Media): (r: seq<Media>)
    ensures 1 <= |r| <= RecentlyViewedCap
    ensures r[0] == item
    ensures forall k :: 1 <= k < |r| ==> r[k].Id() != item.Id()
    ensures r[1..] == Take(WithoutId(list, item.Id()), RecentlyViewedCap - 1)
  {
    var rest := WithoutId(list, item.Id());
    var r := Take([item] + rest, RecentlyViewedCap);
    assert r[1..] == rest[..|r| - 1];
    assert forall k :: 1 <= k < |r| ==> r[k] in rest;
    r
  }

  /** `getWatchlist()`: the stored watchlist, or `[]` when none was stored. */
  function GetWatchlist(store: KeyValueStore<Media>): (r: seq<Media>)
    reads store
    ensures WatchlistKey in store.entries ==> r == store.entries[WatchlistKey]
    ensures WatchlistKey !in store.entries ==> r == []
  {
    store.ReadList(WatchlistKey)
  }

  /** `getRecentlyViewed()`: the stored history, or `[]` when none was stored. */
  function GetRecentlyViewed(store: KeyValueStore<Media>): (r: seq<Media>)
    reads store
    ensures RecentlyViewedKey in store.entries ==> r == store.entries[RecentlyViewedKey]
    ensures RecentlyViewedKey !in store.entries ==> r == []
  {
    store.ReadList(RecentlyViewedKey)
  }

  /** `isInWatchlist(id)`: some stored watchlist entry has that id. */
  function IsInWatchlist(store: KeyValueStore<Media>, id: int): (b: bool)
    reads store
    ensures b <==> exists m :: m in GetWatchlist(store) && m.Id() == id
  {
    HasId(GetWatchlist(store), id)
  }

  /**
   * `addToWatchlist(item)`: storage is left exactly as it was when an entry
   * already has the item's id; otherwise the item is appended to the stored
   * watchlist. Either way the item's id is in the watchlist afterwards.
   */
  method AddToWatchlist(store: KeyValueStore<Media>, item: Media)
    modifies store
    ensures HasId(old(GetWatchlist(store)), item.Id()) ==> store.entries == old(store.entries)
    ensures !HasId(old(GetWatchlist(store)), item.Id()) ==>
              store.entries == old(store.entries)[WatchlistKey := old(GetWatchlist(store)) + [item]]
    ensures GetWatchlist(store) == Appended(old(GetWatchlist(store)), item)
    ensures IsInWatchlist(store, item.Id())
  {
    var watchlist := GetWatchlist(store);
    var isAlreadyInWatchlist := HasId(watchlist, item.Id());
    if !isAlreadyInWatchlist {
      watchlist := watchlist + [item];
      store.SetItem(WatchlistKey, watchlist);
    }
  }

  /**
   * `removeFromWatchlist(id)`: the stored watchlist is replaced by its entries
   * without that id (the key is written even when nothing was removed).
   */
  method RemoveFromWatchlist(store: KeyValueStore<Media>, id: int)
    modifies store
    ensures store.entries == old(store.entries)[WatchlistKey := WithoutId(old(GetWatchlist(store)), id)]
    ensures !IsInWatchlist(store, id)
    ensures !HasId(old(GetWatchlist(store)), id) ==> GetWatchlist(store) == old(GetWatchlist(store))
  {
    var watchlist := GetWatchlist(store);
    var updatedWatchlist := WithoutId(watchlist, id);
    store.SetItem(WatchlistKey, updatedWatchlist);
  }

  /**
   * `addToRecentlyViewed(item)`: the stored history becomes the item followed
   * by the earlier entries of other ids, at most ten entries in all.
   */
  method AddToRecentlyViewed(store: KeyValueStore<Media>, item: Media)
    modifies store
    ensures store.entries == old(store.entries)[RecentlyViewedKey := MovedToFront(old(GetRecentlyViewed(store)), item)]
    ensures 1 <= |GetRecentlyViewed(store)| <= RecentlyViewedCap && GetRecentlyViewed(store)[0] == item
  {
    var recentlyViewed := GetRecentlyViewed(store);
    var updatedRecentlyViewed := MovedToFront(recentlyViewed, item);
    store.SetItem(RecentlyViewedKey, updatedRecentlyViewed);
  }

  /** Adding the same item twice stores the same list as adding it once. */
  lemma AppendedIdempotent(list: seq<Media>, item: Media)
    ensures Appended(Appended(list, item), item) == Appended(list, item)
  {
  }

  /** Adding an item and then removing its id gives back the original list. */
  lemma AppendedThenRemoved(list: seq<Media>, item: Media)
    requires !HasId(list, item.Id())
    ensures WithoutId(Appended(list, item), item.Id()) == list
  {
    assert Appended(list, item) == list + [item];
    FilterAppend(list, [item], DiffersFrom(item.Id()));
    assert Filter([item], DiffersFrom(item.Id())) == [];
    assert Filter(list, DiffersFrom(item.Id())) == WithoutId(list, item.Id()) == list;
  }

  /** A subsequence of a list without repeated ids has no repeated ids. */
  lemma {:induction false} SubsequenceKeepsDistinct(r: seq<Media>, s: seq<Media>)
    requires SubsequenceOf(r, s) && DistinctIds(s)
    ensures DistinctIds(r)
    decreases |s|
  {
    if r != [] {
      if r[0] == s[0] && SubsequenceOf(r[1..], s[1..]) {
        SubsequenceKeepsDistinct(r[1..], s[1..]);
        SubsequenceMembers(r[1..], s[1..]);
        forall j | 0 < j < |r|
          ensures r[0].Id() != r[j].Id()
        {
          assert r[j] == r[1..][j - 1];
          assert r[j] in s[1..];
          var k :| 0 <= k < |s[1..]| && s[1..][k] == r[j];
          assert s[k + 1] == r[j];
        }
        forall i, j | 0 < i < j < |r|
          ensures r[i].Id() != r[j].Id()
        {
          assert r[i] == r[1..][i - 1] && r[j] == r[1..][j - 1];
        }
      } else {
        SubsequenceKeepsDistinct(r, s[1..]);
      }
    }
  }

  /** Adding to the watchlist never introduces two entries of one id. */
  lemma AppendedKeepsDistinct(list: seq<Media>, item: Media)
    requires DistinctIds(list)
    ensures DistinctIds(Appended(list, item))
  {
  }

  /** Removing from the watchlist never introduces two entries of one id. */
  lemma WithoutIdKeepsDistinct(list: seq<Media>, id: int)
    requires DistinctIds(list)
    ensures DistinctIds(WithoutId(list, id))
  {
    SubsequenceKeepsDistinct(WithoutId(list, id), list);
  }

  /** Moving an item to the front of a history without repeated ids keeps it so. */
  lemma MovedToFrontKeepsDistinct(list: seq<Media>, item: Media)
    requires DistinctIds(list)
    ensures DistinctIds(MovedToFront(list, item))
  {
    var r := MovedToFront(list, item);
    var rest := WithoutId(list, item.Id());
    WithoutIdKeepsDistinct(list, item.Id());
    forall i, j | 0 <= i < j < |r|
      ensures r[i].Id() != r[j].Id()
    {
      if i > 0 {
        assert r[i] == r[1..][i - 1] && r[j] == r[1..][j - 1];
        assert r[1..][i - 1] == rest[i - 1] && r[1..][j - 1] == rest[j - 1];
      }
    }
  }

  /** Viewing B again in the history [A, B, C] gives [B, A, C]. */
  lemma MovedToFrontExample(a: Media, b: Media, c: Media)
    requires a.Id() != b.Id() && b.Id() != c.Id()
    ensures MovedToFront([a, b, c], b) == [b, a, c]
  {
    var p := DiffersFrom(b.Id());
    assert Filter([a, b, c], p) == [a, c] by {
      assert [a, b, c] == [a] + [b] + [c];
      FilterAppend([a] + [b], [c], p);
      FilterAppend([a], [b], p);
      assert Filter([a], p) == [a];
      assert Filter([b], p) == [];
      assert Filter([c], p) == [c];
    }
    assert WithoutId([a, b, c], b.Id()) == [a, c];
    assert Take([b] + [a, c], RecentlyViewedCap) == [b, a, c];
  }

  /**
   * Identity is the numeric id alone: a TV show whose id equals a stored
   * movie's id is not added, and removing that id removes the movie.
   */
  lemma IdCollision(movie: TrendingMovie, show: TVShow)
    requires movie.id == show.id
    ensures Appended([Trending(movie)], Show(show)) == [Trending(movie)]
    ensures WithoutId([Trending(movie)], show.id) == []
  {
    assert [Trending(movie)][0].Id() == show.id;
  }
}
