/**
 * components/AddToWatchlist.tsx: a button that keeps a boolean flag and a
 * stored list of movie ids (strings) under the key `'watchlist'`. Mounting
 * sets the flag from the stored list; a click reads the stored list and
 * decides between adding and removing the id by the flag alone.
 *
 * The same key holds whole media objects when lib/api.ts writes it; this
 * component's store is modelled on its own, holding strings only.
 */
module AddToWatchlistButton {
  import opened Collections
  import opened Storage

  const WatchlistKey: string := "watchlist"

  /** The filter callback `id => id !== movieId`. */
  function IsOtherId(movieId: string): string -> bool
  {
    (id: string) => id != movieId
  }

  /**
   * `watchlist.filter(id => id !== movieId)`: every occurrence of the id is
   * gone and the other ids keep their order and multiplicity.
   */
  function WithoutMovie(list: seq<string>, movieId: string): (r: seq<string>)
    ensures movieId !in r
    ensures forall id :: id != movieId ==> multiset(r)[id] == multiset(list)[id]
    ensures SubsequenceOf(r, list)
  {
    FilterMultiset(list, IsOtherId(movieId));
    FilterIsSubsequence(list, IsOtherId(movieId));
    Filter(list, IsOtherId(movieId))
  }

  /**
   * The list a click stores: the id removed when the flag says it is in the
   * watchlist, every other id kept with its copies and order; the id pushed at
   * the end otherwise.
   */
  function Toggled(list: seq<string>, movieId: string, flag: bool): (r: seq<string>)
    ensures flag ==> movieId !in r && SubsequenceOf(r, list)
    ensures flag ==> forall id :: id != movieId ==> multiset(r)[id] == multiset(list)[id]
    ensures !flag ==> |r| == |list| + 1 && r[..|list|] == list && r[|list|] == movieId
  {
    if flag then WithoutMovie(list, movieId) else list + [movieId]
  }

  /**
   * Starting from a list without the id and the flag off, two clicks give
   * back the original list (and the flag, which each click negates).
   */
  lemma ToggleTwiceRestores(list: seq<string>, movieId: string)
    requires movieId !in list
    ensures Toggled(Toggled(list, movieId, false), movieId, true) == list
  {
    FilterAppend(list, [movieId], IsOtherId(movieId));
    FilterKeepsAll(list, IsOtherId(movieId));
    assert Filter([movieId], IsOtherId(movieId)) == [];
  }

  /**
   * The click reads the stored list but never checks it for the id before
   * pushing: with a stale flag that is off while the id is stored, the id ends
   * up stored twice.
   */
  lemma StaleFlagDuplicates(list: seq<string>, movieId: string)
    requires movieId in list
    ensures multiset(Toggled(list, movieId, false))[movieId] >= 2
  {
    assert multiset(list)[movieId] >= 1;
    assert multiset(list + [movieId]) == multiset(list) + multiset([movieId]);
  }

  class AddToWatchlist {
    /** The `movieId` prop. */
    const movieId: string
    /** The `isInWatchlist` state. */
    var isInWatchlist: bool
    /** The browser's storage, where `'watchlist'` holds a list of ids. */
    const store: KeyValueStore<string>

    /** `useState(false)`: the flag is off until the mount effect runs. */
    constructor (movieId: string, store: KeyValueStore<string>)
      ensures this.movieId == movieId && this.store == store
      ensures !isInWatchlist
    {
      this.movieId := movieId;
      this.store := store;
      isInWatchlist := false;
    }

    /**
     * The mount effect: the flag is on exactly when the stored list (or `[]`
     * when none is stored) contains the id. Storage is not written.
     */
    method Mount()
      modifies this
      ensures isInWatchlist <==> movieId in store.ReadList(WatchlistKey)
    {
      var watchlist := store.ReadList(WatchlistKey);
      isInWatchlist := movieId in watchlist;
    }

    /**
     * `toggleWatchlist`: the stored list becomes the toggled one (the key is
     * written on every click) and the flag is negated.
     */
    method ToggleWatchlist()
      modifies this, store
      ensures store.entries ==
                old(store.entries)[WatchlistKey := Toggled(old(store.ReadList(WatchlistKey)), movieId, old(isInWatchlist))]
      ensures isInWatchlist == !old(isInWatchlist)
    {
      var watchlist := store.ReadList(WatchlistKey);
      if isInWatchlist {
        var newWatchlist := WithoutMovie(watchlist, movieId);
        store.SetItem(WatchlistKey, newWatchlist);
      } else {
        watchlist := watchlist + [movieId];
        store.SetItem(WatchlistKey, watchlist);
      }
      isInWatchlist := !isInWatchlist;
    }
  }
}
