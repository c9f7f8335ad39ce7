# CineStream watch-state and selection logic in Dafny

This project models the small list and index logic of the CineStream movie and TV front end:

- the watchlist and the recently-viewed history that `lib/api.ts` keeps in the browser's `localStorage`;
- the helpers in `lib/api.ts` that run after a fetch: image URL composition, genre names, the genre filter, the two suggestion filters and the Fisher–Yates shuffle;
- the rotating start index and six-item window of the `Carousel` component;
- the `AddToWatchlist` toggle button;
- removal on the "My List" page.

`localStorage` is a `KeyValueStore<V>` object (`storage.dfy`). It maps each key to the list stored there. Every caller writes `JSON.stringify(list)` and reads it back with `JSON.parse`, so that round trip is taken to be exact and the list itself is stored. A function or component that reads or writes storage takes the store as a parameter or holds it in a field. Data the source fetches over the network is passed in as a parameter.

Files:

- `collections.dfy`: `Option`, `Result`, `Array.prototype.filter` as `Filter`, `slice` as `Slice`/`Take`, the subsequence order and their lemmas.
- `storage.dfy`: the key/value store class.
- `api_types.dfy`: the view models of `lib/api.ts` (`TrendingMovie`, `MovieDetails`, `TVShow`, the union `Media`).
- `watch_store.dfy`: `addToWatchlist`, `removeFromWatchlist`, `getWatchlist`, `isInWatchlist`, `addToRecentlyViewed`, `getRecentlyViewed`.
- `catalog.dfy`: `getImageUrl`, `genreMap`, `getGenreNames`, the filter parts of `getMoviesByGenre`, `getSuggestedMovies` and `getSuggestedTVShows`, `shuffleArray`, and the field check of `getTVShowDetails`.
- `carousel.dfy`: `components/Carousel.tsx`.
- `add_to_watchlist.dfy`: `components/AddToWatchlist.tsx`.
- `my_list.dfy`: `app/my-list/page.tsx`.

Where the code behaves differently from what a reader might expect, the model follows the code:

- **Identity is `id` alone.** `lib/api.ts` compares stored entries by `id` only. Identifying entries by (kind, id) would keep a movie and a TV show with the same id apart. The code does not: adding the show is a no-op when the movie is stored, and removing the id removes the movie. `WatchStore.IdCollision` proves both. The code that uses the `'myList'` key (the "My List" page, and the movie and TV detail pages) compares the pair (id, type) instead; for the page's removal `MyList.SameIdOtherTypeKept` shows that.
- **Unreadable stored data is not treated as empty.** The code calls `JSON.parse` on whatever is stored, so malformed data throws. The model stores lists, so it has no malformed data and claims nothing about it.
- **Two meanings of `'watchlist'`.** `AddToWatchlist.tsx` stores an array of id strings under the same key where `lib/api.ts` stores whole media objects. The two are modelled as separate stores and are not reconciled.
- **The toggle trusts its flag.** Each click reads the stored list but never checks it for the id before pushing; it decides between adding and removing by the flag alone. A flag that is stale-false while the id is stored therefore stores the id a second time (`AddToWatchlistButton.StaleFlagDuplicates`).
- **An empty carousel produces NaN.** With no items, `(i + 1) % 0` is NaN in JavaScript. The index is therefore a `JsNumber` that is either an integer or `NaN`. `slice` treats NaN as 0, so the window is empty.

The `type` field of a "My List" entry is called `kind`, because `type` is a reserved word in Dafny.

## Model

| member | source | states |
|---|---|---|
| `Storage.KeyValueStore.ReadList` | lib/api.ts:138-139 | the stored list under a key, or `[]` when the key was never written |
| `Storage.KeyValueStore.SetItem` | lib/api.ts:127 | the whole list under the key is replaced and every other key is unchanged |
| `WatchStore.GetWatchlist` | lib/api.ts:137-140 | the stored `'watchlist'` sequence exactly, or `[]` when the key is absent |
| `WatchStore.GetRecentlyViewed` | lib/api.ts:237-240 | the stored `'recentlyViewed'` sequence exactly, or `[]` when the key is absent |
| `WatchStore.IsInWatchlist` | lib/api.ts:142-145 | true iff some stored watchlist entry has the id |
| `WatchStore.Appended` | lib/api.ts:122-129 | the item's id is present afterwards; the list is unchanged when the id was present; otherwise the old list is a prefix and the item is last |
| `WatchStore.AddToWatchlist` | lib/api.ts:122-129 | storage is untouched when an entry has the item's id; otherwise the item is appended to the stored watchlist; `isInWatchlist(item.id)` holds afterwards |
| `WatchStore.WithoutId` | lib/api.ts:133 | no entry with the id remains; every other entry remains with all its copies, as a subsequence of the input (order kept); a list without the id is returned unchanged |
| `WatchStore.RemoveFromWatchlist` | lib/api.ts:131-135 | the stored watchlist becomes the list without the id; afterwards the id is not in the watchlist; removing an absent id leaves the watchlist as it was |
| `WatchStore.MovedToFront` | lib/api.ts:233 | the item is first, there are at most 10 entries, no other entry has the item's id, and the rest is the old list without that id, in order, cut to 9 |
| `WatchStore.AddToRecentlyViewed` | lib/api.ts:231-235 | the stored history becomes the moved-to-front list; it is non-empty, at most 10 long and starts with the item |
| `WatchStore.AppendedIdempotent` | lib/api.ts:124-128 | adding the same item twice stores the same list as adding it once |
| `WatchStore.AppendedThenRemoved` | lib/api.ts:122-135 | adding an item whose id is absent and then removing that id restores the list |
| `WatchStore.AppendedKeepsDistinct` | lib/api.ts:124-128 | adding keeps a watchlist free of repeated ids |
| `WatchStore.WithoutIdKeepsDistinct` | lib/api.ts:133 | removing keeps a watchlist free of repeated ids |
| `WatchStore.MovedToFrontKeepsDistinct` | lib/api.ts:233 | a history without repeated ids keeps none after an insertion |
| `WatchStore.MovedToFrontExample` | lib/api.ts:233 | viewing B in the history [A, B, C] gives [B, A, C] |
| `WatchStore.IdCollision` | lib/api.ts:124-133 | a TV show whose id equals a stored movie's id is not added, and removing that id removes the movie |
| `Catalog.GetImageUrl` | lib/api.ts:98-104 | the placeholder iff the path is null or empty; otherwise the URL starts with the CORS proxy and ends with the path; an `http` path follows the proxy directly; any other path follows the proxy, the TMDB base URL and the size |
| `Catalog.ImageUrlDefaultSize` | lib/api.ts:98-104 | with the default size `'w500'`, `/abc.jpg` resolves behind the proxy to a URL ending in `w500/abc.jpg` |
| `Catalog.AbsoluteAndRelativeAgree` | lib/api.ts:100-103 | a full TMDB image URL and its relative path resolve to the same proxied URL |
| `Catalog.MappedNameIsKnown` | lib/api.ts:177-197 | every name in `genreMap` is non-empty and is not `'Unknown'`, so the `\|\| 'Unknown'` fallback only applies to unmapped ids |
| `Catalog.GetGenreNames` | lib/api.ts:200-202 | one name per id, in order: `genreMap[id]` for a mapped id, `'Unknown'` otherwise |
| `Catalog.UnknownExactlyWhenUnmapped` | lib/api.ts:177-202 | a name is `'Unknown'` iff its id is not in `genreMap` |
| `Catalog.GenreMapInjective` | lib/api.ts:177-197 | no two genre ids share a name |
| `Catalog.MoviesByGenre` | lib/api.ts:159-173 | an error with the source's message iff `results` is missing or not an array; otherwise the page is kept and the results are exactly the movies whose `genre_ids` contain the genre, with their multiplicities, in input order |
| `Catalog.SuggestedMovies` | lib/api.ts:218-226 | the first `min(6, k)` of the `k` qualifying results, in input order (a prefix of the filtered list); none has the movie's id and each shares a genre with it; when fewer than 6 come back, every qualifying result is among them |
| `Catalog.SuggestedMoviesExample` | lib/api.ts:220-225 | reference id 3 with genre 28 over the pool {1: 28,12}, {2: 35}, {3: 28} suggests only movie 1 |
| `Catalog.ShufflePermutes` | lib/api.ts:356-359 | whatever the injected draws, the Fisher–Yates passes yield a permutation (the multiset is preserved) |
| `Catalog.ShuffleWithIdentityDraws` | lib/api.ts:356-359 | draws that always pick the current index leave the order unchanged |
| `Catalog.ShuffleArray` | lib/api.ts:355-361 | the array's new contents are the Fisher–Yates result of its old contents under the draws, and a permutation of them |
| `Catalog.SuggestionsFromShuffle` | lib/api.ts:342-351 | cutting a permutation of the qualifying shows to 6 returns only qualifying shows from the results, no show more often than it occurs there, and all of them when at most 6 qualify |
| `Catalog.SuggestedTVShows` | lib/api.ts:334-352 | exactly `min(6, k)` shows for `k` qualifying ones: the first of the Fisher–Yates order of the qualifying shows under the draws; each comes from the results, has a defined `genres`, differs from the reference id and shares a genre with it; all qualifying shows when at most 6 qualify |
| `Catalog.CheckTVShowDetails` | lib/api.ts:320-331 | rejects a missing payload, and rejects a payload whose `name`, `id` or `overview` is falsy, with the source's messages; otherwise returns the payload's fields unchanged |
| `CarouselComponent.NextIndex` | components/Carousel.tsx:14-16 | with items, an index in `[0, n)` moves one forward and wraps from `n - 1` to 0, so it stays in `[0, n)`; with no items the result is NaN |
| `CarouselComponent.PrevIndex` | components/Carousel.tsx:18-20 | with items, an index in `[0, n)` moves one back and wraps from 0 to `n - 1`, so it stays in `[0, n)`; with no items the result is NaN |
| `CarouselComponent.PrevUndoesNext` | components/Carousel.tsx:15-19 | `prevSlide` after `nextSlide` restores the index |
| `CarouselComponent.NextUndoesPrev` | components/Carousel.tsx:15-19 | `nextSlide` after `prevSlide` restores the index |
| `CarouselComponent.FullCycle` | components/Carousel.tsx:14-16 | `n` consecutive `nextSlide` calls return to the start |
| `CarouselComponent.Window` | components/Carousel.tsx:25 | from an index in range, the window is `items[start .. min(start + 6, n)]`; it has at most 6 items and does not wrap, so it has fewer than 6 iff `start > n - 6`; a NaN index gives an empty window |
| `CarouselComponent.Carousel.constructor` | components/Carousel.tsx:12 | `startIndex` starts at 0 |
| `CarouselComponent.Carousel.NextSlide` | components/Carousel.tsx:14-16 | `startIndex` becomes `(i + 1) % n` and stays in range |
| `CarouselComponent.Carousel.PrevSlide` | components/Carousel.tsx:18-20 | `startIndex` becomes `(i - 1 + n) % n` and stays in range |
| `CarouselComponent.Carousel.Visible` | components/Carousel.tsx:25 | the rendered items are at most 6, taken from `startIndex` onwards; an empty carousel renders none |
| `AddToWatchlistButton.WithoutMovie` | components/AddToWatchlist.tsx:20 | every occurrence of the id is gone; other ids keep their multiplicity and their order |
| `AddToWatchlistButton.Toggled` | components/AddToWatchlist.tsx:19-24 | flag on: the id is removed and every other id keeps its copies and its order; flag off: the id is appended and earlier entries are unchanged |
| `AddToWatchlistButton.ToggleTwiceRestores` | components/AddToWatchlist.tsx:17-27 | from a list without the id and the flag off, two clicks restore the list |
| `AddToWatchlistButton.StaleFlagDuplicates` | components/AddToWatchlist.tsx:19-23 | a stale-false flag while the id is stored makes a click store the id twice |
| `AddToWatchlistButton.AddToWatchlist.constructor` | components/AddToWatchlist.tsx:10 | the flag starts false |
| `AddToWatchlistButton.AddToWatchlist.Mount` | components/AddToWatchlist.tsx:12-15 | the flag is true iff the stored `'watchlist'` list (or `[]` when absent) contains the id |
| `AddToWatchlistButton.AddToWatchlist.ToggleWatchlist` | components/AddToWatchlist.tsx:17-27 | the stored list becomes the toggled list for the old flag, and the flag is negated |
| `MyList.WithoutEntry` | app/my-list/page.tsx:27 | exactly the entries matching both id and type are dropped; every other entry keeps all its copies, so an entry with the same id but the other type is kept; the list never grows |
| `MyList.WithoutEntryKeepsOrder` | app/my-list/page.tsx:27 | the surviving entries keep their relative order |
| `MyList.WithoutAbsentEntry` | app/my-list/page.tsx:27 | removing a pair no entry has leaves the list unchanged |
| `MyList.SameIdOtherTypeKept` | app/my-list/page.tsx:27 | with a movie and a show of one id, removing either pair keeps the other entry |
| `MyList.MyListPage.constructor` | app/my-list/page.tsx:19 | the page starts with an empty list |
| `MyList.MyListPage.Mount` | app/my-list/page.tsx:21-24 | the state equals the stored `'myList'` list, or `[]` when the key is absent |
| `MyList.MyListPage.HandleRemoveFromList` | app/my-list/page.tsx:26-30 | the state loses exactly the entries of the pair, and the stored `'myList'` value is the same sequence as the state |

## Left out

- Every network call is left out: `searchMovies`, `getMovieDetails`, `getHindiStreamingLinks`, `getTrendingMovies`, `getTopRatedMovies`, `getMovies`, `getTVShows`, the fetch in `getTVShowDetails`, `getTVStreamingLinks` and `utils/api.ts`. They are HTTP I/O. The filters that run on their results take the results as a parameter.
- The fetch errors (`!response.ok`) and `console.log` calls around the modelled filters are left out. They are I/O.
- The date mapping in `searchMovies` is left out. It depends on `Date` parsing.
- `getRandomItem` and the random notifications in `Header.tsx` are left out. They depend on `Math.random`, `Date.now` and a random sort comparator.
- Rendering, routing, timers, theming, the settings context and the video player are left out. They are UI and external-library configuration.
- `JSON.stringify`/`JSON.parse` are taken to be an exact round trip. Malformed stored data, where `JSON.parse` would throw, cannot occur in the model.
- Two browser tabs writing the same key concurrently are left out. That is a cross-tab race, outside single-tab logic.
- `Catalog.ShuffleArray`: `Math.random()` is replaced by injected draws with `draws[i]` in `[0, i]`, one draw per index. The model proves the result is a permutation for every choice of draws. It says nothing about the draws being uniform.
- `Catalog.SuggestedTVShows`: the caller must supply at least as many draws as there are results. This is only a supply of randomness; the source itself demands nothing of its caller.
- `Catalog.SuggestedMovies`: a trending response without `results`, which the source would throw on as a `TypeError`, is not modelled. The results array is the parameter.
- `Catalog.MoviesByGenre`: a movie without `genre_ids`, on which `includes` would throw, is not modelled. `genre_ids` is required by the `TrendingMovie` interface.
- `Catalog.CheckTVShowDetails`: an `id` of `NaN`, which is also falsy, is not modelled. The id is an integer or absent.
- `CarouselComponent.Carousel`: the `items` prop is fixed for the life of the component. React would keep `startIndex` when a parent re-renders with a shorter list, and the model does not cover that case.
- The stored-list values are the modelled fields only. Other fields of the view models are carried unchanged by every operation and are not represented.
