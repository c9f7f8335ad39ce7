/**
 * The selection and transform helpers of lib/api.ts that run after a fetch:
 * image URL composition, genre names, the genre filter of `getMoviesByGenre`,
 * the suggestion filters, the shuffle that precedes the TV suggestion cap,
 * and the field check of `getTVShowDetails`. Fetched payloads are parameters.
 */
module Catalog {
  import opened Collections
  import opened ApiTypes

  const CorsProxy: string := "https://cors-proxy.rdpsell01.workers.dev/"
  const TmdbImageBaseUrl: string := "https://image.tmdb.org/t/p/"
  const PlaceholderImage: string := "/placeholder.svg"
  const DefaultImageSize: string := "w500"

  /** How many suggestions `getSuggestedMovies` and `getSuggestedTVShows` return at most. */
  const SuggestionLimit: nat := 6

  predicate StartsWith(s: string, prefix: string)
  {
    |prefix| <= |s| && s[..|prefix|] == prefix
  }

  predicate EndsWith(s: string, suffix: string)
  {
    |suffix| <= |s| && s[|s| - |suffix|..] == suffix
  }

  // ---------------------------------------------------------------- images

  /**
   * `getImageUrl(path, size = 'w500')`. A missing or empty path gives the
   * placeholder, and only such a path does; an absolute path is routed through
   * the CORS proxy as it is; a relative path is put under the image base URL
   * and the size token, behind the proxy.
   */
  function GetImageUrl(path: Option<string>, size: string := DefaultImageSize): (r: string)
    ensures r == PlaceholderImage <==> path.None? || path.value == ""
    ensures r != PlaceholderImage ==> StartsWith(r, CorsProxy) && EndsWith(r, path.value)
    ensures path.Some? && path.value != "" && StartsWith(path.value, "http") ==>
              r[|CorsProxy|..] == path.value
    ensures path.Some? && path.value != "" && !StartsWith(path.value, "http") ==>
              StartsWith(r, CorsProxy + TmdbImageBaseUrl) && r[|CorsProxy + TmdbImageBaseUrl|..] == size + path.value
  {
    if path.None? || path.value == "" then PlaceholderImage
    else
      var r := if StartsWith(path.value, "http") then CorsProxy + path.value
               else CorsProxy + TmdbImageBaseUrl + size + path.value;
      assert r[0] == 'h' != PlaceholderImage[0];
      assert (CorsProxy + TmdbImageBaseUrl + size + path.value)[..|CorsProxy|] == CorsProxy;
      assert CorsProxy + TmdbImageBaseUrl + size + path.value == (CorsProxy + TmdbImageBaseUrl) + (size + path.value);
      r
  }

  /** With the default size, "/abc.jpg" resolves behind the proxy to a URL ending in "w500/abc.jpg". */
  lemma ImageUrlDefaultSize()
    ensures StartsWith(GetImageUrl(Some("/abc.jpg")), CorsProxy)
    ensures EndsWith(GetImageUrl(Some("/abc.jpg")), "w500/abc.jpg")
  {
    assert !StartsWith("/abc.jpg", "http") by { assert "/abc.jpg"[0] != "http"[0]; }
    var r := GetImageUrl(Some("/abc.jpg"));
    var prefix := CorsProxy + TmdbImageBaseUrl;
    assert r == prefix + "w500/abc.jpg" by {
      assert r[..|prefix|] == prefix;
      assert r[|prefix|..] == "w500" + "/abc.jpg";
      assert r == r[..|prefix|] + r[|prefix|..];
    }
    assert r[|r| - 12..] == "w500/abc.jpg";
  }

  /**
   * A full TMDB image URL and its relative path resolve to the same proxied
   * URL: the absolute branch and the relative branch agree.
   */
  lemma AbsoluteAndRelativeAgree(path: string, size: string)
    requires path != "" && !StartsWith(path, "http")
    ensures GetImageUrl(Some(TmdbImageBaseUrl + size + path), size) == GetImageUrl(Some(path), size)
  {
    var absolute := TmdbImageBaseUrl + size + path;
    assert absolute[..4] == "http";
    assert CorsProxy + absolute == CorsProxy + TmdbImageBaseUrl + size + path;
  }

  // ---------------------------------------------------------------- genres

  /** `genreMap`: TMDB genre ids and the lower-case names the site shows. */
  const GenreMap: map<int, string> := map[
    28 := "action",
    12 := "adventure",
    16 := "animation",
    35 := "comedy",
    80 := "crime",
    99 := "documentary",
    18 := "drama",
    10751 := "family",
    14 := "fantasy",
    36 := "history",
    27 := "horror",
    10402 := "music",
    9648 := "mystery",
    10749 := "romance",
    878 := "science fiction",
    10770 := "tv movie",
    53 := "thriller",
    10752 := "war",
    37 := "western"
  ]

  const UnknownGenre: string := "Unknown"

  /** `genreMap[id] || 'Unknown'`: an empty name would also fall back. */
  function GenreName(id: int): string
  {
    if id in GenreMap && GenreMap[id] != "" then GenreMap[id] else UnknownGenre
  }

  /** Every mapped name is non-empty and differs from the fallback. */
  lemma MappedNameIsKnown(id: int)
    ensures id in GenreMap ==> GenreMap[id] != "" && GenreMap[id] != UnknownGenre
  {
  }

  /**
   * `getGenreNames(ids)`: one name per id, in order; the mapped name when the
   * id is in `genreMap`, `'Unknown'` otherwise.
   */
  function GetGenreNames(ids: seq<int>): (names: seq<string>)
    ensures |names| == |ids|
    ensures forall k :: 0 <= k < |ids| ==>
              names[k] == if ids[k] in GenreMap then GenreMap[ids[k]] else UnknownGenre
  {
    if ids == [] then []
    else
      MappedNameIsKnown(ids[0]);
      [GenreName(ids[0])] + GetGenreNames(ids[1..])
  }

  /** A name is `'Unknown'` exactly when its id is not in `genreMap`. */
  lemma UnknownExactlyWhenUnmapped(ids: seq<int>, k: nat)
    requires k < |ids|
    ensures GetGenreNames(ids)[k] == UnknownGenre <==> ids[k] !in GenreMap
  {
    MappedNameIsKnown(ids[k]);
  }

  /**
   * No two genre ids share a name, so looking a genre up by its name (as the
   * category page does) finds at most one id.
   */
  lemma GenreMapInjective()
    ensures forall a, b :: a in GenreMap && b in GenreMap && a != b ==> GenreMap[a] != GenreMap[b]
  {
  }

  // ---------------------------------------------------------------- genre filter

  const InvalidResultsMessage: string := "Invalid API response: results array is missing or not an array"

  /** The filter callback `movie => movie.genre_ids.includes(genreId)`. */
  function HasGenre(genreId: int): TrendingMovie -> bool
  {
    (m: TrendingMovie) => genreId in m.genreIds
  }

  /**
   * The part of `getMoviesByGenre` after the fetch: an error when `results`
   * is missing or not an array; otherwise the response with every field kept
   * and `results` cut down to exactly the movies carrying the genre, each as
   * often as before, in their order.
   */
  function MoviesByGenre(data: TrendingMoviesResponse, genreId: int): (r: Result<TrendingMoviesResponse>)
    ensures r.Err? <==> data.results.None?
    ensures r.Err? ==> r.message == InvalidResultsMessage
    ensures r.Ok? ==> r.value.page == data.page && r.value.results.Some?
    ensures r.Ok? ==> forall m :: m in r.value.results.value <==> m in data.results.value && genreId in m.genreIds
    ensures r.Ok? ==> forall m :: multiset(r.value.results.value)[m] ==
                        if genreId in m.genreIds then multiset(data.results.value)[m] else 0
    ensures r.Ok? ==> SubsequenceOf(r.value.results.value, data.results.value)
  {
    if data.results.None? then Err(InvalidResultsMessage)
    else
      FilterMultiset(data.results.value, HasGenre(genreId));
      FilterIsSubsequence(data.results.value, HasGenre(genreId));
      Ok(data.(results := Some(Filter(data.results.value, HasGenre(genreId)))))
  }

  // ---------------------------------------------------------------- suggestions

  /** `a.some(g => b.includes(g))`. */
  predicate SharesGenre(a: seq<int>, b: seq<int>)
  {
    exists g :: g in a && g in b
  }

  /** The filter callback of `getSuggestedMovies`. */
  function SuggestsMovie(movie: MovieDetails): TrendingMovie -> bool
  {
    (t: TrendingMovie) => t.id != movie.id && SharesGenre(t.genreIds, GenreIdsOf(movie.genres))
  }

  /**
   * The part of `getSuggestedMovies` after the fetch: the first six
   * qualifying results (all of them when fewer qualify), in their order, none
   * with the movie's id, each sharing a genre with it; when fewer than six
   * come back, every qualifying result is among them.
   */
  function SuggestedMovies(movie: MovieDetails, results: seq<TrendingMovie>): (r: seq<TrendingMovie>)
    ensures |r| <= SuggestionLimit
    ensures |r| == Min(SuggestionLimit, |Filter(results, SuggestsMovie(movie))|)
    ensures r == Filter(results, SuggestsMovie(movie))[..|r|]
    ensures forall t :: t in r ==>
              t in results && t.id != movie.id && SharesGenre(t.genreIds, GenreIdsOf(movie.genres))
    ensures |r| < SuggestionLimit ==>
              forall t :: t in results && t.id != movie.id && SharesGenre(t.genreIds, GenreIdsOf(movie.genres)) ==> t in r
    ensures SubsequenceOf(r, results)
  {
    var candidates := Filter(results, SuggestsMovie(movie));
    var r := Take(candidates, SuggestionLimit);
    FilterIsSubsequence(results, SuggestsMovie(movie));
    PrefixIsSubsequence(candidates, |r|);
    SubsequenceTransitive(r, candidates, results);
    assert forall t :: t in r ==> t in candidates;
    r
  }

  /** The example of a reference movie with id 3 and genre 28 over a pool of three. */
  lemma SuggestedMoviesExample()
    ensures
      var pool := [TrendingMovie(1, "", "", [28, 12]), TrendingMovie(2, "", "", [35]), TrendingMovie(3, "", "", [28])];
      SuggestedMovies(MovieDetails(3, "", "", [Genre(28, "action")]), pool) == [pool[0]]
  {
    var pool := [TrendingMovie(1, "", "", [28, 12]), TrendingMovie(2, "", "", [35]), TrendingMovie(3, "", "", [28])];
    var movie := MovieDetails(3, "", "", [Genre(28, "action")]);
    var p := SuggestsMovie(movie);
    assert GenreIdsOf(movie.genres) == [28];
    assert p(pool[0]) by { assert 28 in pool[0].genreIds; }
    assert !p(pool[1]);
    assert !p(pool[2]);
    assert pool == [pool[0]] + [pool[1]] + [pool[2]];
    FilterAppend([pool[0]] + [pool[1]], [pool[2]], p);
    FilterAppend([pool[0]], [pool[1]], p);
    assert Filter([pool[0]], p) == [pool[0]];
    assert Filter([pool[1]], p) == [];
    assert Filter([pool[2]], p) == [];
  }

  /** `tvShow.genres?.map(genre => genre.id) || []`. */
  function ReferenceGenreIds(tvShow: TVShow): seq<int>
  {
    if tvShow.genres.Some? then GenreIdsOf(tvShow.genres.value) else []
  }

  /** The filter callback of `getSuggestedTVShows`; a show without `genres` never qualifies. */
  predicate SuggestsShow(tvShow: TVShow, show: TVShow)
  {
    show.id != tvShow.id && show.genres.Some? &&
    SharesGenre(GenreIdsOf(show.genres.value), ReferenceGenreIds(tvShow))
  }

  function ShowFilter(tvShow: TVShow): TVShow -> bool
  {
    (show: TVShow) => SuggestsShow(tvShow, show)
  }

  // ---------------------------------------------------------------- shuffle

  /**
   * Injected draws for `shuffleArray`: `draws[i]` stands for
   * `Math.floor(Math.random() * (i + 1))`, so it lies in `[0, i]`.
   */
  predicate ValidDraws(draws: seq<nat>)
  {
    forall i :: 0 <= i < |draws| ==> draws[i] <= i
  }

  /** `[s[i], s[j]] = [s[j], s[i]]` on a sequence. */
  function Swap<T>(s: seq<T>, i: nat, j: nat): (r: seq<T>)
    requires i < |s| && j < |s|
    ensures |r| == |s| && r[i] == s[j] && r[j] == s[i]
    ensures forall k :: 0 <= k < |s| && k != i && k != j ==> r[k] == s[k]
  {
    s[i := s[j]][j := s[i]]
  }

  lemma SwapPermutes<T>(s: seq<T>, i: nat, j: nat)
    requires i < |s| && j < |s|
    ensures multiset(Swap(s, i, j)) == multiset(s)
  {
  }

  /**
   * The Fisher–Yates passes of `shuffleArray` from index `i` down to 1: each
   * pass swaps position `i` with position `draws[i]`.
   */
  function ShuffleFrom<T>(s: seq<T>, draws: seq<nat>, i: int): (r: seq<T>)
    requires |draws| == |s| && ValidDraws(draws) && -1 <= i < |s|
    ensures |r| == |s|
    decreases i + 1
  {
    if i <= 0 then s else ShuffleFrom(Swap(s, i, draws[i]), draws, i - 1)
  }

  /** Whatever the draws, the shuffle is a permutation: the multiset is kept. */
  lemma {:induction false} ShufflePermutes<T>(s: seq<T>, draws: seq<nat>, i: int)
    requires |draws| == |s| && ValidDraws(draws) && -1 <= i < |s|
    ensures multiset(ShuffleFrom(s, draws, i)) == multiset(s)
    decreases i + 1
  {
    if i > 0 {
      ShufflePermutes(Swap(s, i, draws[i]), draws, i - 1);
      SwapPermutes(s, i, draws[i]);
    }
  }

  /** Draws that always pick the current index leave the order unchanged. */
  lemma {:induction false} ShuffleWithIdentityDraws<T>(s: seq<T>, draws: seq<nat>, i: int)
    requires |draws| == |s| && ValidDraws(draws) && -1 <= i < |s|
    requires forall k :: 0 <= k < |draws| ==> draws[k] == k
    ensures ShuffleFrom(s, draws, i) == s
    decreases i + 1
  {
    if i > 0 {
      assert Swap(s, i, draws[i]) == s;
      ShuffleWithIdentityDraws(s, draws, i - 1);
    }
  }

  /**
   * `shuffleArray(array)`: shuffles the array in place with the injected
   * draws; the new contents are the Fisher–Yates result and a permutation of
   * the old contents.
   */
  method ShuffleArray<T>(a: array<T>, draws: seq<nat>)
    requires |draws| == a.Length && ValidDraws(draws)
    modifies a
    ensures a[..] == ShuffleFrom(old(a[..]), draws, a.Length - 1)
    ensures multiset(a[..]) == multiset(old(a[..]))
  {
    var i := a.Length - 1;
    while i > 0
      invariant -1 <= i < a.Length
      invariant ShuffleFrom(a[..], draws, i) == ShuffleFrom(old(a[..]), draws, a.Length - 1)
    {
      var j := draws[i];
      ghost var before := a[..];
      assert ShuffleFrom(before, draws, i) == ShuffleFrom(Swap(before, i, j), draws, i - 1);
      var t := a[i];
      a[i] := a[j];
      a[j] := t;
      assert a[..] == Swap(before, i, j);
      i := i - 1;
    }
    ShufflePermutes(old(a[..]), draws, a.Length - 1);
  }

  /** A prefix holds no element more often than the whole sequence. */
  lemma PrefixMultiset<T>(s: seq<T>, k: nat)
    requires k <= |s|
    ensures multiset(s[..k]) <= multiset(s)
  {
    assert s == s[..k] + s[k..];
  }

  /**
   * The part of `getSuggestedTVShows` after the fetch: the qualifying shows
   * are shuffled with the injected draws and cut to six. Every returned show
   * qualifies and comes from the results (no show is returned more often than
   * it occurs there); when at most six qualify, all of them are returned. The
   * result is exactly the first six (or fewer) of the Fisher–Yates order of the
   * qualifying shows under the first draws.
   */
  method SuggestedTVShows(tvShow: TVShow, results: seq<TVShow>, draws: seq<nat>) returns (r: seq<TVShow>)
    requires |draws| >= |results| && ValidDraws(draws)
    ensures |r| <= SuggestionLimit
    ensures |r| == Min(SuggestionLimit, |Filter(results, ShowFilter(tvShow))|)
    ensures var k := |Filter(results, ShowFilter(tvShow))|;
            r == ShuffleFrom(Filter(results, ShowFilter(tvShow)), draws[..k], k - 1)[..|r|]
    ensures forall show :: show in r ==> show in results && SuggestsShow(tvShow, show)
    ensures multiset(r) <= multiset(results)
    ensures |Filter(results, ShowFilter(tvShow))| <= SuggestionLimit ==>
              multiset(r) == multiset(Filter(results, ShowFilter(tvShow)))
  {
    var suggestedShows := Filter(results, ShowFilter(tvShow));
    var a := new TVShow[|suggestedShows|](k requires 0 <= k < |suggestedShows| => suggestedShows[k]);
    assert a[..] == suggestedShows;
    ShuffleArray(a, draws[..a.Length]);
    ShufflePermutes(suggestedShows, draws[..a.Length], a.Length - 1);
    r := a[..Min(SuggestionLimit, a.Length)];
    assert a[..][..|r|] == r;
    SuggestionsFromShuffle(tvShow, results, suggestedShows, a[..], r);
  }

  /** What cutting a permutation of the qualifying shows to six keeps. */
  lemma SuggestionsFromShuffle(tvShow: TVShow, results: seq<TVShow>, suggestedShows: seq<TVShow>,
                               shuffled: seq<TVShow>, r: seq<TVShow>)
    requires suggestedShows == Filter(results, ShowFilter(tvShow))
    requires multiset(shuffled) == multiset(suggestedShows)
    requires r == shuffled[..Min(SuggestionLimit, |shuffled|)]
    ensures forall show :: show in r ==> show in results && SuggestsShow(tvShow, show)
    ensures multiset(r) <= multiset(results)
    ensures |suggestedShows| <= SuggestionLimit ==> multiset(r) == multiset(suggestedShows)
  {
    PrefixMultiset(shuffled, |r|);
    FilterMultiset(results, ShowFilter(tvShow));
    assert multiset(suggestedShows) <= multiset(results);
    forall show | show in r
      ensures show in suggestedShows
    {
      assert show in multiset(r);
    }
    if |suggestedShows| <= SuggestionLimit {
      assert |shuffled| == |multiset(shuffled)| == |suggestedShows|;
      assert r == shuffled;
    }
  }

  // ---------------------------------------------------------------- TV details check

  /**
   * A decoded TV detail payload before its check: `name`, `id` and
   * `overview` may be absent.
   */
  datatype TVShowPayload = TVShowPayload(
    id: Option<int>,
    name: Option<string>,
    overview: Option<string>,
    genreIds: Option<seq<int>>,
    genres: Option<seq<Genre>>)

  const MissingDataMessage: string := "Invalid API response: data is missing or not an object"
  const MissingPropertiesMessage: string := "Invalid API response: missing TV show properties"

  /**
   * The field check of `getTVShowDetails`: `data` is `None` when the payload
   * is missing or not an object. A falsy `name`, `id` or `overview` (absent,
   * the empty string, or the id 0) is rejected; anything else is accepted as
   * it is.
   */
  function CheckTVShowDetails(data: Option<TVShowPayload>): (r: Result<TVShow>)
    ensures data.None? ==> r == Err(MissingDataMessage)
    ensures data.Some? ==>
              (r.Ok? <==> data.value.id.Some? && data.value.id.value != 0 &&
                          data.value.name.Some? && data.value.name.value != "" &&
                          data.value.overview.Some? && data.value.overview.value != "")
    ensures data.Some? && r.Err? ==> r.message == MissingPropertiesMessage
    ensures r.Ok? ==> r.value.id == data.value.id.value && r.value.name == data.value.name.value &&
                      r.value.overview == data.value.overview.value &&
                      r.value.genreIds == data.value.genreIds && r.value.genres == data.value.genres
  {
    if data.None? then Err(MissingDataMessage)
    else
      var d := data.value;
      if d.name.None? || d.name.value == "" || d.id.None? || d.id.value == 0 ||
         d.overview.None? || d.overview.value == ""
      then Err(MissingPropertiesMessage)
      else Ok(TVShow(d.id.value, d.name.value, d.overview.value, d.genreIds, d.genres))
  }
}
