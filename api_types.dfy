/**
 * The view models declared in lib/api.ts, reduced to the fields that the
 * modelled operations read. A value of `Media` is one of the three shapes
 * that the watchlist and the recently-viewed list accept; the source tells
 * them apart only by their shape, and identifies them by `id` alone.
 */
module ApiTypes {
  import opened Collections

  /** `{ id: number; name: string }`, an element of a `genres` array. */
  datatype Genre = Genre(id: int, name: string)

  /** `TrendingMovie`: an element of a trending or top-rated results page. */
  datatype TrendingMovie = TrendingMovie(id: int, title: string, posterPath: string, genreIds: seq<int>)

  /** `TrendingMoviesResponse`: `results` is `None` when the payload lacks an array there. */
  datatype TrendingMoviesResponse = TrendingMoviesResponse(page: int, results: Option<seq<TrendingMovie>>)

  /** `MovieDetails`: the detail payload of one movie. */
  datatype MovieDetails = MovieDetails(id: int, title: string, overview: string, genres: seq<Genre>)

  /** `TVShow`: both genre fields are optional in the source. */
  datatype TVShow = TVShow(
    id: int,
    name: string,
    overview: string,
    genreIds: Option<seq<int>>,
    genres: Option<seq<Genre>>)

  /** `TrendingMovie | MovieDetails | TVShow`, the element type of the stored lists. */
  datatype Media = Trending(trending: TrendingMovie) | Details(details: MovieDetails) | Show(show: TVShow)
  {
    /** The `id` field every shape carries. */
    function Id(): int
    {
      match this
      case Trending(m) => m.id
      case Details(d) => d.id
      case Show(s) => s.id
    }
  }

  /** `genres.map(genre => genre.id)`. */
  function GenreIdsOf(genres: seq<Genre>): (ids: seq<int>)
    ensures |ids| == |genres|
    ensures forall k :: 0 <= k < |genres| ==> ids[k] == genres[k].id
  {
    if genres == [] then [] else [genres[0].id] + GenreIdsOf(genres[1..])
  }
}
