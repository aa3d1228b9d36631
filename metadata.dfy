/** The per-movie record the training pipeline saves (`movie_metadata.parquet`)
    and the inference engine reads back: one row per movie, addressed by its
    position after `reset_index`. */
module Metadata {
  import opened Base

  /** A row of the saved metadata. `genres` is `None` when the stored value is
      not a Python `list` (a missing value, or an array read back from
      parquet), which every `isinstance(..., list)` test in the engine treats
      as "no genres". */
  datatype Movie = Movie(
    id: int,
    title: string,
    releaseDate: Option<string>,
    primaryCompany: Option<string>,
    genres: Option<seq<string>>,
    voteAverage: real,
    voteCount: int,
    popularity: real,
    overview: Option<string>,
    imdbId: Option<string>,
    posterPath: Option<string>)

  /** `movie['genres'] if isinstance(movie['genres'], list) else []`. */
  function GenreList(m: Movie): (r: seq<string>)
    ensures m.genres.Some? ==> r == m.genres.value
    ensures m.genres.None? ==> r == []
  {
    if m.genres.Some? then m.genres.value else []
  }

  function Titles(ms: seq<Movie>): (r: seq<string>)
    ensures |r| == |ms|
    ensures forall i :: 0 <= i < |ms| ==> r[i] == ms[i].title
  {
    seq(|ms|, i requires 0 <= i < |ms| => ms[i].title)
  }
}
