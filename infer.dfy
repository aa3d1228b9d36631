/** The `MovieRecommender` class of training/infer.py: the loaded artifacts
    as fields, and the recommendation, search, top-rated and diversity
    operations, each proved against the definitions of module `InferSpec`. */
module Inference {
  import opened Base
  import opened PyList
  import opened PyText
  import opened Ranking
  import opened Metadata
  import opened Artifacts
  import opened InferSpec

  /** `find_movie`'s default `threshold`. */
  const DefaultCutoff: real := 0.6

  /** What `load_models` reads from the model directory; `None` where reading
      the file raises. `npzExists` says whether `similarity_matrix.npz` is
      present, which decides which of the two matrix files is read. */
  datatype ModelFiles = ModelFiles(
    metadata: Option<seq<Movie>>,
    npzExists: bool,
    sparse: Option<seq<seq<real>>>,
    dense: Option<seq<seq<real>>>,
    titles: Option<TitleDict>,
    config: Option<Config>)

  /** The matrix `load_models` reads: the sparse file when it exists. */
  function MatrixRead(files: ModelFiles): Option<seq<seq<real>>>
  {
    if files.npzExists then files.sparse else files.dense
  }

  predicate Readable(files: ModelFiles)
  {
    files.metadata.Some? && MatrixRead(files).Some? && files.titles.Some? && files.config.Some?
  }

  /** The files `save_model` writes for an artifact into an empty directory. */
  function FilesOf(a: Artifact): ModelFiles
  {
    ModelFiles(Some(a.metadata), a.format.Sparse?,
               if a.format.Sparse? then Some(a.similarity) else None,
               if a.format.Dense? then Some(a.similarity) else None,
               Some(a.titles), Some(a.config))
  }

  /** Saving then loading gives back the artifact, whichever format the
      matrix was saved in. */
  lemma SavedArtifactsLoad(a: Artifact)
    ensures Readable(FilesOf(a))
    ensures FilesOf(a).metadata == Some(a.metadata) && MatrixRead(FilesOf(a)) == Some(a.similarity)
    ensures FilesOf(a).titles == Some(a.titles) && FilesOf(a).config == Some(a.config)
  {
  }

  /** A saved row as `pd.read_parquet` gives it back: the stored `genres`
      list comes back as a numpy array, which is not a Python `list`. */
  function ReadBack(m: Movie): (r: Movie)
    ensures r.genres.None?
  {
    m.(genres := None)
  }

  function ReadBackAll(ms: seq<Movie>): (r: seq<Movie>)
    ensures |r| == |ms|
    ensures forall i :: 0 <= i < |ms| ==> r[i] == ReadBack(ms[i])
  {
    seq(|ms|, i requires 0 <= i < |ms| => ReadBack(ms[i]))
  }

  /** The files as `load_models` reads them back. */
  function FilesAsRead(a: Artifact): ModelFiles
  {
    FilesOf(a).(metadata := Some(ReadBackAll(a.metadata)))
  }

  /** On metadata read back from parquet, a requested genre list rejects
      every movie: no candidate survives the genre filter of
      `get_recommendations`. */
  lemma ReadBackLosesGenres(a: Artifact, row: seq<real>, source: Movie, f: Filters, n: int)
    requires GenresRequested(f.genres)
    ensures FilesAsRead(a).metadata == Some(ReadBackAll(a.metadata))
    ensures forall i :: !Eligible(ReadBackAll(a.metadata), source, f, i)
    ensures Picks(ReadBackAll(a.metadata), row, source, f, n) == []
  {
    NoMembersEmpty(Picks(ReadBackAll(a.metadata), row, source, f, n));
  }

  /** On metadata read back from parquet, `get_top_rated` with a genre
      list keeps no row. */
  lemma ReadBackLosesTopRated(a: Artifact, n: int, minVotes: int, genres: Option<seq<string>>)
    requires GenresRequested(genres)
    ensures TopRatedPositions(ReadBackAll(a.metadata), n, minVotes, genres) == []
  {
    NoMembersEmpty(TopRatedPositions(ReadBackAll(a.metadata), n, minVotes, genres));
  }

  /** The answer of `get_recommendations`. */
  datatype RecResult =
    | NotFound(title: string, suggestions: seq<string>)
    | Recommended(query: string, details: QueryDetails, total: nat, recs: seq<Rec>)

  /** `query_details`. */
  datatype QueryDetails = QueryDetails(
    production: Option<string>,
    genres: seq<string>,
    rating: real,
    releaseDate: Option<string>)

  /** The answer of `get_movie_details`. */
  datatype Details = Details(
    title: string,
    releaseDate: Option<string>,
    production: Option<string>,
    genres: seq<string>,
    rating: real,
    votes: int,
    popularity: real,
    overview: Option<string>,
    imdbId: string,
    posterUrl: Option<string>)

  /** One entry of `get_diverse_recommendations`. */
  datatype DiverseRec = DiverseRec(
    rank: nat,
    title: string,
    production: string,
    rating: real,
    genres: seq<string>,
    score: real)

  datatype DiverseResult =
    | DiverseNotFound(title: string)
    | Diverse(query: string, recs: seq<DiverseRec>)

  /** The entry of `get_diverse_recommendations` for position `i`. */
  function DiverseEntry(metadata: seq<Movie>, row: seq<real>, i: nat, rank: nat): DiverseRec
    requires i < |metadata| && i < |row|
  {
    var m := metadata[i];
    DiverseRec(rank, m.title, Production(m), m.voteAverage, GenreList(m), row[i])
  }

  /** The entries for the selected positions, ranked 1, 2, ... in selection
      order. */
  function DiverseEntries(metadata: seq<Movie>, row: seq<real>, sel: seq<nat>): (es: seq<DiverseRec>)
    requires forall k :: 0 <= k < |sel| ==> sel[k] < |metadata| && sel[k] < |row|
    ensures |es| == |sel|
  {
    seq(|sel|, k requires 0 <= k < |sel| => DiverseEntry(metadata, row, sel[k], k + 1))
  }

  function NotFoundMessage(title: string): string
  {
    "Movie '" + title + "' not found"
  }

  /** `overview[:200] + '...' if len(str(overview)) > 200 else overview`; a
      missing overview prints as "nan", which is short, so it stays missing. */
  function ShortOverview(o: Option<string>): (r: Option<string>)
    ensures r.None? <==> o.None?
    ensures r.Some? ==> |r.value| <= 203 && Take(r.value, 200) == Take(o.value, 200)
    ensures r.Some? && |o.value| <= 200 ==> r.value == o.value
  {
    if o.Some? && |o.value| > 200 then Some(o.value[..200] + "...") else o
  }

  /** `list(range(n))`. */
  function Range(n: nat): (r: seq<nat>)
    ensures |r| == n && forall i :: 0 <= i < n ==> r[i] == i
  {
    seq(n, i requires 0 <= i < n => i)
  }

  predicate Increasing(s: seq<nat>)
  {
    forall i, j :: 0 <= i < j < |s| ==> s[i] < s[j]
  }

  /** `list.remove` on an increasing list takes out exactly that element and
      keeps the order. */
  lemma RemoveIncreasing(s: seq<nat>, x: nat)
    requires Increasing(s) && x in s
    ensures Increasing(Remove(s, x))
    ensures forall y :: y in Remove(s, x) <==> y in s && y != x
  {
    var i := IndexOf(s, x);
    var r := Remove(s, x);
    RemoveShifts(s, x);
    forall a, b | 0 <= a < b < |r|
      ensures r[a] < r[b]
    {
      var a' := if a < i then a else a + 1;
      var b' := if b < i then b else b + 1;
      assert r[a] == s[a'] && r[b] == s[b'];
    }
    forall y | y in r
      ensures y != x
    {
      var k :| 0 <= k < |r| && r[k] == y;
      var k' := if k < i then k else k + 1;
      assert r[k] == s[k'] && k' != i;
    }
  }

  /** One round of the MMR loop: the scores of the open candidates, and the
      first maximum (`max(mmr_scores, key=...)` keeps the first). */
  method BestCandidate(sim: seq<seq<real>>, q: nat, w: real, sel: seq<nat>, candidates: seq<nat>)
    returns (best: nat)
    requires InMatrix(sim, sel) && q < |sim|
    requires |candidates| > 0 && Increasing(candidates)
    requires forall c: nat :: c in candidates <==> Open(|sim|, q, sel, c)
    ensures IsMmrPick(sim, q, w, sel, best)
  {
    assert forall j :: 0 <= j < |candidates| ==> candidates[j] < |sim| by {
      forall j | 0 <= j < |candidates|
        ensures candidates[j] < |sim|
      {
        assert candidates[j] in candidates;
      }
    }
    best := candidates[0];
    var bestScore := Mmr(sim, q, w, sel, best);
    for k := 1 to |candidates|
      invariant best in candidates[..k] && best < |sim|
      invariant bestScore == Mmr(sim, q, w, sel, best)
      invariant forall j :: 0 <= j < k ==>
                  Mmr(sim, q, w, sel, candidates[j]) <= bestScore
                  && (candidates[j] < best ==> Mmr(sim, q, w, sel, candidates[j]) < bestScore)
    {
      var score := Mmr(sim, q, w, sel, candidates[k]);
      if score > bestScore {
        best := candidates[k];
        bestScore := score;
      } else {
        assert forall j :: 0 <= j < k ==> candidates[j] < candidates[k];
      }
    }
    forall c: nat | Open(|sim|, q, sel, c)
      ensures Mmr(sim, q, w, sel, c) <= Mmr(sim, q, w, sel, best)
      ensures c < best ==> Mmr(sim, q, w, sel, c) < Mmr(sim, q, w, sel, best)
    {
      assert c in candidates;
      var j :| 0 <= j < |candidates| && candidates[j] == c;
    }
  }

  /** The selection loop of `get_diverse_recommendations` for query row
      `q`: the candidates are all other positions in order, and each of the
      `min(n, N - 1)` rounds moves the round's pick from the candidates to
      the selection. */
  method SelectDiverse(sim: seq<seq<real>>, q: nat, n: int, w: real) returns (selected: seq<nat>)
    requires Square(sim, |sim|) && q < |sim|
    ensures MmrSequence(sim, q, w, selected)
    ensures |selected| == Max(0, Min(n, |sim| - 1))
  {
    var count := |sim|;
    var all := Range(count);
    assert forall c: nat :: c in all <==> c < count by {
      forall c: nat | c < count
        ensures c in all
      {
        assert all[c] == c;
      }
    }
    RemoveIncreasing(all, q);
    var candidates := Remove(all, q);
    selected := [];
    var rounds := Min(n, |candidates|);
    var t := 0;
    while t < rounds
      invariant 0 <= t && |selected| == t
      invariant t <= Max(0, rounds)
      invariant MmrSequence(sim, q, w, selected)
      invariant Increasing(candidates)
      invariant forall c: nat :: c in candidates <==> Open(count, q, selected, c)
      invariant |candidates| == count - 1 - t
    {
      var best := BestCandidate(sim, q, w, selected, candidates);
      MmrSequenceAppend(sim, q, w, selected, best);
      RemoveIncreasing(candidates, best);
      selected := selected + [best];
      candidates := Remove(candidates, best);
      t := t + 1;
    }
  }

  /** The filter chain of the `get_recommendations` loop: each failed test
      is a `continue`, here an early `false`. */
  method PassesFilters(movies: seq<Movie>, idx: nat, source: Movie, f: Filters) returns (passes: bool)
    requires idx < |movies|
    ensures passes == Eligible(movies, source, f, idx)
  {
    var movie := movies[idx];
    if YearFilterActive(f.minYear, f.maxYear) {
      var releaseStr := ReleaseText(movie.releaseDate);
      if |releaseStr| >= 4 {
        var year := YearOf(releaseStr);
        if year.None? {
          return false;
        }
        if IntTruthy(f.minYear) && year.value < f.minYear.value {
          return false;
        }
        if IntTruthy(f.maxYear) && year.value > f.maxYear.value {
          return false;
        }
      }
    }
    if RealTruthy(f.minRating) && movie.voteAverage < f.minRating.value {
      return false;
    }
    if GenresRequested(f.genres) && !SharesGenre(f.genres.value, GenreList(movie)) {
      return false;
    }
    if f.excludeSameCompany && movie.primaryCompany == source.primaryCompany {
      return false;
    }
    return true;
  }

  /** The state of the `get_recommendations` loop after `k` candidates:
      `picked` holds the candidates so far that passed, `recs` their entries
      ranked 1, 2, ... */
  predicate Collected(movies: seq<Movie>, row: seq<real>, candidates: seq<nat>, source: Movie, f: Filters,
                      k: nat, picked: seq<nat>, recs: seq<Rec>)
  {
    k <= |candidates| && picked == Passed(movies, candidates[..k], source, f) && |recs| == |picked|
    && forall j :: 0 <= j < |picked| ==>
         picked[j] < |movies| && picked[j] < |row| && recs[j] == Entry(movies, row, picked[j], j + 1)
  }

  /** A candidate that passes is appended, with its entry. */
  lemma CollectKeep(movies: seq<Movie>, row: seq<real>, candidates: seq<nat>, source: Movie, f: Filters,
                    k: nat, picked: seq<nat>, recs: seq<Rec>)
    requires Collected(movies, row, candidates, source, f, k, picked, recs)
    requires k < |candidates| && candidates[k] < |row| && Eligible(movies, source, f, candidates[k])
    ensures Collected(movies, row, candidates, source, f, k + 1, picked + [candidates[k]],
                      recs + [Entry(movies, row, candidates[k], |picked| + 1)])
  {
    assert candidates[..k + 1][..k] == candidates[..k];
  }

  /** A candidate that fails a filter is skipped. */
  lemma CollectSkip(movies: seq<Movie>, row: seq<real>, candidates: seq<nat>, source: Movie, f: Filters,
                    k: nat, picked: seq<nat>, recs: seq<Rec>)
    requires Collected(movies, row, candidates, source, f, k, picked, recs)
    requires k < |candidates| && !Eligible(movies, source, f, candidates[k])
    ensures Collected(movies, row, candidates, source, f, k + 1, picked, recs)
  {
    assert candidates[..k + 1][..k] == candidates[..k];
  }

  /** When the loop stops, the entries are those of the picks. */
  lemma CollectDone(movies: seq<Movie>, row: seq<real>, candidates: seq<nat>, source: Movie, f: Filters,
                    n: int, k: nat, picked: seq<nat>, recs: seq<Rec>)
    requires |row| == |movies|
    requires Collected(movies, row, candidates, source, f, k, picked, recs)
    requires |picked| <= Max(n, 0) && (k == |candidates| || |picked| >= n)
    ensures recs == Entries(movies, row, PicksFrom(movies, candidates, source, f, n))
  {
    PassedIsFilter(movies, candidates[..k], source, f);
    FilterUntil(candidates, EligibleAt(movies, source, f), n, k);
    EntriesFrom(movies, row, picked, recs);
  }

  /** The loop of `get_recommendations` over the ranked candidates: stop
      once `n` entries are collected, skip a candidate that fails a filter,
      and append the entry of one that passes with the next rank. */
  method CollectRecommendations(movies: seq<Movie>, row: seq<real>, candidates: seq<nat>,
                                source: Movie, f: Filters, n: int)
    returns (recs: seq<Rec>)
    requires |row| == |movies|
    requires forall j :: 0 <= j < |candidates| ==> candidates[j] < |movies|
    ensures recs == Entries(movies, row, PicksFrom(movies, candidates, source, f, n))
  {
    recs := [];
    var picked: seq<nat> := [];
    var k := 0;
    while k < |candidates| && |picked| < n
      invariant Collected(movies, row, candidates, source, f, k, picked, recs)
      invariant |picked| <= Max(n, 0)
    {
      var idx := candidates[k];
      var passes := PassesFilters(movies, idx, source, f);
      if !passes {
        CollectSkip(movies, row, candidates, source, f, k, picked, recs);
        k := k + 1;
        continue;
      }
      CollectKeep(movies, row, candidates, source, f, k, picked, recs);
      recs := recs + [Entry(movies, row, idx, |picked| + 1)];
      picked := picked + [idx];
      k := k + 1;
    }
    CollectDone(movies, row, candidates, source, f, n, k, picked, recs);
  }

  /** The loop of `get_top_rated` over the rows of `nlargest`: one entry
      per row, in row order. */
  method CollectTopRated(movies: seq<Movie>, n: int, minVotes: int, genres: Option<seq<string>>)
    returns (results: seq<TopEntry>)
    ensures results == TopRated(movies, n, minVotes, genres)
  {
    var df := TopRatedPositions(movies, n, minVotes, genres);
    results := [];
    for k := 0 to |df|
      invariant |results| == k
      invariant forall j :: 0 <= j < k ==> results[j] == TopEntryOf(movies[df[j]])
    {
      results := results + [TopEntryOf(movies[df[k]])];
    }
  }

  class MovieRecommender {
    var metadata: Option<seq<Movie>>
    var similarity: Option<seq<seq<real>>>
    var titles: Option<TitleDict>
    var config: Option<Config>

    /** Every artifact is loaded, and they fit together. */
    predicate Valid()
      reads this
    {
      metadata.Some? && similarity.Some? && titles.Some? && config.Some?
      && Consistent(metadata.value, similarity.value, titles.value)
    }

    function Movies(): seq<Movie>
      reads this
      requires Valid()
    {
      metadata.value
    }

    function Sim(): seq<seq<real>>
      reads this
      requires Valid()
    {
      similarity.value
    }

    function Dict(): TitleDict
      reads this
      requires Valid()
    {
      titles.value
    }

    /** `__init__` before `load_models`: nothing loaded. */
    constructor Empty()
      ensures metadata.None? && similarity.None? && titles.None? && config.None?
    {
      metadata := None;
      similarity := None;
      titles := None;
      config := None;
    }

    /** `load_models`: the fields are set in file order; the first file that
        cannot be read raises, leaving the fields before it set and the rest
        as they were. */
    method LoadModels(files: ModelFiles) returns (ok: bool)
      modifies this
      ensures ok <==> Readable(files)
      ensures files.metadata.None? ==> unchanged(this)
      ensures files.metadata.Some? ==> metadata == files.metadata
      ensures files.metadata.Some? && MatrixRead(files).None? ==>
                similarity == old(similarity) && titles == old(titles) && config == old(config)
      ensures files.metadata.Some? && MatrixRead(files).Some? ==> similarity == MatrixRead(files)
      ensures files.metadata.Some? && MatrixRead(files).Some? && files.titles.None? ==>
                titles == old(titles) && config == old(config)
      ensures files.metadata.Some? && MatrixRead(files).Some? && files.titles.Some? ==>
                titles == files.titles && config == (if files.config.Some? then files.config else old(config))
      ensures ok ==> (Valid() <==> Consistent(files.metadata.value, MatrixRead(files).value, files.titles.value))
    {
      if files.metadata.None? {
        return false;
      }
      metadata := files.metadata;
      if files.npzExists {
        if files.sparse.None? {
          return false;
        }
        similarity := files.sparse;
      } else {
        if files.dense.None? {
          return false;
        }
        similarity := files.dense;
      }
      if files.titles.None? {
        return false;
      }
      titles := files.titles;
      if files.config.None? {
        return false;
      }
      config := files.config;
      ok := true;
    }

    /** `MovieRecommender(model_dir)`: a recommender with every artifact
        loaded, or the exception of the first unreadable file. Artifacts
        saved by training load into a valid recommender. */
    static method Create(files: ModelFiles) returns (r: Option<MovieRecommender>)
      ensures r.Some? <==> Readable(files)
      ensures r.Some? ==> fresh(r.value)
                          && r.value.metadata == files.metadata
                          && r.value.similarity == MatrixRead(files)
                          && r.value.titles == files.titles
                          && r.value.config == files.config
      ensures forall a :: files == FilesOf(a) && WellFormed(a) ==> r.Some? && r.value.Valid()
    {
      var rec := new MovieRecommender.Empty();
      var ok := rec.LoadModels(files);
      if ok {
        r := Some(rec);
      } else {
        r := None;
      }
    }

    /** `find_movie(title, threshold)`. */
    function FindMovieIn(title: string, matcher: Matcher, threshold: real): (r: Option<string>)
      reads this
      requires Valid() && IsCloseMatcher(matcher)
      ensures r.Some? ==> r.value in Dict().index
      ensures title in Dict().keys && 0.0 <= threshold <= 1.0 ==> r == Some(title)
    {
      if title in Dict().keys && 0.0 <= threshold <= 1.0 then
        FindMovieExact(Dict().keys, title, matcher, threshold);
        FindMovie(Dict().keys, title, matcher, threshold)
      else FindMovie(Dict().keys, title, matcher, threshold)
    }

    /** `get_movie_details(movie_title)`: the row of the matched title, or an
        error naming the requested title. */
    function GetMovieDetails(movieTitle: string, matcher: Matcher): (r: Result<Details, string>)
      reads this
      requires Valid() && IsCloseMatcher(matcher)
      ensures r.Err? <==> !Found(FindMovieIn(movieTitle, matcher, DefaultCutoff))
      ensures r.Err? ==> r.error == NotFoundMessage(movieTitle)
      ensures r.Ok? ==> r.value.title == Movies()[Dict().index[FindMovieIn(movieTitle, matcher, DefaultCutoff).value]].title
      ensures movieTitle in Dict().keys && movieTitle != "" ==>
                r.Ok? && r.value.title == Movies()[Dict().index[movieTitle]].title
    {
      var matched := FindMovieIn(movieTitle, matcher, DefaultCutoff);
      if !Found(matched) then Err(NotFoundMessage(movieTitle))
      else
        var m := Movies()[Dict().index[matched.value]];
        Ok(Details(m.title, m.releaseDate, m.primaryCompany, GenreList(m), m.voteAverage, m.voteCount,
                   m.popularity, ShortOverview(m.overview),
                   if m.imdbId.Some? then m.imdbId.value else "N/A", PosterUrl(m.posterPath)))
    }

    /** `search_movies(query, n, min_rating)`: walks the keys, keeps those
        that contain the query ignoring case and rate high enough, and
        returns the first `n`. */
    method SearchMovies(query: string, n: int, minRating: Option<real>) returns (r: seq<string>)
      requires Valid()
      ensures r == SearchResult(Movies(), Dict(), query, n, minRating)
    {
      var queryLower := Lower(query);
      var keys := titles.value.keys;
      var hit := Hits(Movies(), Dict(), query, minRating);
      var matches: seq<string> := [];
      for k := 0 to |keys|
        invariant matches == Filter(keys[..k], hit)
      {
        var t := keys[k];
        assert keys[..k + 1][..k] == keys[..k];
        assert t in keys;
        if Contains(Lower(t), queryLower) {
          if RealTruthy(minRating) {
            var idx := titles.value.index[t];
            var rating := metadata.value[idx].voteAverage;
            if rating < minRating.value {
              continue;
            }
          }
          matches := matches + [t];
        }
      }
      assert keys[..|keys|] == keys;
      r := PyHead(matches, n);
    }

    /** The entries `get_recommendations` returns for a matched title. */
    function Recommendations(matched: string, n: int, f: Filters): (es: seq<Rec>)
      reads this
      requires Valid() && matched in Dict().index
    {
      var q := Dict().index[matched];
      var row := Sim()[q];
      Entries(Movies(), row, Picks(Movies(), row, Movies()[q], f, n))
    }

    /** `get_recommendations`. Without a match the answer is an error with up
        to five search suggestions. Otherwise the entries are those of the
        first `n` candidates, in descending similarity order without the
        top-ranked position, that pass every filter, ranked 1, 2, ... */
    method GetRecommendations(movieTitle: string, n: int, f: Filters, matcher: Matcher)
      returns (r: RecResult)
      requires Valid() && IsCloseMatcher(matcher)
      ensures !Found(FindMovieIn(movieTitle, matcher, DefaultCutoff)) ==>
                r == NotFound(movieTitle, SearchResult(Movies(), Dict(), movieTitle, 5, None))
      ensures Found(FindMovieIn(movieTitle, matcher, DefaultCutoff)) ==>
                var matched := FindMovieIn(movieTitle, matcher, DefaultCutoff).value;
                r.Recommended? && r.query == matched
                && r.recs == Recommendations(matched, n, f)
                && r.total == |r.recs| <= Max(n, 0)
                && (forall k :: 0 <= k < |r.recs| ==> r.recs[k].rank == k + 1)
    {
      var found := FindMovieIn(movieTitle, matcher, DefaultCutoff);
      if !Found(found) {
        var suggestions := SearchMovies(movieTitle, 5, None);
        return NotFound(movieTitle, suggestions);
      }
      var matched := found.value;
      var movieIdx := titles.value.index[matched];
      var source := metadata.value[movieIdx];
      var row := similarity.value[movieIdx];
      var candidates := Candidates(row);
      var recs := CollectRecommendations(metadata.value, row, candidates, source, f, n);
      forall k | 0 <= k < |recs|
        ensures recs[k].rank == k + 1
      {
        EntriesAt(metadata.value, row, Picks(metadata.value, row, source, f, n), k);
      }
      var details := QueryDetails(source.primaryCompany, GenreList(source), source.voteAverage, source.releaseDate);
      r := Recommended(matched, details, |recs|, recs);
    }

    /** `get_top_rated(n, min_votes, genres)`: the entries of the `n`
        best-rated rows with enough votes (and a requested genre), best
        first. */
    method GetTopRated(n: int, minVotes: int, genres: Option<seq<string>>) returns (results: seq<TopEntry>)
      requires Valid()
      ensures results == TopRated(Movies(), n, minVotes, genres)
      ensures |results| <= Max(n, 0)
      ensures forall k :: 0 <= k < |results| ==> results[k].votes >= minVotes
      ensures forall i, j :: 0 <= i < j < |results| ==> results[i].rating >= results[j].rating
    {
      var movies := metadata.value;
      results := CollectTopRated(movies, n, minVotes, genres);
      TopRatedEntries(movies, n, minVotes, genres);
    }

    /** `get_diverse_recommendations(movie_title, n, diversity_weight)`:
        without a match an error; otherwise `min(n, N - 1)` rounds of maximal
        marginal relevance over the other `N - 1` movies, each round picking
        the open candidate with the highest score (the first among equals),
        and the entries of the picks in selection order. */
    method GetDiverseRecommendations(movieTitle: string, n: int, w: real, matcher: Matcher)
      returns (r: DiverseResult)
      requires Valid() && IsCloseMatcher(matcher)
      ensures !Found(FindMovieIn(movieTitle, matcher, DefaultCutoff)) ==> r == DiverseNotFound(movieTitle)
      ensures Found(FindMovieIn(movieTitle, matcher, DefaultCutoff)) ==>
                var matched := FindMovieIn(movieTitle, matcher, DefaultCutoff).value;
                var q := Dict().index[matched];
                r.Diverse? && r.query == matched
                && exists sel :: MmrSequence(Sim(), q, w, sel)
                                 && |sel| == Max(0, Min(n, |Movies()| - 1))
                                 && r.recs == DiverseEntries(Movies(), Sim()[q], sel)
    {
      var found := FindMovieIn(movieTitle, matcher, DefaultCutoff);
      if !Found(found) {
        return DiverseNotFound(movieTitle);
      }
      var matched := found.value;
      var movieIdx := titles.value.index[matched];
      var sim := similarity.value;
      var selected := SelectDiverse(sim, movieIdx, n, w);
      var row := sim[movieIdx];
      var recs: seq<DiverseRec> := [];
      for k := 0 to |selected|
        invariant |recs| == k
        invariant forall j :: 0 <= j < k ==> recs[j] == DiverseEntry(metadata.value, row, selected[j], j + 1)
      {
        recs := recs + [DiverseEntry(metadata.value, row, selected[k], k + 1)];
      }
      assert recs == DiverseEntries(metadata.value, row, selected);
      r := Diverse(matched, recs);
    }
  }
}
