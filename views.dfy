/** The web application in recommender/views.py: the module-level cache of
    the movie table and of the similarity model, the recommendation list,
    the autocomplete search, the main page and the health check. A file read
    is a parameter (`Err` with the exception's text where it raises); a
    rendered page or a JSON body is a value. */
module Views {
  import opened Base
  import opened PyList
  import opened PyText
  import opened Ranking

  /** A row of the web app's movie table: its `title`, `release_date` and
      `main_director` columns, `None` where pandas holds a missing value. */
  datatype Film = Film(title: string, releaseDate: Option<string>, mainDirector: Option<string>)

  /** The similarity model as a table of columns: `model[movie_id]` is the
      column labelled `movie_id`, one score per row of the movie table. */
  type SimilarityModel = map<int, seq<real>>

  /** One entry of the recommendation list. The score is kept as a number;
      the source prints it with two decimals. */
  datatype ViewRec = ViewRec(
    movieTitle: string,
    movieReleaseDate: string,
    movieDirector: string,
    similarityScore: real,
    googleLink: string,
    imdbLink: string)

  /** `_MOVIES_DATA['title'].tolist()`. */
  function FilmTitles(films: seq<Film>): (r: seq<string>)
    ensures |r| == |films|
    ensures forall i :: 0 <= i < |films| ==> r[i] == films[i].title
  {
    seq(|films|, i requires 0 <= i < |films| => films[i].title)
  }

  /** `release_date.split("-")[0]`, or "Unknown" when the date is missing. */
  function ReleaseYear(date: Option<string>): (year: string)
    ensures date.None? ==> year == "Unknown"
    ensures date.Some? ==> year <= date.value && '-' !in year
    ensures date.Some? && '-' in date.value ==> date.value[|year|] == '-'
    ensures date.Some? && '-' !in date.value ==> year == date.value
  {
    if date.Some? then FirstPiece(date.value, '-') else "Unknown"
  }

  function KnownOr(s: Option<string>): string
  {
    if s.Some? then s.value else "Unknown"
  }

  /** `'+'.join(title.strip().split())`. */
  function QueryWords(title: string): string
  {
    Join(Words(Strip(title)), "+")
  }

  /** The Google search link: the title's words and the release year. */
  function GoogleLink(film: Film): string
  {
    "https://www.google.com/search?q=" + QueryWords(film.title) + "+(" + ReleaseYear(film.releaseDate) + ")"
  }

  /** The IMDb search link for the title's words. */
  function FindLink(film: Film): string
  {
    "https://www.imdb.com/find?q=" + QueryWords(film.title)
  }

  /** The entry for a film and its score. */
  function ViewEntry(film: Film, score: real): (e: ViewRec)
    ensures e.movieTitle == film.title && e.similarityScore == score
  {
    ViewRec(film.title, KnownOr(film.releaseDate), KnownOr(film.mainDirector), score,
            GoogleLink(film), FindLink(film))
  }

  /** Every shown position is a row of the movie table; otherwise `iloc`
      raises. */
  predicate InTable(films: seq<Film>, ps: seq<nat>)
  {
    forall k :: 0 <= k < |ps| ==> ps[k] < |films|
  }

  /** What `get_recommendations(movie_id, top_n)` answers once both files are
      loaded: `[]` when the model has no column `movie_id` or a shown
      position is outside the movie table (the exception is caught), and
      otherwise the entries of `TopAfterFirst(column, top_n)` in that order. */
  function Response(films: seq<Film>, model: SimilarityModel, movieId: int, topN: int): (r: seq<ViewRec>)
  {
    if movieId !in model then []
    else
      var column := model[movieId];
      var ps := TopAfterFirst(column, topN);
      if !InTable(films, ps) then [] else ViewEntries(films, column, ps)
  }

  /** The entries of the shown positions, in their order. */
  function ViewEntries(films: seq<Film>, column: seq<real>, ps: seq<nat>): (r: seq<ViewRec>)
    requires forall k :: 0 <= k < |ps| ==> ps[k] < |films| && ps[k] < |column|
    ensures |r| == |ps|
    decreases |ps|
  {
    if |ps| == 0 then []
    else ViewEntries(films, column, ps[..|ps| - 1]) + [ViewEntry(films[ps[|ps| - 1]], column[ps[|ps| - 1]])]
  }

  /** The `k`-th entry is the entry of the `k`-th shown position. */
  lemma {:induction false} ViewEntriesAt(films: seq<Film>, column: seq<real>, ps: seq<nat>, k: nat)
    requires forall k :: 0 <= k < |ps| ==> ps[k] < |films| && ps[k] < |column|
    requires k < |ps|
    ensures ViewEntries(films, column, ps)[k] == ViewEntry(films[ps[k]], column[ps[k]])
    decreases |ps|
  {
    if k < |ps| - 1 {
      var init := ps[..|ps| - 1];
      ViewEntriesAt(films, column, init, k);
      assert init[k] == ps[k];
    }
  }

  /** `r` lists, position by position, the entry of each shown position of
      the column, none of which is the column's top-ranked position. */
  predicate Shows(films: seq<Film>, model: SimilarityModel, movieId: int, topN: int, r: seq<ViewRec>)
  {
    movieId in model
    && var ps := TopAfterFirst(model[movieId], topN);
    |r| == |ps| && InTable(films, ps)
    && forall k :: 0 <= k < |r| ==>
         r[k] == ViewEntry(films[ps[k]], model[movieId][ps[k]])
         && (|model[movieId]| > 0 ==> ps[k] != RankOrder(model[movieId])[0])
  }

  /** The recommendation list holds at most `top_n` entries (for
      `top_n >= 0`), in non-increasing score order; each is the film at its
      shown position with that position's score, and the movie's own top
      entry is never shown. */
  lemma ResponseSpec(films: seq<Film>, model: SimilarityModel, movieId: int, topN: int)
    ensures var r := Response(films, model, movieId, topN);
            0 <= topN ==> |r| <= topN
    ensures var r := Response(films, model, movieId, topN);
            forall i, j :: 0 <= i < j < |r| ==> r[i].similarityScore >= r[j].similarityScore
    ensures var r := Response(films, model, movieId, topN);
            |r| > 0 ==> Shows(films, model, movieId, topN, r)
  {
    var r := Response(films, model, movieId, topN);
    if movieId in model {
      var column := model[movieId];
      var ps := TopAfterFirst(column, topN);
      TopAfterFirstSpec(column, topN);
      if InTable(films, ps) {
        forall k | 0 <= k < |r|
          ensures r[k] == ViewEntry(films[ps[k]], column[ps[k]])
        {
          ViewEntriesAt(films, column, ps, k);
        }
        forall i, j | 0 <= i < j < |r|
          ensures r[i].similarityScore >= r[j].similarityScore
        {
          assert Precedes(column, ps[i], ps[j]);
        }
        forall k | 0 <= k < |r| && |column| > 0
          ensures ps[k] != RankOrder(column)[0]
        {
          assert ps[k] in ps;
        }
      }
    }
  }

  /** The body of `get_recommendations` once both files are loaded: the
      column lookup, the ranking and slice, the `iloc` of the shown
      positions, and the formatting loop. */
  method Respond(films: seq<Film>, model: SimilarityModel, movieId: int, topN: int)
    returns (response: seq<ViewRec>)
    ensures response == Response(films, model, movieId, topN)
  {
    if movieId !in model {
      return [];
    }
    var column := model[movieId];
    var ps := TopAfterFirst(column, topN);
    if !InTable(films, ps) {
      return [];
    }
    response := FormatEntries(films, column, ps);
  }

  /** `for _, row in recommended_movies.iterrows(): response.append(...)`. */
  method FormatEntries(films: seq<Film>, column: seq<real>, ps: seq<nat>) returns (response: seq<ViewRec>)
    requires forall k :: 0 <= k < |ps| ==> ps[k] < |films| && ps[k] < |column|
    ensures response == ViewEntries(films, column, ps)
  {
    response := [];
    for k := 0 to |ps|
      invariant response == ViewEntries(films, column, ps[..k])
    {
      ViewEntriesStep(films, column, ps, k);
      response := response + [ViewEntry(films[ps[k]], column[ps[k]])];
    }
    assert ps[..|ps|] == ps;
  }

  /** One more shown position appends its entry. */
  lemma ViewEntriesStep(films: seq<Film>, column: seq<real>, ps: seq<nat>, k: nat)
    requires forall k :: 0 <= k < |ps| ==> ps[k] < |films| && ps[k] < |column|
    requires k < |ps|
    ensures ViewEntries(films, column, ps[..k + 1])
            == ViewEntries(films, column, ps[..k]) + [ViewEntry(films[ps[k]], column[ps[k]])]
  {
    assert ps[..k + 1][..k] == ps[..k];
  }

  /** `request.GET.get('q', '').strip().lower()`. */
  function SearchQuery(q: Option<string>): string
  {
    Lower(Strip(if q.Some? then q.value else ""))
  }

  function MatchesQuery(query: string): string -> bool
  {
    (t: string) => Contains(Lower(t), query)
  }

  /** The autocomplete list for a query that is already stripped and
      lower-cased: nothing below two characters, otherwise the first twenty
      titles that contain it ignoring case, in list order. */
  function Autocomplete(titles: seq<string>, query: string): (r: seq<string>)
    ensures |r| <= 20
    ensures |query| < 2 ==> r == []
  {
    if |query| < 2 then [] else Take(Filter(titles, MatchesQuery(query)), 20)
  }

  /** The results are titles containing the query, in list order; when fewer
      than twenty come back, every title containing the query is among
      them. */
  lemma AutocompleteSpec(titles: seq<string>, query: string, t: string)
    requires |query| >= 2
    ensures Autocomplete(titles, query) <= Filter(titles, MatchesQuery(query))
    ensures t in Autocomplete(titles, query) ==> t in titles && Contains(Lower(t), query)
    ensures |Autocomplete(titles, query)| < 20 && t in titles && Contains(Lower(t), query)
            ==> t in Autocomplete(titles, query)
  {
    FilterMembers(titles, MatchesQuery(query));
    var all := Filter(titles, MatchesQuery(query));
    if t in Autocomplete(titles, query) {
      assert t in all;
    }
    if |Autocomplete(titles, query)| < 20 {
      assert Autocomplete(titles, query) == all;
    }
  }

  /** The JSON body of `search_movies`. */
  datatype SearchResponse =
    | ShortQuery(movies: seq<string>)
    | SearchResults(movies: seq<string>, count: nat)
    | SearchFailed(error: string)

  /** The JSON body of `health_check`. */
  datatype Health =
    | Healthy(moviesLoaded: nat, modelLoaded: bool)
    | Unhealthy(error: string)

  datatype Request = Get | Post(movieName: Option<string>)

  /** The pages `main` renders, with their context. */
  datatype Page =
    | ErrorPage(errorMessage: string)
    | IndexPage(allMovieNames: seq<string>, totalMovies: nat, inputMovieName: Option<string>,
                error: Option<string>)
    | ResultPage(allMovieNames: seq<string>, queryName: string, recommendedMovies: seq<ViewRec>,
                 totalRecommendations: nat)

  const LoadFailedMessage := "Failed to load movie database. Please try again later."
  const EmptyNameMessage := "Please enter a movie name."
  const NoRecommendationsMessage := "Could not generate recommendations. Please try again."
  const TopN := 15

  function NotFoundMessage(name: string): string
  {
    "Movie \"" + name + "\" not found in our database."
  }

  /** The lookup branch of `main`: the stripped name, then an error for an
      empty name or one that is not a title, and otherwise the first
      position of the name in the title list. */
  function Lookup(titles: seq<string>, movieName: Option<string>): (r: Result<nat, string>)
    ensures var name := PostedName(movieName);
            (r.Err? <==> name == "" || name !in titles)
            && (r.Err? && name == "" ==> r.error == EmptyNameMessage)
            && (r.Err? && name != "" ==> r.error == NotFoundMessage(name))
            && (r.Ok? ==> r.value < |titles| && titles[r.value] == name && name !in titles[..r.value])
  {
    var name := PostedName(movieName);
    if name == "" then Err(EmptyNameMessage)
    else if name !in titles then Err(NotFoundMessage(name))
    else Ok(IndexOf(titles, name))
  }

  /** The name a POST carries: `request.POST.get('movie_name', '').strip()`. */
  function PostedName(movieName: Option<string>): string
  {
    Strip(if movieName.Some? then movieName.value else "")
  }

  /** What `main` renders once the titles are loaded, given the
      recommendations it got for the looked-up position. */
  function MainPage(titles: seq<string>, request: Request, recommendations: seq<ViewRec>): Page
  {
    if request.Get? then IndexPage(titles, |titles|, None, None)
    else
      var name := PostedName(request.movieName);
      var found := Lookup(titles, request.movieName);
      if found.Err? then IndexPage(titles, |titles|, if name == "" then None else Some(name), Some(found.error))
      else if |recommendations| == 0 then IndexPage(titles, |titles|, Some(name), Some(NoRecommendationsMessage))
      else ResultPage(titles, name, recommendations, |recommendations|)
  }

  /** `main` calls `get_recommendations` only for a POST whose name is a
      title. */
  predicate MainLooksUp(titles: seq<string>, request: Request)
  {
    request.Post? && Lookup(titles, request.movieName).Ok?
  }

  /** The recommendations `main` asks for: those of the name's first
      position, once the model is loaded, and none otherwise. */
  function MainRecommendations(films: seq<Film>, model: Option<SimilarityModel>, titles: seq<string>,
                               request: Request): seq<ViewRec>
  {
    if MainLooksUp(titles, request) && model.Some? then
      Response(films, model.value, Lookup(titles, request.movieName).value, TopN)
    else []
  }

  /** The result page is shown exactly for a POST naming a title with a
      non-empty recommendation list, and shows that list and its length;
      every other POST gets the search page with the error message of its
      case. */
  lemma MainPageSpec(titles: seq<string>, request: Request, recommendations: seq<ViewRec>)
    ensures var page := MainPage(titles, request, recommendations);
            page.ResultPage? <==> request.Post? && Lookup(titles, request.movieName).Ok? && |recommendations| > 0
    ensures var page := MainPage(titles, request, recommendations);
            page.ResultPage? ==> page.recommendedMovies == recommendations
                                 && page.totalRecommendations == |recommendations|
                                 && page.queryName in titles
    ensures var page := MainPage(titles, request, recommendations);
            request.Post? && PostedName(request.movieName) == "" ==> page.IndexPage? && page.error == Some(EmptyNameMessage)
    ensures var page := MainPage(titles, request, recommendations);
            request.Post? && PostedName(request.movieName) != "" && PostedName(request.movieName) !in titles
            ==> page.IndexPage? && page.error == Some(NotFoundMessage(PostedName(request.movieName)))
    ensures var page := MainPage(titles, request, recommendations);
            request.Post? && Lookup(titles, request.movieName).Ok? && |recommendations| == 0
            ==> page.IndexPage? && page.error == Some(NoRecommendationsMessage)
  {
  }

  /** The module globals `_MOVIES_DATA`, `_TITLES_LIST` and
      `_SIMILARITY_MODEL`, and the functions that read or set them. */
  class ViewCache {
    var moviesData: Option<seq<Film>>
    var titlesList: Option<seq<string>>
    var similarityModel: Option<SimilarityModel>

    /** The title list is only ever set next to the table it was read from. */
    predicate Coherent()
      reads this
    {
      titlesList.Some? ==> moviesData.Some? && titlesList.value == FilmTitles(moviesData.value)
    }

    predicate MoviesLoaded()
      reads this
    {
      moviesData.Some? && titlesList.Some?
    }

    /** What a view that loads the table leaves in the table globals: a
        table already loaded is kept as it was; otherwise the table is
        loaded from `file` when that read succeeds, and the globals stay
        unset when it fails. */
    twostate predicate MoviesCached(file: Result<seq<Film>, string>)
      reads this
    {
      if old(MoviesLoaded()) then moviesData == old(moviesData) && titlesList == old(titlesList)
      else if file.Ok? then moviesData == Some(file.value) && titlesList == Some(FilmTitles(file.value))
      else moviesData == old(moviesData) && titlesList == old(titlesList)
    }

    /** The globals at import: nothing loaded. */
    constructor ()
      ensures moviesData.None? && titlesList.None? && similarityModel.None?
      ensures Coherent()
    {
      moviesData := None;
      titlesList := None;
      similarityModel := None;
    }

    /** `_load_movie_data()`: reads the table only while a global is still
        `None`; a read that raises leaves the globals as they were (so the
        next call reads again), and once loaded the cached values are
        returned without reading. */
    method LoadMovieData(file: Result<seq<Film>, string>) returns (r: Result<(seq<Film>, seq<string>), string>)
      requires Coherent()
      modifies this
      ensures Coherent()
      ensures similarityModel == old(similarityModel)
      ensures old(MoviesLoaded()) ==> unchanged(this) && r == Ok((old(moviesData.value), old(titlesList.value)))
      ensures !old(MoviesLoaded()) && file.Err? ==> unchanged(this) && r == Err(file.error)
      ensures !old(MoviesLoaded()) && file.Ok? ==>
                moviesData == Some(file.value) && titlesList == Some(FilmTitles(file.value))
                && r == Ok((file.value, FilmTitles(file.value)))
      ensures r.Ok? <==> MoviesLoaded()
      ensures r.Ok? ==> r.value == (moviesData.value, titlesList.value)
    {
      if moviesData.None? || titlesList.None? {
        if file.Err? {
          return Err(file.error);
        }
        moviesData := Some(file.value);
        titlesList := Some(FilmTitles(file.value));
      }
      r := Ok((moviesData.value, titlesList.value));
    }

    /** `_load_similarity_model()`: the same load-once rule for the model. */
    method LoadSimilarityModel(file: Result<SimilarityModel, string>) returns (r: Result<SimilarityModel, string>)
      modifies this
      ensures moviesData == old(moviesData) && titlesList == old(titlesList)
      ensures old(similarityModel).Some? ==> unchanged(this) && r == Ok(old(similarityModel).value)
      ensures old(similarityModel).None? && file.Err? ==> unchanged(this) && r == Err(file.error)
      ensures old(similarityModel).None? && file.Ok? ==> similarityModel == Some(file.value) && r == Ok(file.value)
      ensures r.Ok? <==> similarityModel.Some?
      ensures r.Ok? ==> r.value == similarityModel.value
    {
      if similarityModel.None? {
        if file.Err? {
          return Err(file.error);
        }
        similarityModel := Some(file.value);
      }
      r := Ok(similarityModel.value);
    }

    /** `get_recommendations(movie_id, top_n)`: loads the table, then the
        model (only once the table loaded), and answers `Response` on them;
        any failure gives `[]`. */
    method GetRecommendations(movieId: int, topN: int, moviesFile: Result<seq<Film>, string>,
                              modelFile: Result<SimilarityModel, string>)
      returns (response: seq<ViewRec>)
      requires Coherent()
      modifies this
      ensures Coherent()
      ensures old(MoviesLoaded()) ==> moviesData == old(moviesData) && titlesList == old(titlesList)
      ensures !old(MoviesLoaded()) ==> MoviesLoaded() == moviesFile.Ok?
      ensures !MoviesLoaded() ==> unchanged(this)
      ensures MoviesLoaded() ==>
                similarityModel == (if old(similarityModel).Some? then old(similarityModel)
                                    else if modelFile.Ok? then Some(modelFile.value) else None)
      ensures MoviesLoaded() && similarityModel.Some? ==>
                response == Response(moviesData.value, similarityModel.value, movieId, topN)
      ensures !(MoviesLoaded() && similarityModel.Some?) ==> response == []
    {
      var data := LoadMovieData(moviesFile);
      if data.Err? {
        return [];
      }
      var model := LoadSimilarityModel(modelFile);
      if model.Err? {
        return [];
      }
      response := Respond(data.value.0, model.value, movieId, topN);
    }

    /** `search_movies(request)`: a query shorter than two characters
        answers an empty list without touching the cache; otherwise the
        titles are loaded and the autocomplete list and its length are
        answered, or an error when loading fails. */
    method SearchMovies(q: Option<string>, moviesFile: Result<seq<Film>, string>) returns (resp: SearchResponse)
      requires Coherent()
      modifies this
      ensures Coherent()
      ensures |SearchQuery(q)| < 2 ==> unchanged(this) && resp == ShortQuery([])
      ensures |SearchQuery(q)| >= 2 ==> MoviesCached(moviesFile) && similarityModel == old(similarityModel)
      ensures |SearchQuery(q)| >= 2 ==> (resp.SearchFailed? <==> !MoviesLoaded())
      ensures |SearchQuery(q)| >= 2 && MoviesLoaded() ==>
                resp == SearchResults(Autocomplete(titlesList.value, SearchQuery(q)),
                                      |Autocomplete(titlesList.value, SearchQuery(q))|)
      ensures resp.SearchResults? ==> resp.count == |resp.movies| <= 20
    {
      var query := SearchQuery(q);
      if |query| < 2 {
        return ShortQuery([]);
      }
      var data := LoadMovieData(moviesFile);
      if data.Err? {
        return SearchFailed("Search failed");
      }
      var titles := data.value.1;
      assert MoviesLoaded() && titles == titlesList.value;
      var matching := Autocomplete(titles, query);
      assert |matching| <= 20;
      resp := SearchResults(matching, |matching|);
    }

    /** `health_check(request)`: healthy exactly when the table loads, with
        the number of titles and whether the model global is set. */
    method HealthCheck(moviesFile: Result<seq<Film>, string>) returns (h: Health)
      requires Coherent()
      modifies this
      ensures Coherent()
      ensures MoviesCached(moviesFile) && similarityModel == old(similarityModel)
      ensures h.Healthy? <==> MoviesLoaded()
      ensures h.Healthy? ==> h.moviesLoaded == |titlesList.value| && (h.modelLoaded <==> similarityModel.Some?)
      ensures h.Unhealthy? ==> moviesFile.Err? && h.error == moviesFile.error
    {
      var data := LoadMovieData(moviesFile);
      if data.Err? {
        return Unhealthy(data.error);
      }
      h := Healthy(|data.value.1|, similarityModel.Some?);
    }

    /** `main(request)`: the error page when the table cannot load, and
        otherwise `MainPage` on the loaded titles with the recommendations
        for the name's first position, computed only for a POST whose name
        is a title. */
    method MainView(request: Request, moviesFile: Result<seq<Film>, string>,
                modelFile: Result<SimilarityModel, string>)
      returns (page: Page)
      requires Coherent()
      modifies this
      ensures Coherent()
      ensures MoviesCached(moviesFile)
      ensures similarityModel ==
                if MoviesLoaded() && MainLooksUp(titlesList.value, request)
                   && old(similarityModel).None? && modelFile.Ok?
                then Some(modelFile.value) else old(similarityModel)
      ensures !MoviesLoaded() ==> page == ErrorPage(LoadFailedMessage)
      ensures MoviesLoaded() ==>
                page == MainPage(titlesList.value, request,
                                 MainRecommendations(moviesData.value, similarityModel, titlesList.value, request))
    {
      var data := LoadMovieData(moviesFile);
      if data.Err? {
        return ErrorPage(LoadFailedMessage);
      }
      var titles := data.value.1;
      var recommendations: seq<ViewRec> := [];
      var found := if request.Post? then Lookup(titles, request.movieName) else Err("");
      if found.Ok? {
        recommendations := GetRecommendations(found.value, TopN, moviesFile, modelFile);
      }
      assert recommendations == MainRecommendations(moviesData.value, similarityModel, titles, request);
      page := MainPage(titles, request, recommendations);
    }
  }
}
