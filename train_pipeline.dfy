/** `MovieRecommenderTrainer.train` and `save_model` in training/train.py:
    feature engineering, the `max_movies` cut, the similarity matrix, and the
    artifacts written for inference. Reading the CSV and writing the files
    are left out; the artifacts are returned as a value. */
module TrainPipeline {
  import opened Base
  import opened PyList
  import opened Metadata
  import opened Artifacts
  import opened TrainFeatures
  import opened TrainSimilarity

  /** `df.head(max_movies) if max_movies and len(df) > max_movies else df`.
      A positive cap keeps the first rows up to the cap; a negative one, as
      `head` does, drops that many rows from the end. */
  function CapMovies<T>(rows: seq<T>, maxMovies: Option<int>): (r: seq<T>)
    ensures r <= rows
    ensures (maxMovies.None? || maxMovies.value == 0) ==> r == rows
    ensures maxMovies.Some? && maxMovies.value > 0 ==> |r| == Min(|rows|, maxMovies.value)
    ensures maxMovies.Some? && maxMovies.value < 0 ==> |r| == Max(|rows| + maxMovies.value, 0)
  {
    if IntTruthy(maxMovies) && |rows| > maxMovies.value then PyHead(rows, maxMovies.value) else rows
  }

  /** The columns of `save_model`'s `metadata_df` for one row; the saved
      `genres` is the cleaned list of names. */
  function ToMovie(e: Engineered): (m: Movie)
    requires e.raw.title.Some?
    ensures m.title == e.raw.title.value && m.id == e.raw.id
    ensures m.genres == Some(e.genres) && m.primaryCompany == e.primaryCompany
  {
    Movie(e.raw.id, e.raw.title.value, e.raw.releaseDate, e.primaryCompany, Some(e.genres),
          e.raw.voteAverage, e.raw.voteCount, e.raw.popularity, e.raw.overview,
          e.raw.imdbId, e.raw.posterPath)
  }

  function MetadataOf(rows: seq<Engineered>): (ms: seq<Movie>)
    requires forall e :: e in rows ==> e.raw.title.Some?
    ensures |ms| == |rows|
    ensures forall i :: 0 <= i < |rows| ==> ms[i] == ToMovie(rows[i])
  {
    seq(|rows|, i requires 0 <= i < |rows| => ToMovie(rows[i]))
  }

  /** Titles that are unique as optional values are unique as text. */
  lemma UniqueTitleTexts(rows: seq<Engineered>)
    requires forall e :: e in rows ==> e.raw.title.Some?
    requires UniqueTitles(rows)
    ensures Distinct(Titles(MetadataOf(rows)))
  {
    var ts := Titles(MetadataOf(rows));
    forall i, j | 0 <= i < j < |ts|
      ensures ts[i] != ts[j]
    {
      assert rows[i] in rows && rows[j] in rows;
      assert rows[i].raw.title != rows[j].raw.title;
    }
  }

  /** The foreign numerics: the outcome of fitting the TF-IDF vectorizer to
      the soups under a `max_features` cap (its vocabulary size, or the error
      it raises when no term is left), and `cosine_similarity` of rows `i`
      and `j` of the TF-IDF matrix and of its SVD reduction to `k`
      components. */
  datatype Numerics = Numerics(
    fitTfidf: (seq<string>, nat) -> Result<nat, string>,
    cosTfidf: (seq<string>, nat, nat) -> real,
    cosReduced: (seq<string>, int, nat, nat) -> real)

  function Soups(rows: seq<Engineered>): (s: seq<string>)
    ensures |s| == |rows|
    ensures forall i :: 0 <= i < |rows| ==> s[i] == rows[i].soup
  {
    seq(|rows|, i requires 0 <= i < |rows| => rows[i].soup)
  }

  /** `build_tfidf_matrix` then the plan of `compute_similarity_matrix` for
      the final rows, or the error either raises. */
  function SimilarityPlan(rows: seq<Engineered>, useSvd: bool, nComponents: int, num: Numerics): Result<Plan, string>
  {
    var n := |rows|;
    var cols := TfidfColumns(n, num.fitTfidf(Soups(rows), MaxFeatures(n)));
    if cols.Err? then Err(cols.error)
    else
      var plan := PlanFor(useSvd, nComponents, n, cols.value);
      if SvdAccepts(plan) then Ok(plan) else Err(SvdRejectsComponents)
  }

  /** A table of at most four rows never gets a similarity matrix. */
  lemma SmallTablesFail(rows: seq<Engineered>, useSvd: bool, nComponents: int, num: Numerics)
    requires |rows| <= 4
    ensures SimilarityPlan(rows, useSvd, nComponents, num).Err?
  {
    TfidfRejectsSmallTables(|rows|, num.fitTfidf(Soups(rows), MaxFeatures(|rows|)));
  }

  /** The similarity of rows `i` and `j` of the final table under `plan`:
      the cosine of their TF-IDF rows, or of their SVD reductions. */
  function SimilarityAt(rows: seq<Engineered>, plan: Plan, num: Numerics, i: nat, j: nat): real
  {
    if plan.Reduced? then num.cosReduced(Soups(rows), plan.components, i, j)
    else num.cosTfidf(Soups(rows), i, j)
  }

  /** The rows of an `n` x `n` array. */
  function Rows(m: array2<real>): (r: seq<seq<real>>)
    reads m
    ensures |r| == m.Length0 && forall i :: 0 <= i < |r| ==> |r[i]| == m.Length1
    ensures forall i, j :: 0 <= i < m.Length0 && 0 <= j < m.Length1 ==> r[i][j] == m[i, j]
  {
    seq(m.Length0, i requires 0 <= i < m.Length0 reads m =>
      seq(m.Length1, j requires 0 <= j < m.Length1 reads m => m[i, j]))
  }

  /** `build_tfidf_matrix` and `compute_similarity_matrix` on the final
      rows: an error exactly when the vectorizer or SVD raises, and otherwise
      the square matrix of the planned similarity of every pair of rows. */
  method BuildSimilarity(rows: seq<Engineered>, useSvd: bool, nComponents: int, num: Numerics)
    returns (r: Result<seq<seq<real>>, string>)
    ensures r.Err? <==> SimilarityPlan(rows, useSvd, nComponents, num).Err?
    ensures r.Ok? ==> Square(r.value, |rows|)
    ensures r.Ok? ==> forall i, j :: 0 <= i < |rows| && 0 <= j < |rows| ==>
              r.value[i][j] == SimilarityAt(rows, SimilarityPlan(rows, useSvd, nComponents, num).value, num, i, j)
  {
    var n := |rows|;
    var soups := Soups(rows);
    var cols := TfidfColumns(n, num.fitTfidf(soups, MaxFeatures(n)));
    if cols.Err? {
      return Err(cols.error);
    }
    var m, plan := ComputeSimilarityMatrix(useSvd, nComponents, n, cols.value,
                                           (i: nat, j: nat) => num.cosTfidf(soups, i, j),
                                           (k: int, i: nat, j: nat) => num.cosReduced(soups, k, i, j));
    if m.Err? {
      return Err(m.error);
    }
    r := Ok(Rows(m.value));
  }

  /** The three steps of training after the row cut, ending with
      `save_model`. It fails exactly when the vectorizer or SVD raises;
      otherwise the matrix holds the planned similarity of every pair of
      rows, titles map to their own rows, the matrix is saved sparse exactly
      above ten million entries, and the configuration records the row count
      and, only when SVD ran, the requested component count. */
  method BuildArtifacts(rows: seq<Engineered>, useSvd: bool, nComponents: int, num: Numerics)
    returns (r: Result<Artifact, string>)
    requires forall e :: e in rows ==> e.raw.title.Some?
    requires UniqueTitles(rows)
    ensures r.Err? <==> SimilarityPlan(rows, useSvd, nComponents, num).Err?
    ensures r.Ok? ==> Square(r.value.similarity, |rows|)
    ensures r.Ok? ==> forall i, j :: 0 <= i < |rows| && 0 <= j < |rows| ==>
              r.value.similarity[i][j] == SimilarityAt(rows, SimilarityPlan(rows, useSvd, nComponents, num).value, num, i, j)
    ensures r.Ok? ==> r.value.metadata == MetadataOf(rows)
    ensures r.Ok? ==> WellFormed(r.value)
    ensures r.Ok? ==> Distinct(Titles(r.value.metadata))
    ensures r.Ok? ==> r.value.titles.keys == Titles(r.value.metadata)
    ensures r.Ok? ==> forall i :: 0 <= i < |r.value.metadata| ==>
              r.value.metadata[i].title in r.value.titles.index && r.value.titles.index[r.value.metadata[i].title] == i
    ensures r.Ok? ==> r.value.format == FormatFor(|rows| * |rows|)
    ensures r.Ok? ==> r.value.config == Config(|rows|, useSvd, if useSvd && |rows| > 1000 then Some(nComponents) else None,
                                               (|rows|, |rows|))
  {
    var n := |rows|;
    var sim := BuildSimilarity(rows, useSvd, nComponents, num);
    if sim.Err? {
      return Err(sim.error);
    }
    var metadata := MetadataOf(rows);
    var dict := TitleDictOf(Titles(metadata));
    TitlesMapToRows(rows);
    var config := Config(n, useSvd, if useSvd && n > 1000 then Some(nComponents) else None, (n, n));
    r := Ok(Artifact(metadata, sim.value, dict, config, FormatFor(n * n)));
  }

  /** The saved title map sends each saved title to its own row. */
  lemma TitlesMapToRows(rows: seq<Engineered>)
    requires forall e :: e in rows ==> e.raw.title.Some?
    requires UniqueTitles(rows)
    ensures var metadata := MetadataOf(rows);
            var dict := TitleDictOf(Titles(metadata));
            Distinct(Titles(metadata)) && dict.keys == Titles(metadata)
            && forall i :: 0 <= i < |metadata| ==> metadata[i].title in dict.index && dict.index[metadata[i].title] == i
  {
    var metadata := MetadataOf(rows);
    UniqueTitleTexts(rows);
    var titles := Titles(metadata);
    TitleDictOfUnique(titles);
    forall i | 0 <= i < |metadata|
      ensures metadata[i].title in TitleDictOf(titles).index && TitleDictOf(titles).index[metadata[i].title] == i
    {
      assert titles[i] == metadata[i].title;
    }
  }

  /** The rows `train` hands to `build_tfidf_matrix`: the cleaned table cut
      to its first `max_movies` rows, which are the best by quality. */
  function TrainRows(df: seq<RawMovie>, tier: string, maxMovies: Option<int>, ext: Externals): (r: Result<seq<Engineered>, string>)
    ensures r.Err? <==> exists m :: m in df && MeetsTier(m, tier) && Released(m) && Engineer(m, ext).Err?
    ensures r.Ok? ==> forall e :: e in r.value ==> e.raw.title.Some?
    ensures r.Ok? ==> UniqueTitles(r.value)
    ensures r.Ok? && maxMovies.Some? && maxMovies.value > 0 ==> |r.value| <= maxMovies.value
  {
    EngineeredRows(df, tier, ext);
    var staged := Staged(df, tier, ext);
    if staged.Err? then Err(staged.error)
    else
      var cleaned := Finish(staged.value, ext.log1p);
      FinishKeeps(staged.value, ext.log1p);
      var rows := CapMovies(cleaned, maxMovies);
      PrefixKeepsTitles(cleaned, rows);
      Ok(rows)
  }

  /** The cleaned table cut to `max_movies` rows is what `TrainRows`
      specifies. */
  lemma CleanedRows(df: seq<RawMovie>, tier: string, maxMovies: Option<int>, ext: Externals, cleaned: seq<Engineered>)
    requires Staged(df, tier, ext).Ok? && cleaned == Finish(Staged(df, tier, ext).value, ext.log1p)
    ensures TrainRows(df, tier, maxMovies, ext) == Ok(CapMovies(cleaned, maxMovies))
  {
  }

  /** A prefix of a table with titles and unique titles has both. */
  lemma PrefixKeepsTitles(rows: seq<Engineered>, prefix: seq<Engineered>)
    requires prefix <= rows
    requires forall e :: e in rows ==> e.raw.title.Some?
    requires UniqueTitles(rows)
    ensures forall e :: e in prefix ==> e.raw.title.Some?
    ensures UniqueTitles(prefix)
  {
    forall e | e in prefix
      ensures e.raw.title.Some?
    {
      var k :| 0 <= k < |prefix| && prefix[k] == e;
      assert rows[k] == e;
    }
    forall i, j | 0 <= i < j < |prefix|
      ensures prefix[i].raw.title != prefix[j].raw.title
    {
      assert prefix[i] == rows[i] && prefix[j] == rows[j];
    }
  }

  /** `train(data_path, quality_threshold, max_movies)` followed by
      `save_model`. It fails exactly when feature engineering, the vectorizer
      or SVD fails; on success the metadata is the first `max_movies` rows of
      the cleaned table, the matrix holds their planned similarities, and the
      artifacts are consistent. */
  method Train(df: seq<RawMovie>, tier: string, maxMovies: Option<int>, useSvd: bool,
               nComponents: int, ext: Externals, num: Numerics)
    returns (r: Result<Artifact, string>)
    ensures r.Err? <==> TrainRows(df, tier, maxMovies, ext).Err?
                        || SimilarityPlan(TrainRows(df, tier, maxMovies, ext).value, useSvd, nComponents, num).Err?
    ensures r.Ok? ==> r.value.metadata == MetadataOf(TrainRows(df, tier, maxMovies, ext).value)
    ensures r.Ok? ==> Square(r.value.similarity, |TrainRows(df, tier, maxMovies, ext).value|)
    ensures r.Ok? ==> var rows := TrainRows(df, tier, maxMovies, ext).value;
              forall i, j :: 0 <= i < |rows| && 0 <= j < |rows| ==>
                r.value.similarity[i][j] == SimilarityAt(rows, SimilarityPlan(rows, useSvd, nComponents, num).value, num, i, j)
    ensures r.Ok? ==> WellFormed(r.value)
    ensures r.Ok? ==> Distinct(Titles(r.value.metadata))
    ensures r.Ok? ==> forall i :: 0 <= i < |r.value.metadata| ==>
              r.value.metadata[i].title in r.value.titles.index
              && r.value.titles.index[r.value.metadata[i].title] == i
    ensures r.Ok? && maxMovies.Some? && maxMovies.value > 0 ==> |r.value.metadata| <= maxMovies.value
    ensures r.Ok? ==> r.value.config.nMovies == |r.value.metadata|
  {
    var cleaned := CleanAndEngineerFeatures(df, tier, ext);
    if cleaned.Err? {
      return Err(cleaned.error);
    }
    var rows := CapMovies(cleaned.value, maxMovies);
    CleanedRows(df, tier, maxMovies, ext, cleaned.value);
    var a := BuildArtifacts(rows, useSvd, nComponents, num);
    if a.Err? {
      return Err(a.error);
    }
    r := Ok(a.value);
  }
}
