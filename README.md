# Movie recommender: a verified model of its ranking, filtering and feature logic

This project models the discrete logic of a content-based movie recommender.
The recommender has two halves. The training pipeline turns a TMDB CSV into a
metadata table, a movie-by-movie similarity matrix and a title-to-row map. The
inference side and a Django front end answer queries against those artifacts.

The model covers four parts:

- **Training pipeline** (`training/train.py`):
  - `parse_json_column` and `extract_director_from_companies`;
  - the vote-count quality tier and the released-only filter;
  - the weighted token "soup" and the soup-length and title filters;
  - de-duplication by title and the ordering by quality score;
  - the `max_features` and SVD component rules, and the chunk partition used to fill the similarity matrix;
  - the sparse/dense choice and the title-to-row map written by `save_model`;
  - the `max_movies` cut of `train`.
- **Inference class** `MovieRecommender` (`training/infer.py`):
  - loading;
  - fuzzy title resolution and movie details;
  - the filtered top-N loop, including year parsing;
  - substring search and top-rated selection;
  - the Maximal-Marginal-Relevance (MMR) diversity loop.
- **Web views** (`recommender/views.py`):
  - the load-once module-global cache;
  - the sort-and-slice recommendation list;
  - autocomplete search;
  - the main page's lookup and branching;
  - the health check.
- **Legacy helper** `get_recommendations` (`recommender/utils.py`).

Python's `sorted(enumerate(row), key=score, reverse=True)` is a stable sort. It
orders positions by descending score, and equal scores keep their index order.
`Ranking.RankOrder` is that order. `Ranking.Ranked` states it, and
`Ranking.RankedUnique` proves that the specification determines the order.
Every "sort, drop the first, take N" rule in the three ranking sites is built
on it.

The numeric libraries are parameters:
- cosine similarity, TF-IDF and SVD;
- `np.log1p`;
- the Snowball stemmer;
- `ast.literal_eval`;
- `difflib.get_close_matches`.

Scores and ratings are exact `real`s. The file reads of the web views and of
`load_models` are modelled as given outcomes, either a value or an error.

Modules:

| module | models |
|---|---|
| `Base`, `PyList`, `PyText` | the Python built-ins the code relies on: slicing, `list.remove`, `str.strip`, `split`, `join`, `lower`, `int()` |
| `Ranking` | the stable descending sort of `enumerate(row)` and the drop-first / take-N rule |
| `Metadata`, `Artifacts` | the saved metadata rows, the title-to-row map, the storage format and the artifact invariants |
| `TrainColumns`, `TrainFeatures`, `TrainSimilarity`, `TrainPipeline` | `training/train.py` |
| `InferSpec`, `Inference` | `training/infer.py`: specification functions, then the `MovieRecommender` class and its loops |
| `Views` | `recommender/views.py`: the response functions and the `ViewCache` class holding the module globals |
| `LegacyUtils` | `recommender/utils.py` |

## Model

| member | source | states |
|---|---|---|
| Base.MapOk | training/train.py:120-123 | applying a fallible per-row step to a column fails exactly when some row fails; on success it holds each row's result, position by position |
| Base.MapOkMembers | training/train.py:120-123 | the same facts by membership: the column fails iff a member fails, every output comes from an input, and every input's output is present |
| PyList.FilterMembers | training/train.py:112 | a list comprehension with a condition keeps exactly the members of the input that satisfy it |
| PyList.Take | training/infer.py:147-149 | the loop's stop after `n` entries: a prefix of length `min(n, len)`, empty when `n <= 0` |
| PyList.PyHead | training/infer.py:235 | `xs[:n]` is a prefix; its length is `min(n, len)` for `n >= 0` and `max(len + n, 0)` for negative `n` |
| PyList.PySlice | training/infer.py:141 | a Python slice with clamped bounds is a subsequence of the expected length |
| PyList.IndexOf | recommender/views.py:172 | `list.index(x)` is the position of the first occurrence of `x` |
| PyList.Remove | training/infer.py:303 | `list.remove(x)` shortens the list by one and keeps every other member |
| PyList.RemoveShifts | training/infer.py:327 | positions before the removed element are unchanged and later ones shift left by one |
| PyText.Lower | training/infer.py:224 | `str.lower` maps each character, keeping the length |
| PyText.LowerIdempotent | recommender/views.py:205 | lower-casing twice equals lower-casing once, and it introduces no whitespace |
| PyText.RemoveSpaces | training/train.py:147 | `replace(" ", "")` removes exactly the spaces and keeps every other character |
| PyText.ContainsIff | training/infer.py:227 | `q in s` holds iff `q` occurs at some offset of `s` |
| PyText.StripSpec | recommender/views.py:205 | `strip()` yields the window of the input without leading or trailing whitespace |
| PyText.StripTrimmed | training/train.py:81 | a string with no outer whitespace is its own `strip()` |
| PyText.WordsOfJoin | training/train.py:173 | `' '.join(tokens).split()` gives the tokens back when each token is non-empty and has no whitespace |
| PyText.JoinSplitOn | training/train.py:81 | joining the pieces of `split(c)` with `c` gives the original string |
| PyText.SplitOnJoin | training/train.py:81 | splitting the `c`-join of pieces free of `c` gives the pieces back |
| PyText.FirstPiece | recommender/views.py:99 | `split('-')[0]` is the prefix before the first `-`, or the whole string when there is no `-` |
| PyText.LastPieceCons | training/infer.py:158 | `split('-')[-1]` of `p + '-' + rest` is that of `rest` |
| PyText.ParseIntRejects | training/infer.py:158 | `int()` fails on text that starts with neither a sign nor a digit |
| PyText.ParseShowInt | training/infer.py:158 | `int(str(n)) == n` for every integer |
| Ranking.Insert | recommender/utils.py:8 | inserting a position into a ranked order keeps it ranked and adds exactly that position |
| Ranking.RankOrder | training/infer.py:137-138 | the stable descending sort of `enumerate(row)`: ranked, and a permutation of the positions |
| Ranking.RankedUnique | recommender/utils.py:8 | two ranked orders of the same positions are equal, so the sort result is determined |
| Ranking.RankedNonIncreasing | recommender/views.py:81-87 | along a ranked order the scores never increase |
| Ranking.RankedStable | recommender/utils.py:8 | equal scores appear in increasing index order |
| Ranking.FirstIsTop | training/infer.py:141 | the dropped first position has the highest score, and the lowest index among the ties for it |
| Ranking.FilterRanked | training/infer.py:147-180 | filtering a ranked order keeps it ranked |
| Ranking.TakeFilterFirst | training/infer.py:147-149 | a filtered top-N never skips a qualifying position in favour of a lower-ranked one |
| Ranking.TakeFilterAll | training/infer.py:147-149 | a filtered top-N shorter than N holds every qualifying position |
| Ranking.TopAfterFirstSpec | recommender/utils.py:7-9 | `sorted(...)[1:n+1]` is ranked, is the first `n` entries after the top one, has length `min(n, len-1)` and never holds the top position |
| Metadata.Titles | training/train.py:305 | the title column, row by row |
| Artifacts.TitleDictOf | training/train.py:305 | `pd.Series(df.index, index=df['title']).to_dict()`: keys are exactly the titles, and each maps to a row holding it |
| Artifacts.TitleDictLastWins | training/train.py:305 | for a repeated title the map keeps the last row |
| Artifacts.TitleDictOfUnique | training/train.py:180-305 | with unique titles, the keys are the titles in row order and each title maps to its own row |
| Artifacts.TitleIndexInjective | training/train.py:305 | distinct titles map to distinct rows |
| Artifacts.FormatFor | training/train.py:295-302 | sparse storage exactly when the matrix has more than 10,000,000 elements |
| Artifacts.SparseFromRows | training/train.py:295 | an n-by-n matrix is stored sparse exactly when n >= 3163 |
| TrainColumns.KeyValues | training/train.py:76 | `[item[key] for item in parsed if isinstance(item, dict) and key in item]` never grows the list |
| TrainColumns.KeyValuesIsFilterThenRead | training/train.py:76 | the comprehension equals "filter the dicts holding `key`, then read `key`", in order |
| TrainColumns.KeyValuesOfRecords | training/train.py:76 | on a list of `{key: v}` records it returns the values `v` in order |
| TrainColumns.KeyValuesSkips | training/train.py:76 | an item that is not a dict holding `key` contributes nothing |
| TrainColumns.StrippedPieces | training/train.py:81 | the comma fallback keeps only non-empty stripped pieces |
| TrainColumns.ParseJsonColumn | training/train.py:62-82 | `[]` for NaN, `''` or `'[]'`; the key values of a parsed list; `[]` for any other parsed value; the comma fallback when parsing fails |
| TrainColumns.CommaListRoundTrip | training/train.py:78-81 | a comma-joined list of names, padded with spaces, that `literal_eval` rejects parses back to the names |
| TrainColumns.ExtractDirector | training/train.py:84-90 | the first parsed company name, or None when the parse is empty |
| TrainFeatures.MinVotes | training/train.py:106-111 | `low`→5, `medium`→50, `high`→500, and 50 for any other tier |
| TrainFeatures.FilterTier | training/train.py:112 | a row survives iff its vote count reaches the tier's threshold |
| TrainFeatures.TiersNest | training/train.py:106-112 | the high tier's rows are a sub-list of medium's, and medium's of low's |
| TrainFeatures.Texts | training/train.py:147 | a parsed column is usable as text iff every value is a string |
| TrainFeatures.StemAll | training/train.py:141-143 | each keyword becomes the stem of its lower-cased, space-free form |
| TrainFeatures.SoupTokenBound | training/train.py:141-172 | the soup has at most 15 keyword, 2·genres, 2+3 company, 2 country, 50 overview and all tagline tokens |
| TrainFeatures.GenresWeighTwice | training/train.py:146-166 | every genre occurs at least twice among the soup tokens |
| TrainFeatures.FirstCompanyWeighsThrice | training/train.py:151-168 | the first company occurs at least three times among the soup tokens |
| TrainFeatures.SoupSplitsIntoTokens | training/train.py:173 | the joined soup splits back into its tokens |
| TrainFeatures.Engineer | training/train.py:120-173 | the engineered row keeps its CSV row |
| TrainFeatures.PrimaryCompanyIsDirector | training/train.py:84-126 | the primary company column agrees with `extract_director_from_companies` |
| TrainFeatures.DropDuplicateTitles | training/train.py:180 | `drop_duplicates(subset=['title'], keep='first')`: titles become unique, kept rows are first rows of their title, and every first row is kept |
| TrainFeatures.DropDuplicatesKeepsTitles | training/train.py:180 | every input title is the title of a kept row |
| TrainFeatures.DedupDropsLater | training/train.py:180 | of two rows with one title, the second is dropped |
| TrainFeatures.DedupBreaksTierNesting | training/train.py:112-180 | after de-duplication the tier nesting fails: a high-tier row can be absent from the low tier's output |
| TrainFeatures.SortByQuality | training/train.py:183-184 | a permutation of the rows (same multiset), in non-increasing `vote_average * log1p(vote_count)`, with unique titles preserved |
| TrainFeatures.PermuteMultiset | training/train.py:183-184 | reordering rows by a list that holds each position exactly once keeps the multiset of rows |
| TrainFeatures.EngineeredRows | training/train.py:106-173 | the tier and status filters plus per-row engineering fail exactly when a staged row fails, and otherwise hold the engineered form of exactly the staged rows |
| TrainFeatures.DedupFacts | training/train.py:180 | de-duplication keeps input rows and every input title |
| TrainFeatures.FinishKeeps | training/train.py:176-189 | the finished table has unique titles, long soups, titles, and quality order |
| TrainFeatures.FinishCovers | training/train.py:176-189 | every row passing the soup and title filters keeps its title in the finished table |
| TrainFeatures.FinishKeepsFirst | training/train.py:176-189 | every row of the finished table is the first row of its title among the rows passing the soup and title filters |
| TrainFeatures.CleanAndEngineerFeatures | training/train.py:92-192 | fails iff a staged row fails; on success the table is the staged rows filtered, de-duplicated keeping the first row per title and sorted by quality; every row comes from a qualifying, released CSV row with a long soup and a title; titles are unique; every surviving title is present; rows are in quality order |
| TrainSimilarity.MaxFeatures | training/train.py:199-205 | between 10000 and 20000, in steps of 5000 |
| TrainSimilarity.MaxFeaturesSteps | training/train.py:199-205 | monotone in the movie count, changing only across 10,000 and 100,000 |
| TrainSimilarity.TfidfRejectsSmallTables | training/train.py:209-219 | with `min_df=3` and `max_df=0.7` the vectorizer fails on every table of at most four soups, and on a larger one exactly when its own fit fails (no term left) |
| TrainSimilarity.PlanFor | training/train.py:229-247 | SVD iff `use_svd` and more than 1000 rows; components `min(n_components, rows-1, cols-1)`; chunked iff more than 50000 rows |
| TrainSimilarity.ComponentsAreLargestAllowed | training/train.py:233-237 | the component count is the largest value within all three bounds |
| TrainSimilarity.NChunks | training/train.py:249-250 | the number of chunks is the ceiling of rows / 10000 |
| TrainSimilarity.ChunksTile | training/train.py:254-256 | the chunk ranges are non-empty, adjacent, and end at the row count |
| TrainSimilarity.ChunksPartition | training/train.py:254-256 | every row lies in exactly one chunk, the one numbered `row // 10000` |
| TrainSimilarity.FillInChunks | training/train.py:252-265 | filling the matrix chunk by chunk sets every cell to the cosine of its two rows |
| TrainSimilarity.WholeMatrix | training/train.py:266-274 | the direct computation sets every cell to the cosine of its two rows |
| TrainSimilarity.ComputeSimilarityMatrix | training/train.py:227-274 | fails exactly when SVD is asked for fewer than one component; otherwise a fresh n-by-n matrix whose cells are the cosines of the rows in the chosen representation, with the plan of `PlanFor` |
| TrainPipeline.CapMovies | training/train.py:359-361 | `df.head(max_movies)` only when `max_movies` is truthy and smaller than the table; a prefix of the table |
| TrainPipeline.MetadataOf | training/train.py:281-285 | the saved metadata holds one row per table row, with its columns |
| TrainPipeline.UniqueTitleTexts | training/train.py:180-305 | unique titles in the table give distinct saved titles |
| TrainPipeline.SmallTablesFail | training/train.py:209-240 | a table of at most four rows never gets a similarity matrix |
| TrainPipeline.BuildSimilarity | training/train.py:194-274 | fails exactly when the vectorizer or SVD fails; otherwise an n-by-n matrix whose cell (i, j) is the planned similarity of rows i and j |
| TrainPipeline.BuildArtifacts | training/train.py:276-325 | fails exactly when the vectorizer or SVD fails; otherwise the metadata is the rows' columns, the matrix holds the planned similarities, the artifacts are consistent, each title maps to its own row, the format follows the size and `n_components` is recorded only when SVD ran |
| TrainPipeline.TitlesMapToRows | training/train.py:305 | for a table with unique titles the saved map sends each title to its own row and has exactly the titles as keys |
| TrainPipeline.TrainRows | training/train.py:353-361 | the cleaned table cut to `max_movies`: fails iff engineering fails; otherwise titled rows with unique titles, at most `max_movies` of them when set |
| TrainPipeline.CleanedRows | training/train.py:355-361 | the rows `train` uses are the cleaned table cut by `df.head(max_movies)` |
| TrainPipeline.Train | training/train.py:339-376 | fails iff feature engineering, the vectorizer or SVD fails; otherwise the metadata is the first `max_movies` rows of the cleaned table, the matrix holds their planned similarities, and the artifacts are well formed with distinct titles, each mapped to its row, and `n_movies` equal to the row count |
| InferSpec.FindMovie | training/infer.py:59-71 | the first close match, which is a title key for a close-match function; None only when there are no matches |
| InferSpec.FindMovieExact | training/infer.py:59-71 | an exact title is resolved to itself |
| InferSpec.ReleaseText | training/infer.py:156 | `str(release_date)`, "None" for a missing date |
| InferSpec.IsoDateYears | training/infer.py:158 | on `YYYY-MM-DD` the corrected year is `YYYY`, while the code as written reads `DD` |
| InferSpec.PassesYearIso | training/infer.py:154-164 | with an active year filter, an ISO date passes iff its year is within bounds |
| InferSpec.AsWrittenDropsIsoDates | training/infer.py:158-160 | as written, every ISO date is dropped when `min_year` exceeds 99 |
| InferSpec.YearFindingWitness | training/infer.py:158 | "2010-07-16" with `min_year=2000` is dropped as written and kept by the corrected rule |
| InferSpec.MissingDateDropped | training/infer.py:155-164 | with an active year filter, a missing date fails `int("None")` and drops the candidate |
| InferSpec.YearFilterBypass | training/infer.py:154-157 | with no truthy year bound, or a release string shorter than 4 characters, the year filter passes |
| InferSpec.Candidates | training/infer.py:137-141 | the sorted row without its first entry has length `len-1` and holds positions of the row |
| InferSpec.CandidatesRanked | training/infer.py:137-141 | the candidates are in stable descending score order |
| InferSpec.CandidatesMembers | training/infer.py:141 | a position is a candidate iff it is not the top-ranked one |
| InferSpec.Picks | training/infer.py:147-180 | at most N picks, each an eligible candidate that passes every active filter; the year filter reads the first `-`-separated piece (the corrected rule of the finding below), so "2010-07-16" with `min_year=2000` is kept here and dropped by the code as written |
| InferSpec.PicksRanked | training/infer.py:137-149 | the picks are in non-increasing score order and never the top-ranked position |
| InferSpec.PicksAreFirst | training/infer.py:147-180 | an eligible candidate is skipped only when N picks were found, all ranked before it |
| InferSpec.Entry | training/infer.py:183-197 | an entry carries its rank, its title and its score |
| InferSpec.EntriesAt | training/infer.py:184 | the k-th entry is built from the k-th pick with rank k+1 |
| InferSpec.EntriesFrom | training/infer.py:183-197 | a list whose k-th element is the entry of the k-th pick, ranked k+1, is the entries list |
| InferSpec.PassedIsFilter | training/infer.py:147-180 | the candidates kept one by one by the filter chain are the list comprehension over the eligibility predicate |
| InferSpec.SearchResult | training/infer.py:211-235 | at most n titles, each a key whose lower-cased form contains the query and, with a truthy `min_rating`, whose rating reaches it; a prefix of the matches in key order |
| InferSpec.SearchComplete | training/infer.py:226-235 | a result shorter than n holds every matching title |
| InferSpec.TopRatedPositions | training/infer.py:249-262 | at most n positions, each with enough votes and a requested genre |
| InferSpec.TopRatedBest | training/infer.py:262 | the positions are in stable descending rating order and distinct; an omitted eligible movie is rated no higher than any chosen one |
| InferSpec.TopRatedEntries | training/infer.py:237-275 | at most n entries, each with at least `min_votes` votes, in non-increasing rating |
| InferSpec.MaxSim | training/infer.py:314-317 | the largest similarity to a selected movie, or 0 when none is selected |
| InferSpec.MmrSequenceAppend | training/infer.py:325-327 | appending an MMR pick extends an MMR sequence |
| InferSpec.MmrSelectionDistinct | training/infer.py:305-327 | the selected indices are pairwise distinct and never the query |
| InferSpec.MmrPickUnique | training/infer.py:325 | the MMR pick is unique, because the first maximum wins on ties |
| InferSpec.FirstMmrPickIsMostSimilar | training/infer.py:314-325 | for a weight below 1 the first pick is the most similar candidate, the lowest index among ties |
| Inference.SavedArtifactsLoad | training/infer.py:33-54 | the files that training writes are readable and load back the saved tables, with genre lists read back as lists (the corrected reading of the finding below) |
| Inference.ReadBackLosesGenres | training/infer.py:38-175 | on metadata whose genre column comes back from parquet as non-lists, a requested genre list rejects every candidate, so `get_recommendations` returns nothing |
| Inference.ReadBackLosesTopRated | training/infer.py:249-262 | on the same metadata `get_top_rated` with a genre list keeps no row |
| Inference.ShortOverview | training/infer.py:90 | the overview is kept up to 200 characters plus "..." and unchanged when short |
| Inference.RemoveIncreasing | training/infer.py:303-327 | removing from an increasing candidate list keeps it increasing and drops exactly that index |
| Inference.BestCandidate | training/infer.py:306-325 | the scan over open candidates returns the MMR pick |
| Inference.SelectDiverse | training/infer.py:301-327 | the selection is an MMR sequence of length `max(0, min(n, N-1))` |
| Inference.PassesFilters | training/infer.py:151-180 | the filter chain accepts a position iff the candidate is eligible, with the year read by the corrected first-piece rule of the finding below |
| Inference.CollectKeep | training/infer.py:183-197 | a candidate that passes extends the picks by itself and the entries by its entry, ranked after the last |
| Inference.CollectSkip | training/infer.py:153-180 | a candidate that fails a filter leaves the picks and the entries as they were |
| Inference.CollectDone | training/infer.py:147-149 | once N entries are collected or the candidates run out, the entries are those of the first N eligible candidates |
| Inference.CollectRecommendations | training/infer.py:144-197 | the loop builds exactly the entries of the specified picks |
| Inference.CollectTopRated | training/infer.py:264-275 | the loop builds exactly the specified top-rated entries |
| Inference.MovieRecommender.Empty | training/infer.py:26-30 | a recommender starts with no metadata, matrix, title map or config |
| Inference.MovieRecommender.LoadModels | training/infer.py:33-54 | fields are set in file order up to the first failing read; success iff every read succeeds |
| Inference.MovieRecommender.Create | training/infer.py:19-31 | construction succeeds iff loading does, and training's own artifacts give a valid recommender |
| Inference.MovieRecommender.FindMovieIn | training/infer.py:59-71 | a resolved title is a key of the map, and an exact title resolves to itself |
| Inference.MovieRecommender.GetMovieDetails | training/infer.py:73-93 | an error iff no title resolves; otherwise the details of the resolved title's row |
| Inference.MovieRecommender.SearchMovies | training/infer.py:211-235 | the loop returns the specified search result |
| Inference.MovieRecommender.GetRecommendations | training/infer.py:95-209 | not found gives the five-title suggestions; otherwise the specified picks, at most n, ranked 1..k, with the year filter using the corrected first-piece rule of the finding below |
| Inference.MovieRecommender.GetTopRated | training/infer.py:237-275 | the specified top-rated list: at most n entries, enough votes, non-increasing rating |
| Inference.MovieRecommender.GetDiverseRecommendations | training/infer.py:277-344 | not found gives an error; otherwise entries of an MMR sequence of length `max(0, min(n, N-1))` |
| Views.FilmTitles | recommender/views.py:37 | `titles_list` is the title column, row by row |
| Views.ReleaseYear | recommender/views.py:99 | the text before the first `-` (the whole date when it has none), or "Unknown" for a missing date |
| Views.ViewEntriesAt | recommender/views.py:98-109 | the k-th response row is built from the k-th shown movie and its score |
| Views.ResponseSpec | recommender/views.py:65-116 | at most `top_n` rows, in non-increasing score, and any non-empty answer is the sort-drop-first-slice rule |
| Views.Respond | recommender/views.py:76-116 | the method returns the specified response: `[]` when the model has no such column or a shown row is missing, otherwise the formatted rows |
| Views.FormatEntries | recommender/views.py:98-109 | the formatting loop builds exactly the specified rows |
| Views.Autocomplete | recommender/views.py:205-217 | at most 20 titles, none for a query shorter than 2 characters |
| Views.AutocompleteSpec | recommender/views.py:214-217 | the titles containing the query case-insensitively, in list order, capped at 20 |
| Views.Lookup | recommender/views.py:145-172 | an empty name or an unknown title is an error; otherwise the first position of the name |
| Views.MainPageSpec | recommender/views.py:134-196 | GET shows the index; an empty name, an unknown title or no recommendations give their error; otherwise the result page shows every recommendation |
| Views.ViewCache.constructor | recommender/views.py:21-23 | the three globals start empty |
| Views.ViewCache.LoadMovieData | recommender/views.py:26-43 | reads only while nothing is cached; a hit returns the cache unchanged; a failure leaves it empty so the next call retries |
| Views.ViewCache.LoadSimilarityModel | recommender/views.py:46-62 | the same load-once rule for the similarity model |
| Views.ViewCache.GetRecommendations | recommender/views.py:65-116 | loads both caches and answers the specified response, or `[]` when a load fails |
| Views.ViewCache.SearchMovies | recommender/views.py:199-226 | a query shorter than 2 characters answers `{'movies': []}` with no count and changes nothing; otherwise the movie cache follows the load-once rule, the model cache is untouched, a load failure is "Search failed" and a loaded list gives the autocomplete with its count |
| Views.ViewCache.HealthCheck | recommender/views.py:229-246 | the movie cache follows the load-once rule and the model cache is untouched; healthy iff the movie data loads, reporting the title count and whether the model is cached |
| Views.ViewCache.MainView | recommender/views.py:119-196 | the movie cache follows the load-once rule; the model is loaded only on a POST whose title resolves and only while not cached; a load failure gives the error page; otherwise the page of `MainPageSpec` |
| LegacyUtils.NumpyIndex | recommender/utils.py:6-7 | numpy row indexing: a position within the axis, counted from the end when negative |
| LegacyUtils.Table | recommender/utils.py:10-15 | `Title` and `Year` are read from the same rows, position by position |
| LegacyUtils.GetRecommendationsFails | recommender/utils.py:4-16 | fails exactly for an unknown title, a label outside the matrix, or a shown row outside `df2` |
| LegacyUtils.GetRecommendationsSpec | recommender/utils.py:7-15 | at most 10 rows, exactly `min(10, n-1)`; the first ten after the top entry; stable non-increasing similarity; never the top position; `Title` and `Year` from the same row |

## Left out

- Floating point: similarities, ratings, `log1p` and the MMR score are exact reals. The `float32` cast of the matrix and the `%.1f`, `:,` and `%.2f` formatting of the views' strings are not modelled.
- Files and formats: parquet, `.npy`, `.npz`, JSON and pickle reads and writes are parameters. Each is a value or an error. `load_data` (the CSV read) is not part of this model, and neither are the TF-IDF vectorizer and SVD model pickles.
- Inference.MovieRecommender.LoadModels: the choice between a stale `.npz` and a fresh `.npy` is a given `MatrixRead` outcome, not a file-system check.
- TF-IDF, SVD, `cosine_similarity`, the Snowball stemmer, `ast.literal_eval` and `difflib.get_close_matches` are uninterpreted functions.
- InferSpec.IsCloseMatcher: `difflib.get_close_matches` is assumed to return keys of the title map, and to return an exact key first at any cutoff in [0, 1].
- TrainFeatures.SortByQuality: pandas' `sort_values` uses quicksort, which is not stable. The model breaks quality ties by row order; the source leaves them unspecified.
- InferSpec.TopRatedPositions: `nlargest` keeps the first of equal ratings. The model orders ties by row position.
- Inference.SelectDiverse: the `candidate in selected` skip and the empty-`mmr_scores` break of the MMR loop never fire. The selected indices are removed from `candidates`, and the loop runs at most `len(candidates)` times. The model proves this rather than copying the dead checks.
- Inference.MovieRecommender.GetRecommendations: the not-found suggestion falls back to a hint string when the search is empty. The model carries the empty list.
- InferSpec.Rec.GoogleSearchLink: the `google_search` field depends on the title alone, so it is a member of the entry rather than a stored field. The query string is not URL-encoded, as in the code, and no property of it is proved beyond its construction.
- Progress printing, `print_recommendations` and the `__main__` example block are output only.
- Django rendering, `JsonResponse`, the HTTP method decorators and logging are left out. Pages and responses are datatypes.
- Views.ResponseSpec: a negative `top_n` is modelled by Python's slice rule, and nothing is proved about its length.
- LegacyUtils.GetRecommendations: `df2` is assumed to be labelled by position, and `indices[title]` to be one integer. The duplicate-title case, where pandas returns a Series, is not modelled.
- Concurrency: the module globals of the views and the loads run sequentially. No locks exist in the code.
- PyText.Lower: `str.lower()`, `str.isspace()` and `int()` are modelled on ASCII. Unicode case mapping, Unicode whitespace and digits, and `_` separators in `int()` are not.
- `build_tfidf_matrix`: the vectorizer's fit is an uninterpreted outcome (its vocabulary size or an error). The `max_df`/`min_df` check is modelled on top of it; when both the check and the fit fail, the model reports the fit's error, which may not be the message scikit-learn raises first.
- `tconst`/`imdb_id` copying in `clean_and_engineer_features` is a column rename with no effect on the modelled columns.

## Findings

| source | as written | input that shows it | evidently intended | confidence | as-written member | corrected member |
|---|---|---|---|---|---|---|
| training/infer.py:158 | `int(release_str.split('-')[-1])` takes the last `-`-separated piece, which for a TMDB date `YYYY-MM-DD` is the day | `release_date = "2010-07-16"`, `min_year = 2000`: the year read is 16 < 2000, so the film is dropped | the year is the first piece, `YYYY` (as `recommender/views.py:99` reads it) | not executed | InferSpec.YearFindingWitness | InferSpec.PassesYearIso |
| training/infer.py:38 | `pd.read_parquet` returns the saved `genres` lists as numpy arrays, and `isinstance(x, list)` at lines 172 and 256-258 is then false | any saved table with a row whose `genres` is `['Action']`, queried with `genres=['Action']`: every candidate is dropped and `get_top_rated` returns nothing | genre lists are read back as lists | not executed | Inference.ReadBackLosesGenres | Inference.SavedArtifactsLoad |

The code as written is `InferSpec.PassesYearAsWritten`. `InferSpec.AsWrittenDropsIsoDates` proves that it drops every ISO date once `min_year` exceeds 99. The recommender uses the corrected `InferSpec.PassesYear`.

The metadata read back by `pd.read_parquet` is `Inference.FilesAsRead`: each `genres` list comes back as a numpy array, which the model carries as a non-list (`None`). `Inference.ReadBackLosesGenres` and `Inference.ReadBackLosesTopRated` prove that every genre-filtered query then comes back empty. The recommender works on `Inference.FilesOf`, where the lists survive, as `Inference.SavedArtifactsLoad` states.
