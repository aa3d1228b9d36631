/** What the inference engine of training/infer.py computes, as functions of
    the loaded artifacts: title resolution, the recommendation filters
    (including the release-year rule), the filtered top-N selection, the
    substring search, the top-rated list and the Maximal Marginal Relevance
    score. The `MovieRecommender` class in module `Inference` is proved
    against these definitions. */
module InferSpec {
  import opened Base
  import opened PyList
  import opened PyText
  import opened Ranking
  import opened Metadata
  import opened Artifacts

  // ---------------------------------------------------------------- titles

  /** `difflib.get_close_matches(word, possibilities, n=1, cutoff=cutoff)`. */
  type Matcher = (string, seq<string>, real) -> seq<string>

  /** What the engine relies on from difflib: with `n=1` at most one match,
      taken from the possibilities; a possibility equal to the word scores
      1.0, so for a valid cutoff it is the match. */
  ghost predicate IsCloseMatcher(m: Matcher)
  {
    forall w, keys, cutoff ::
      |m(w, keys, cutoff)| <= 1
      && (|m(w, keys, cutoff)| == 1 ==> m(w, keys, cutoff)[0] in keys)
      && (w in keys && 0.0 <= cutoff <= 1.0 ==> m(w, keys, cutoff) == [w])
  }

  /** `find_movie`: `matches[0] if matches else None`. */
  function FindMovie(keys: seq<string>, title: string, m: Matcher, threshold: real): (r: Option<string>)
    ensures IsCloseMatcher(m) && r.Some? ==> r.value in keys
    ensures r.None? ==> |m(title, keys, threshold)| == 0
  {
    var matches := m(title, keys, threshold);
    if |matches| > 0 then Some(matches[0]) else None
  }

  /** A title that is a key is always found as itself. */
  lemma FindMovieExact(keys: seq<string>, title: string, m: Matcher, threshold: real)
    requires IsCloseMatcher(m) && title in keys && 0.0 <= threshold <= 1.0
    ensures FindMovie(keys, title, m, threshold) == Some(title)
  {
    assert m(title, keys, threshold) == [title];
  }

  /** `if not matched_title`: `None` and the empty title both count as not
      found. */
  predicate Found(o: Option<string>)
  {
    o.Some? && o.value != ""
  }

  // ---------------------------------------------------------------- release year

  /** `str(movie['release_date'])`; a missing date prints as "None". */
  function ReleaseText(d: Option<string>): (s: string)
    ensures d.Some? ==> s == d.value
    ensures d.None? ==> s == "None"
  {
    if d.Some? then d.value else "None"
  }

  /** The year as training/infer.py:158 reads it: the LAST `-`-separated
      piece when there is a `-`, otherwise the first four characters. */
  function YearOfAsWritten(rs: string): Option<int>
  {
    if '-' in rs then ParseInt(LastPiece(rs, '-')) else ParseInt(Take(rs, 4))
  }

  /** The year as evidently intended: the FIRST `-`-separated piece when there
      is a `-`, otherwise the first four characters. */
  function YearOf(rs: string): Option<int>
  {
    if '-' in rs then ParseInt(FirstPiece(rs, '-')) else ParseInt(Take(rs, 4))
  }

  /** A parsed year inside the bounds that are set; a parse failure (the
      `except: continue`) never is. */
  predicate YearWithin(y: Option<int>, minYear: Option<int>, maxYear: Option<int>)
  {
    y.Some?
    && !(IntTruthy(minYear) && y.value < minYear.value)
    && !(IntTruthy(maxYear) && y.value > maxYear.value)
  }

  predicate YearFilterActive(minYear: Option<int>, maxYear: Option<int>)
  {
    IntTruthy(minYear) || IntTruthy(maxYear)
  }

  /** The year filter of training/infer.py:154-164 as written. */
  predicate PassesYearAsWritten(date: Option<string>, minYear: Option<int>, maxYear: Option<int>)
  {
    !YearFilterActive(minYear, maxYear)
    || |ReleaseText(date)| < 4
    || YearWithin(YearOfAsWritten(ReleaseText(date)), minYear, maxYear)
  }

  /** The year filter with the year read from the first piece. */
  predicate PassesYear(date: Option<string>, minYear: Option<int>, maxYear: Option<int>)
  {
    !YearFilterActive(minYear, maxYear)
    || |ReleaseText(date)| < 4
    || YearWithin(YearOf(ReleaseText(date)), minYear, maxYear)
  }

  /** `int()` of a non-empty string of digits. */
  lemma ParseDigits(s: string)
    requires |s| > 0 && AllDigits(s)
    ensures ParseInt(s) == Some(DigitsValue(s))
  {
    assert !IsSpace(s[0]) && !IsSpace(s[|s| - 1]);
    StripTrimmed(s);
  }

  /** An ISO date "YYYY-MM-DD". */
  predicate IsoDate(y: string, mo: string, d: string)
  {
    |y| == 4 && |mo| == 2 && |d| == 2 && AllDigits(y) && AllDigits(mo) && AllDigits(d)
  }

  function IsoText(y: string, mo: string, d: string): string
  {
    y + "-" + mo + "-" + d
  }

  lemma FirstPieceBefore(a: string, rest: string)
    requires '-' !in a
    ensures FirstPiece(a + "-" + rest, '-') == a
  {
    var s := a + "-" + rest;
    assert s[|a|] == '-';
    var i := IndexOf(s, '-');
    assert s[..|a|] == a;
    assert i == |a|;
    assert s[..i] == a;
  }

  lemma {:induction false} LastPieceAfter(a: string, b: string)
    requires '-' !in b
    ensures LastPiece(a + "-" + b, '-') == b
    decreases |a|
  {
    if '-' in a {
      var i := IndexOf(a, '-');
      var p, q := a[..i], a[i + 1..];
      assert a == p + "-" + q;
      assert a + "-" + b == p + "-" + (q + "-" + b);
      LastPieceCons(p, '-', q + "-" + b);
      LastPieceAfter(q, b);
    } else {
      LastPieceCons(a, '-', b);
      assert SplitOn(b, '-') == [b];
    }
  }

  /** On an ISO date the corrected rule reads the year and the rule as
      written reads the day. */
  lemma IsoDateYears(y: string, mo: string, d: string)
    requires IsoDate(y, mo, d)
    ensures YearOf(IsoText(y, mo, d)) == Some(DigitsValue(y))
    ensures YearOfAsWritten(IsoText(y, mo, d)) == Some(DigitsValue(d))
  {
    var s := IsoText(y, mo, d);
    assert s == y + "-" + (mo + "-" + d);
    assert '-' !in y by {
      forall k | 0 <= k < |y|
        ensures y[k] != '-'
      {
        assert IsDigit(y[k]);
      }
    }
    assert '-' !in d by {
      forall k | 0 <= k < |d|
        ensures d[k] != '-'
      {
        assert IsDigit(d[k]);
      }
    }
    assert s[4] == '-';
    FirstPieceBefore(y, mo + "-" + d);
    assert s == (y + "-" + mo) + "-" + d;
    LastPieceAfter(y + "-" + mo, d);
    ParseDigits(y);
    ParseDigits(d);
  }

  /** The corrected filter keeps an ISO-dated movie exactly when its year is
      within the bounds that are set. */
  lemma PassesYearIso(y: string, mo: string, d: string, minYear: Option<int>, maxYear: Option<int>)
    requires IsoDate(y, mo, d) && YearFilterActive(minYear, maxYear)
    ensures (PassesYear(Some(IsoText(y, mo, d)), minYear, maxYear)
             <==> YearWithin(Some(DigitsValue(y)), minYear, maxYear))
  {
    IsoDateYears(y, mo, d);
  }

  /** As written, a lower bound above 99 drops every movie with an ISO date,
      whatever its year: the day, at most 99, is compared with the bound. */
  lemma AsWrittenDropsIsoDates(y: string, mo: string, d: string, minYear: Option<int>, maxYear: Option<int>)
    requires IsoDate(y, mo, d) && IntTruthy(minYear) && minYear.value > 99
    ensures !PassesYearAsWritten(Some(IsoText(y, mo, d)), minYear, maxYear)
  {
    IsoDateYears(y, mo, d);
    TwoDigitsBound(d);
  }

  lemma TwoDigitsBound(d: string)
    requires |d| == 2 && AllDigits(d)
    ensures DigitsValue(d) <= 99
  {
    var d0 := d[..1];
    assert d0[..0] == [];
    assert DigitsValue(d0) <= 9;
  }

  /** The concrete case: "2010-07-16" with `min_year=2000` is dropped as
      written (its "year" is 16) and kept by the corrected rule. */
  lemma YearFindingWitness()
    ensures !PassesYearAsWritten(Some("2010-07-16"), Some(2000), None)
    ensures PassesYear(Some("2010-07-16"), Some(2000), None)
  {
    var y, mo, d := "2010", "07", "16";
    assert IsoText(y, mo, d) == "2010-07-16";
    assert IsoDate(y, mo, d) by {
      assert AllDigits(y) && AllDigits(mo) && AllDigits(d);
    }
    AsWrittenDropsIsoDates(y, mo, d, Some(2000), None);
    PassesYearIso(y, mo, d, Some(2000), None);
    Year2010();
  }

  lemma Year2010()
    ensures AllDigits("2010") && DigitsValue("2010") == 2010
  {
    assert "2"[..0] == "";
    assert DigitsValue("2") == 2;
    assert "20"[..1] == "2";
    assert DigitsValue("20") == 20;
    assert "201"[..2] == "20";
    assert DigitsValue("201") == 201;
    assert "2010"[..3] == "201";
  }

  /** A missing date prints as "None", which `int()` rejects: with the year
      filter on, such a movie is dropped. */
  lemma MissingDateDropped(minYear: Option<int>, maxYear: Option<int>)
    requires YearFilterActive(minYear, maxYear)
    ensures !PassesYear(None, minYear, maxYear)
  {
    var s := ReleaseText(None);
    assert s == "None";
    assert '-' !in s;
    assert Take(s, 4) == s;
    NoneIsNotAnInt();
  }

  lemma NoneIsNotAnInt()
    ensures ParseInt("None") == None
  {
    var s := "None";
    assert !IsSpace(s[0]) && !IsSpace(s[|s| - 1]) && !IsDigit(s[0]);
    ParseIntRejects(s);
  }

  /** Release strings shorter than four characters bypass the filter, and
      with no bound set every movie passes. */
  lemma YearFilterBypass(date: Option<string>, minYear: Option<int>, maxYear: Option<int>)
    requires !YearFilterActive(minYear, maxYear) || (date.Some? && |date.value| < 4)
    ensures PassesYear(date, minYear, maxYear) && PassesYearAsWritten(date, minYear, maxYear)
  {
  }

  // ---------------------------------------------------------------- other filters

  /** The keyword arguments of `get_recommendations` that filter candidates. */
  datatype Filters = Filters(
    minYear: Option<int>,
    maxYear: Option<int>,
    genres: Option<seq<string>>,
    minRating: Option<real>,
    excludeSameCompany: bool)

  /** `if min_rating and movie['vote_average'] < min_rating: continue`. */
  predicate PassesRating(m: Movie, minRating: Option<real>)
  {
    !(RealTruthy(minRating) && m.voteAverage < minRating.value)
  }

  /** `any(g in movie_genres_lower for g in genres_lower)`. */
  predicate SharesGenre(requested: seq<string>, movieGenres: seq<string>)
  {
    exists g :: g in NormalizeAll(requested) && g in NormalizeAll(movieGenres)
  }

  /** `if genres:` — a non-empty list was given. */
  predicate GenresRequested(genres: Option<seq<string>>)
  {
    genres.Some? && |genres.value| > 0
  }

  predicate PassesGenres(m: Movie, genres: Option<seq<string>>)
  {
    !GenresRequested(genres) || SharesGenre(genres.value, GenreList(m))
  }

  /** `if exclude_same_company and movie['primary_company'] == source_company`. */
  predicate PassesCompany(m: Movie, source: Movie, exclude: bool)
  {
    !(exclude && m.primaryCompany == source.primaryCompany)
  }

  /** A candidate survives every filter of training/infer.py:153-180, with
      the corrected year rule. */
  predicate Keep(m: Movie, source: Movie, f: Filters)
  {
    PassesYear(m.releaseDate, f.minYear, f.maxYear)
    && PassesRating(m, f.minRating)
    && PassesGenres(m, f.genres)
    && PassesCompany(m, source, f.excludeSameCompany)
  }

  // ---------------------------------------------------------------- recommendations

  /** `sorted(enumerate(row), key=score, reverse=True)[1:]`: the ranking
      without its first entry. */
  function Candidates(row: seq<real>): (r: seq<nat>)
    ensures |r| == Max(|row| - 1, 0)
    ensures forall k :: 0 <= k < |r| ==> r[k] < |row|
  {
    DropFirst(RankOrder(row))
  }

  /** The candidates are in ranking order. */
  lemma CandidatesRanked(row: seq<real>)
    ensures Ranked(row, Candidates(row))
  {
    if |row| > 0 {
      SliceRanked(row, RankOrder(row), 1, |row|);
    }
  }

  /** The candidates are every position but the top-ranked one. */
  lemma CandidatesMembers(row: seq<real>, i: nat)
    ensures i in Candidates(row) <==> |row| > 0 && i < |row| && i != RankOrder(row)[0]
  {
    if |row| > 0 {
      TailMembers(row, RankOrder(row), i);
    }
  }

  predicate Eligible(metadata: seq<Movie>, source: Movie, f: Filters, i: nat)
  {
    i < |metadata| && Keep(metadata[i], source, f)
  }

  /** The filters as a predicate on positions. */
  function EligibleAt(metadata: seq<Movie>, source: Movie, f: Filters): nat -> bool
  {
    (i: nat) => Eligible(metadata, source, f, i)
  }

  /** The candidates that survive the filters, in their order, with the
      filter written out rather than passed as a function value. */
  function Passed(metadata: seq<Movie>, candidates: seq<nat>, source: Movie, f: Filters): (r: seq<nat>)
    decreases |candidates|
  {
    if |candidates| == 0 then []
    else
      var c := candidates[|candidates| - 1];
      Passed(metadata, candidates[..|candidates| - 1], source, f) + (if Eligible(metadata, source, f, c) then [c] else [])
  }

  /** `Passed` is the list comprehension over `EligibleAt`. */
  lemma {:induction false} PassedIsFilter(metadata: seq<Movie>, candidates: seq<nat>, source: Movie, f: Filters)
    ensures Passed(metadata, candidates, source, f) == Filter(candidates, EligibleAt(metadata, source, f))
    decreases |candidates|
  {
    if |candidates| > 0 {
      PassedIsFilter(metadata, candidates[..|candidates| - 1], source, f);
    }
  }

  /** The first `n` of `candidates`, in their order, that survive the
      filters. */
  function PicksFrom(metadata: seq<Movie>, candidates: seq<nat>, source: Movie, f: Filters, n: int): (r: seq<nat>)
    ensures |r| <= Max(n, 0)
    ensures forall k :: 0 <= k < |r| ==> r[k] < |metadata|
  {
    var r := Take(Filter(candidates, EligibleAt(metadata, source, f)), n);
    TakeFilterIn(candidates, EligibleAt(metadata, source, f), n);
    assert forall k :: 0 <= k < |r| ==> r[k] in r;
    r
  }

  /** The positions `get_recommendations` returns: the first `n` candidates,
      in ranking order, that survive the filters. */
  function Picks(metadata: seq<Movie>, row: seq<real>, source: Movie, f: Filters, n: int): (r: seq<nat>)
    ensures |r| <= Max(n, 0)
    ensures forall i :: i in r ==> Eligible(metadata, source, f, i) && i in Candidates(row)
    ensures forall k :: 0 <= k < |r| ==> r[k] < |metadata| && r[k] < |row|
  {
    var r := PicksFrom(metadata, Candidates(row), source, f, n);
    TakeFilterIn(Candidates(row), EligibleAt(metadata, source, f), n);
    forall k | 0 <= k < |r|
      ensures r[k] < |row|
    {
      assert r[k] in r;
      CandidatesMembers(row, r[k]);
    }
    r
  }

  /** Picks come in non-increasing score order, equal scores by position,
      and never include the top-ranked position. */
  lemma PicksRanked(metadata: seq<Movie>, row: seq<real>, source: Movie, f: Filters, n: int)
    ensures Ranked(row, Picks(metadata, row, source, f, n))
    ensures |row| > 0 ==> RankOrder(row)[0] !in Picks(metadata, row, source, f, n)
  {
    CandidatesRanked(row);
    TakeFilterRanked(row, Candidates(row), EligibleAt(metadata, source, f), n);
  }

  /** A candidate that survives the filters but is not picked ranks below
      every pick; and when fewer than `n` were picked, none was left out. */
  lemma PicksAreFirst(metadata: seq<Movie>, row: seq<real>, source: Movie, f: Filters, n: int, x: nat, y: nat)
    requires y in Candidates(row) && Eligible(metadata, source, f, y)
    requires y !in Picks(metadata, row, source, f, n)
    ensures |Picks(metadata, row, source, f, n)| == Max(n, 0)
    ensures x in Picks(metadata, row, source, f, n) ==> x < |row| && y < |row| && Precedes(row, x, y)
  {
    var p := EligibleAt(metadata, source, f);
    assert p(y);
    if |Picks(metadata, row, source, f, n)| < n {
      TakeFilterAll(Candidates(row), p, n, y);
    }
    if x in Picks(metadata, row, source, f, n) {
      CandidatesRanked(row);
      TakeFilterFirst(row, Candidates(row), p, n, x, y);
    }
  }

  /** One entry of the `recommendations` list. */
  datatype Rec = Rec(
    rank: nat,
    title: string,
    production: string,
    releaseDate: Option<string>,
    genres: seq<string>,
    score: real,
    tmdbId: int,
    imdbId: Option<string>,
    posterUrl: Option<string>,
    imdbLink: Option<string>)
  {
    /** The entry's `google_search` link, which depends on its title alone. */
    function GoogleSearchLink(): string
    {
      GoogleSearch(title)
    }
  }

  /** `movie['primary_company'] if pd.notna(...) else 'N/A'`. */
  function Production(m: Movie): string
  {
    if m.primaryCompany.Some? then m.primaryCompany.value else "N/A"
  }

  const PosterBase := "https://image.tmdb.org/t/p/w500"
  const ImdbTitleBase := "https://www.imdb.com/title/"

  function PosterUrl(path: Option<string>): Option<string>
  {
    if path.Some? then Some(PosterBase + path.value) else None
  }

  function ImdbLink(id: Option<string>): Option<string>
  {
    if id.Some? then Some(ImdbTitleBase + id.value) else None
  }

  /** `f"https://www.google.com/search?q={'+'.join(title.split())}+movie"`. */
  function GoogleSearch(title: string): string
  {
    "https://www.google.com/search?q=" + Join(Words(title), "+") + "+movie"
  }

  function Entry(metadata: seq<Movie>, row: seq<real>, i: nat, rank: nat): (e: Rec)
    requires i < |metadata| && i < |row|
    ensures e.rank == rank && e.title == metadata[i].title && e.score == row[i]
  {
    var m := metadata[i];
    Rec(rank, m.title, Production(m), m.releaseDate, GenreList(m), row[i], m.id, m.imdbId,
        PosterUrl(m.posterPath), ImdbLink(m.imdbId))
  }

  /** The entries for the picked positions, ranked 1, 2, ... in order. */
  function Entries(metadata: seq<Movie>, row: seq<real>, picks: seq<nat>): (es: seq<Rec>)
    requires forall k :: 0 <= k < |picks| ==> picks[k] < |metadata| && picks[k] < |row|
    ensures |es| == |picks|
    decreases |picks|
  {
    if |picks| == 0 then []
    else Entries(metadata, row, picks[..|picks| - 1]) + [Entry(metadata, row, picks[|picks| - 1], |picks|)]
  }

  /** The `k`-th entry is the `k`-th pick's, with rank `k + 1`. */
  lemma {:induction false} EntriesAt(metadata: seq<Movie>, row: seq<real>, picks: seq<nat>, k: nat)
    requires forall k :: 0 <= k < |picks| ==> picks[k] < |metadata| && picks[k] < |row|
    requires k < |picks|
    ensures Entries(metadata, row, picks)[k] == Entry(metadata, row, picks[k], k + 1)
    decreases |picks|
  {
    if k < |picks| - 1 {
      var init := picks[..|picks| - 1];
      EntriesAt(metadata, row, init, k);
      assert init[k] == picks[k];
    }
  }

  /** A list holding, at each position, the entry of the pick there with
      its rank is the list of entries of the picks. */
  lemma EntriesFrom(metadata: seq<Movie>, row: seq<real>, picks: seq<nat>, es: seq<Rec>)
    requires forall k :: 0 <= k < |picks| ==> picks[k] < |metadata| && picks[k] < |row|
    requires |es| == |picks|
    requires forall k :: 0 <= k < |picks| ==> es[k] == Entry(metadata, row, picks[k], k + 1)
    ensures es == Entries(metadata, row, picks)
  {
    forall k | 0 <= k < |picks|
      ensures es[k] == Entries(metadata, row, picks)[k]
    {
      EntriesAt(metadata, row, picks, k);
    }
  }

  // ---------------------------------------------------------------- search

  /** A key matches `search_movies(query, n, min_rating)`: it contains the
      query ignoring case and, with a minimum rating, its movie rates at
      least that. */
  predicate SearchHit(metadata: seq<Movie>, titles: TitleDict, query: string, minRating: Option<real>, t: string)
  {
    Contains(Lower(t), Lower(query))
    && (!RealTruthy(minRating)
        || (t in titles.index && titles.index[t] < |metadata|
            && !(metadata[titles.index[t]].voteAverage < minRating.value)))
  }

  function Hits(metadata: seq<Movie>, titles: TitleDict, query: string, minRating: Option<real>): string -> bool
  {
    t => SearchHit(metadata, titles, query, minRating, t)
  }

  /** `matches[:n]`, the matching keys in key order. */
  function SearchResult(metadata: seq<Movie>, titles: TitleDict, query: string, n: int,
                        minRating: Option<real>): (r: seq<string>)
    ensures forall t :: t in r ==> t in titles.keys && SearchHit(metadata, titles, query, minRating, t)
    ensures n >= 0 ==> |r| <= n
    ensures r <= Filter(titles.keys, Hits(metadata, titles, query, minRating))
  {
    var hits := Filter(titles.keys, Hits(metadata, titles, query, minRating));
    var r := PyHead(hits, n);
    FilterMembers(titles.keys, Hits(metadata, titles, query, minRating));
    assert forall t :: t in r ==> t in hits;
    r
  }

  /** The results are the first matching keys: when fewer than `n` come back,
      every matching key is among them, and they are all the matches in key
      order. */
  lemma SearchComplete(metadata: seq<Movie>, titles: TitleDict, query: string, n: int,
                       minRating: Option<real>, t: string)
    requires n >= 0 && |SearchResult(metadata, titles, query, n, minRating)| < n
    requires t in titles.keys && SearchHit(metadata, titles, query, minRating, t)
    ensures t in SearchResult(metadata, titles, query, n, minRating)
    ensures SearchResult(metadata, titles, query, n, minRating)
              == Filter(titles.keys, Hits(metadata, titles, query, minRating))
  {
    FilterMembers(titles.keys, Hits(metadata, titles, query, minRating));
    assert Hits(metadata, titles, query, minRating)(t);
  }

  // ---------------------------------------------------------------- top rated

  /** The rows `get_top_rated(n, min_votes, genres)` considers: enough votes
      and, when genres are requested, a genre list sharing one of them (a
      non-list never qualifies). */
  predicate TopEligible(m: Movie, minVotes: int, genres: Option<seq<string>>)
  {
    m.voteCount >= minVotes
    && (!GenresRequested(genres) || (m.genres.Some? && SharesGenre(genres.value, m.genres.value)))
  }

  function Ratings(metadata: seq<Movie>): (r: seq<real>)
    ensures |r| == |metadata|
    ensures forall i :: 0 <= i < |metadata| ==> r[i] == metadata[i].voteAverage
  {
    seq(|metadata|, i requires 0 <= i < |metadata| => metadata[i].voteAverage)
  }

  /** `nlargest(n, 'vote_average')` of the qualifying rows, as positions: the
      qualifying rows in stable descending rating order, cut at `n`. */
  function TopRatedPositions(metadata: seq<Movie>, n: int, minVotes: int, genres: Option<seq<string>>): (r: seq<nat>)
    ensures |r| <= Max(n, 0)
    ensures forall i :: i in r ==> i < |metadata| && TopEligible(metadata[i], minVotes, genres)
    ensures forall k :: 0 <= k < |r| ==> r[k] < |metadata|
  {
    var kept := Filter(RankOrder(Ratings(metadata)), Qualifies(metadata, minVotes, genres));
    var r := Take(kept, n);
    FilterMembers(RankOrder(Ratings(metadata)), Qualifies(metadata, minVotes, genres));
    assert forall i :: i in r ==> i in kept;
    assert forall k :: 0 <= k < |r| ==> r[k] in r;
    r
  }

  function Qualifies(metadata: seq<Movie>, minVotes: int, genres: Option<seq<string>>): nat -> bool
  {
    (i: nat) => i < |metadata| && TopEligible(metadata[i], minVotes, genres)
  }

  /** The top-rated list is the `n` best qualifying rows: in non-increasing
      rating order, no row twice, and every qualifying row left out rates no
      higher than every row listed. */
  lemma TopRatedBest(metadata: seq<Movie>, n: int, minVotes: int, genres: Option<seq<string>>, x: nat, y: nat)
    ensures Ranked(Ratings(metadata), TopRatedPositions(metadata, n, minVotes, genres))
    ensures Distinct(TopRatedPositions(metadata, n, minVotes, genres))
    ensures x in TopRatedPositions(metadata, n, minVotes, genres)
            && y < |metadata| && TopEligible(metadata[y], minVotes, genres)
            && y !in TopRatedPositions(metadata, n, minVotes, genres)
            ==> metadata[y].voteAverage <= metadata[x].voteAverage
  {
    var scores := Ratings(metadata);
    var p := Qualifies(metadata, minVotes, genres);
    var r := TopRatedPositions(metadata, n, minVotes, genres);
    TakeFilterRanked(scores, RankOrder(scores), p, n);
    RankedDistinct(scores, r);
    if x in r && y < |metadata| && TopEligible(metadata[y], minVotes, genres) && y !in r {
      assert y in RankOrder(scores);
      TakeFilterFirst(scores, RankOrder(scores), p, n, x, y);
    }
  }

  /** One entry of `get_top_rated`. */
  datatype TopEntry = TopEntry(
    title: string,
    rating: real,
    votes: int,
    releaseDate: Option<string>,
    genres: seq<string>,
    production: string)

  function TopEntryOf(m: Movie): (e: TopEntry)
    ensures e.title == m.title && e.rating == m.voteAverage && e.votes == m.voteCount
  {
    TopEntry(m.title, m.voteAverage, m.voteCount, m.releaseDate, GenreList(m), Production(m))
  }

  /** The entries of `get_top_rated`, one per top-rated position. */
  function TopRated(metadata: seq<Movie>, n: int, minVotes: int, genres: Option<seq<string>>): (es: seq<TopEntry>)
    ensures |es| == |TopRatedPositions(metadata, n, minVotes, genres)|
  {
    var ps := TopRatedPositions(metadata, n, minVotes, genres);
    seq(|ps|, k requires 0 <= k < |ps| => TopEntryOf(metadata[ps[k]]))
  }

  /** The entries of `get_top_rated`: at most `n`, each with at least
      `min_votes` votes, best rating first. */
  lemma TopRatedEntries(metadata: seq<Movie>, n: int, minVotes: int, genres: Option<seq<string>>)
    ensures |TopRated(metadata, n, minVotes, genres)| <= Max(n, 0)
    ensures forall k :: 0 <= k < |TopRated(metadata, n, minVotes, genres)| ==>
              TopRated(metadata, n, minVotes, genres)[k].votes >= minVotes
    ensures forall i, j :: 0 <= i < j < |TopRated(metadata, n, minVotes, genres)| ==>
              TopRated(metadata, n, minVotes, genres)[i].rating >= TopRated(metadata, n, minVotes, genres)[j].rating
  {
    var ps := TopRatedPositions(metadata, n, minVotes, genres);
    var es := TopRated(metadata, n, minVotes, genres);
    TopRatedBest(metadata, n, minVotes, genres, 0, 0);
    forall i, j | 0 <= i < j < |es|
      ensures es[i].rating >= es[j].rating
    {
      assert Precedes(Ratings(metadata), ps[i], ps[j]);
    }
    forall k | 0 <= k < |es|
      ensures es[k].votes >= minVotes
    {
      assert ps[k] in ps;
    }
  }

  // ---------------------------------------------------------------- diversity

  predicate InMatrix(sim: seq<seq<real>>, xs: seq<nat>)
  {
    Square(sim, |sim|) && forall k :: 0 <= k < |xs| ==> xs[k] < |sim|
  }

  /** `max(similarity_matrix[c][s] for s in selected)`, and 0 when nothing is
      selected yet. */
  function MaxSim(sim: seq<seq<real>>, c: nat, sel: seq<nat>): (r: real)
    requires InMatrix(sim, sel) && c < |sim|
    ensures |sel| > 0 ==> forall k :: 0 <= k < |sel| ==> sim[c][sel[k]] <= r
    ensures |sel| > 0 ==> exists k :: 0 <= k < |sel| && r == sim[c][sel[k]]
    ensures |sel| == 0 ==> r == 0.0
    decreases |sel|
  {
    if |sel| == 0 then 0.0
    else if |sel| == 1 then sim[c][sel[0]]
    else
      var init := sel[..|sel| - 1];
      var prev := MaxSim(sim, c, init);
      var last := sim[c][sel[|sel| - 1]];
      assert forall k :: 0 <= k < |init| ==> sel[k] == init[k];
      if last > prev then last else prev
  }

  /** `(1 - diversity_weight) * relevance - diversity_weight * max_sim`. */
  function Mmr(sim: seq<seq<real>>, q: nat, w: real, sel: seq<nat>, c: nat): real
    requires InMatrix(sim, sel) && c < |sim| && q < |sim|
  {
    (1.0 - w) * sim[q][c] - w * MaxSim(sim, c, sel)
  }

  /** `c` is still a candidate after `sel` was selected. */
  predicate Open(n: nat, q: nat, sel: seq<nat>, c: nat)
  {
    c < n && c != q && c !in sel
  }

  /** `b` is what one round of the MMR loop selects after `sel`: an open
      candidate with the highest score, the lowest position among equals
      (`max` keeps the first maximum, and candidates are in position order). */
  ghost predicate IsMmrPick(sim: seq<seq<real>>, q: nat, w: real, sel: seq<nat>, b: nat)
    requires InMatrix(sim, sel) && q < |sim|
  {
    Open(|sim|, q, sel, b)
    && forall c: nat :: Open(|sim|, q, sel, c) ==>
         Mmr(sim, q, w, sel, c) <= Mmr(sim, q, w, sel, b)
         && (c < b ==> Mmr(sim, q, w, sel, c) < Mmr(sim, q, w, sel, b))
  }

  /** `selected` is what the MMR loop builds: every entry is the pick of its
      round given the entries before it. */
  ghost predicate MmrSequence(sim: seq<seq<real>>, q: nat, w: real, sel: seq<nat>)
  {
    InMatrix(sim, sel) && q < |sim|
    && forall k :: 0 <= k < |sel| ==> IsMmrPick(sim, q, w, sel[..k], sel[k])
  }

  /** A round's pick extends the selection. */
  lemma MmrSequenceAppend(sim: seq<seq<real>>, q: nat, w: real, sel: seq<nat>, b: nat)
    requires MmrSequence(sim, q, w, sel) && IsMmrPick(sim, q, w, sel, b)
    ensures MmrSequence(sim, q, w, sel + [b])
  {
    var s := sel + [b];
    forall k | 0 <= k < |s|
      ensures IsMmrPick(sim, q, w, s[..k], s[k])
    {
      if k < |sel| {
        assert s[..k] == sel[..k];
      } else {
        assert s[..k] == sel;
      }
    }
  }

  /** The diverse selection never repeats a movie and never contains the
      query. */
  lemma MmrSelectionDistinct(sim: seq<seq<real>>, q: nat, w: real, sel: seq<nat>)
    requires MmrSequence(sim, q, w, sel)
    ensures Distinct(sel) && q !in sel
  {
    forall i, j | 0 <= i < j < |sel|
      ensures sel[i] != sel[j]
    {
      assert IsMmrPick(sim, q, w, sel[..j], sel[j]);
      assert sel[i] == sel[..j][i];
    }
    forall k | 0 <= k < |sel|
      ensures sel[k] != q
    {
      assert IsMmrPick(sim, q, w, sel[..k], sel[k]);
    }
  }

  /** Each round has at most one pick: the selection is determined. */
  lemma MmrPickUnique(sim: seq<seq<real>>, q: nat, w: real, sel: seq<nat>, a: nat, b: nat)
    requires InMatrix(sim, sel) && q < |sim|
    requires IsMmrPick(sim, q, w, sel, a) && IsMmrPick(sim, q, w, sel, b)
    ensures a == b
  {
  }

  /** With nothing selected yet, the first pick is the most similar movie:
      the first entry of the ranking without the query, when the weight is
      below 1. */
  lemma FirstMmrPickIsMostSimilar(sim: seq<seq<real>>, q: nat, w: real, b: nat, c: nat)
    requires InMatrix(sim, []) && q < |sim| && w < 1.0
    requires IsMmrPick(sim, q, w, [], b) && Open(|sim|, q, [], c)
    ensures sim[q][c] <= sim[q][b]
    ensures sim[q][c] == sim[q][b] ==> b <= c
  {
    assert Mmr(sim, q, w, [], c) <= Mmr(sim, q, w, [], b);
    MulLeftMono(1.0 - w, sim[q][c], sim[q][b]);
  }

  lemma MulLeftMono(k: real, x: real, y: real)
    requires k > 0.0
    ensures k * x <= k * y <==> x <= y
  {
    if x <= y {
      assert k * y - k * x == k * (y - x);
    } else {
      assert k * x - k * y == k * (x - y);
    }
  }
}
