/** Feature engineering of the training pipeline,
    `clean_and_engineer_features` in training/train.py: the vote-count
    quality tier, the released-only filter, the weighted token "soup", the
    soup-length and title filters, de-duplication by title and the ordering by
    quality score. */
module TrainFeatures {
  import opened Base
  import opened PyList
  import opened PyText
  import opened Ranking
  import opened TrainColumns

  /** A row of the TMDB CSV, restricted to the columns the pipeline reads. */
  datatype RawMovie = RawMovie(
    id: int,
    title: Option<string>,
    voteAverage: real,
    voteCount: int,
    status: Option<string>,
    releaseDate: Option<string>,
    genres: Cell,
    keywords: Cell,
    productionCompanies: Cell,
    productionCountries: Cell,
    overview: Option<string>,
    tagline: Option<string>,
    popularity: real,
    imdbId: Option<string>,
    posterPath: Option<string>)

  /** The foreign functions the step calls: `ast.literal_eval` (`None` when it
      raises), the Snowball stemmer and `np.log1p`. */
  datatype Externals = Externals(
    literalEval: string -> Option<PyValue>,
    stem: string -> string,
    log1p: real -> real)

  /** A row after feature engineering: the CSV row, the cleaned genre names
      (which replace the `genres` column), the primary company and the soup. */
  datatype Engineered = Engineered(
    raw: RawMovie,
    genres: seq<string>,
    primaryCompany: Option<string>,
    soup: string)

  // ---------------------------------------------------------------- quality tier

  /** The `thresholds` dictionary. */
  const Thresholds: map<string, nat> := map["low" := 5, "medium" := 50, "high" := 500]

  /** `thresholds.get(quality_threshold, 50)`. */
  function MinVotes(tier: string): (t: nat)
    ensures tier == "low" ==> t == 5
    ensures tier == "medium" ==> t == 50
    ensures tier == "high" ==> t == 500
    ensures tier !in {"low", "medium", "high"} ==> t == 50
  {
    if tier in Thresholds then Thresholds[tier] else 50
  }

  predicate MeetsTier(m: RawMovie, tier: string)
  {
    m.voteCount >= MinVotes(tier)
  }

  /** `df[df['vote_count'] >= min_votes]`. */
  function FilterTier(df: seq<RawMovie>, tier: string): (r: seq<RawMovie>)
    ensures forall m :: m in r <==> m in df && m.voteCount >= MinVotes(tier)
  {
    FilterMembers(df, m => MeetsTier(m, tier));
    Filter(df, m => MeetsTier(m, tier))
  }

  /** The tiers are nested: the high tier keeps exactly the rows of the medium
      tier with 500 or more votes, and the medium tier exactly the rows of the
      low tier with 50 or more; so each tier's rows are a sub-list of the next
      lower tier's. */
  lemma TiersNest(df: seq<RawMovie>)
    ensures FilterTier(FilterTier(df, "medium"), "high") == FilterTier(df, "high")
    ensures FilterTier(FilterTier(df, "low"), "medium") == FilterTier(df, "medium")
    ensures forall m :: m in FilterTier(df, "high") ==> m in FilterTier(df, "medium")
    ensures forall m :: m in FilterTier(df, "medium") ==> m in FilterTier(df, "low")
  {
    FilterNarrow(df, m => MeetsTier(m, "medium"), m => MeetsTier(m, "high"));
    FilterNarrow(df, m => MeetsTier(m, "low"), m => MeetsTier(m, "medium"));
  }

  predicate Released(m: RawMovie)
  {
    m.status == Some("Released")
  }

  // ---------------------------------------------------------------- names

  /** `[v.lower() ...]` needs every value to be a string: the names as text,
      or `None` when one of them is not a string (`.lower()` raises). */
  function Texts(vs: seq<PyValue>): (r: Option<seq<string>>)
    ensures r.Some? <==> forall i :: 0 <= i < |vs| ==> vs[i].PStr?
    ensures r.Some? ==> |r.value| == |vs| && forall i :: 0 <= i < |vs| ==> vs[i] == PStr(r.value[i])
    decreases |vs|
  {
    if |vs| == 0 then Some([])
    else
      var init := Texts(vs[..|vs| - 1]);
      var last := vs[|vs| - 1];
      if init.Some? && last.PStr? then Some(init.value + [last.s]) else None
  }

  /** `[w.lower() for w in ws]`. */
  function LowerAll(ws: seq<string>): (r: seq<string>)
    ensures |r| == |ws|
    ensures forall i :: 0 <= i < |ws| ==> r[i] == Lower(ws[i])
  {
    seq(|ws|, i requires 0 <= i < |ws| => Lower(ws[i]))
  }

  /** `[stemmer.stem(kw.lower().replace(" ", "")) for kw in kws]`. */
  function StemAll(kws: seq<string>, stem: string -> string): (r: seq<string>)
    ensures |r| == |kws|
    ensures forall i :: 0 <= i < |kws| ==> r[i] == stem(Normalize(kws[i]))
  {
    seq(|kws|, i requires 0 <= i < |kws| => stem(Normalize(kws[i])))
  }

  /** `[x[0].lower().replace(" ", "")] * 2 if x else []`. */
  function WeightedFirst(companies: seq<string>): seq<string>
  {
    if |companies| > 0 then [Normalize(companies[0]), Normalize(companies[0])] else []
  }

  /** `x.fillna('').astype(str)` for a text column. */
  function TextOrEmpty(o: Option<string>): string
  {
    if o.Some? then o.value else ""
  }

  // ---------------------------------------------------------------- soup

  /** The soup tokens, in order: the (at most 15) stemmed keywords, the genres
      twice over, the first company twice, the (at most 3) companies, the (at
      most 2) countries, the first 50 overview words and all tagline words.
      The keyword, company and country arguments are the prefixes the pipeline
      reads (`x[:15]`, `x[:3]`, `x[:2]`). */
  function SoupTokens(keywords: seq<string>, genres: seq<string>, companies: seq<string>,
                      countries: seq<string>, overview: string, tagline: string,
                      stem: string -> string): seq<string>
  {
    StemAll(Take(keywords, 15), stem)
    + NormalizeAll(genres) + NormalizeAll(genres)
    + WeightedFirst(companies)
    + NormalizeAll(Take(companies, 3))
    + NormalizeAll(Take(countries, 2))
    + LowerAll(Take(Words(overview), 50))
    + LowerAll(Words(tagline))
  }

  /** `' '.join(x) if x else ''`. */
  function Soup(tokens: seq<string>): string
  {
    if |tokens| > 0 then Join(tokens, " ") else ""
  }

  /** How many tokens each part contributes, at most. */
  lemma SoupTokenBound(keywords: seq<string>, genres: seq<string>, companies: seq<string>,
                       countries: seq<string>, overview: string, tagline: string,
                       stem: string -> string)
    ensures |SoupTokens(keywords, genres, companies, countries, overview, tagline, stem)|
              <= 15 + 2 * |genres| + 2 + 3 + 2 + 50 + |Words(tagline)|
  {
  }

  /** Every genre weighs twice in the soup. */
  lemma GenresWeighTwice(keywords: seq<string>, genres: seq<string>, companies: seq<string>,
                         countries: seq<string>, overview: string, tagline: string,
                         stem: string -> string, j: nat)
    requires j < |genres|
    ensures multiset(SoupTokens(keywords, genres, companies, countries, overview, tagline, stem))[Normalize(genres[j])] >= 2
  {
    var g := NormalizeAll(genres);
    var x := StemAll(Take(keywords, 15), stem) + g + g;
    var tokens := SoupTokens(keywords, genres, companies, countries, overview, tagline, stem);
    assert multiset(x)[g[j]] >= 2 by {
      assert g[j] in multiset(g);
    }
    var x1 := x + WeightedFirst(companies);
    var x2 := x1 + NormalizeAll(Take(companies, 3));
    var x3 := x2 + NormalizeAll(Take(countries, 2));
    var x4 := x3 + LowerAll(Take(Words(overview), 50));
    assert tokens == x4 + LowerAll(Words(tagline));
    assert multiset(x) <= multiset(x1) <= multiset(x2) <= multiset(x3) <= multiset(x4) <= multiset(tokens);
  }

  /** The first company weighs three times in the soup: twice from the
      weighting and once among the first three companies. */
  lemma FirstCompanyWeighsThrice(keywords: seq<string>, genres: seq<string>, companies: seq<string>,
                                 countries: seq<string>, overview: string, tagline: string,
                                 stem: string -> string)
    requires |companies| > 0
    ensures multiset(SoupTokens(keywords, genres, companies, countries, overview, tagline, stem))[Normalize(companies[0])] >= 3
  {
    var c := Normalize(companies[0]);
    var x := StemAll(Take(keywords, 15), stem) + NormalizeAll(genres) + NormalizeAll(genres);
    var w := WeightedFirst(companies);
    var clean := NormalizeAll(Take(companies, 3));
    var tokens := SoupTokens(keywords, genres, companies, countries, overview, tagline, stem);
    assert multiset(x + w + clean)[c] >= 3 by {
      assert w == [c, c];
      assert clean[0] == c;
      assert c in multiset(clean);
    }
    var x3 := x + w + clean + NormalizeAll(Take(countries, 2));
    var x4 := x3 + LowerAll(Take(Words(overview), 50));
    assert tokens == x4 + LowerAll(Words(tagline));
    assert multiset(x + w + clean) <= multiset(x3) <= multiset(x4) <= multiset(tokens);
  }

  /** Splitting the soup on whitespace gives the tokens back, when no token is
      empty or holds whitespace. */
  lemma SoupSplitsIntoTokens(tokens: seq<string>)
    requires forall k :: 0 <= k < |tokens| ==> |tokens[k]| > 0 && NoSpace(tokens[k])
    ensures Words(Soup(tokens)) == tokens
  {
    if |tokens| > 0 {
      WordsOfJoin(tokens);
    }
  }

  // ---------------------------------------------------------------- one row

  /** The column transformations of one row (training/train.py:120-173).
      `Err` when a keyword among the first 15, a genre, a company among the
      first 3 or a country among the first 2 is not a string. */
  function Engineer(m: RawMovie, ext: Externals): (r: Result<Engineered, string>)
    ensures r.Ok? ==> r.value.raw == m
  {
    var genresV := ParseJsonColumn(m.genres, "name", ext.literalEval);
    var keywordsV := ParseJsonColumn(m.keywords, "name", ext.literalEval);
    var companiesV := ParseJsonColumn(m.productionCompanies, "name", ext.literalEval);
    var countriesV := ParseJsonColumn(m.productionCountries, "name", ext.literalEval);
    var kw := Texts(Take(keywordsV, 15));
    var g := Texts(genresV);
    var co := Texts(Take(companiesV, 3));
    var cn := Texts(Take(countriesV, 2));
    if kw.None? || g.None? || co.None? || cn.None? then Err("'.lower()' applied to a non-string name")
    else
      var primary := if |co.value| > 0 then Some(co.value[0]) else None;
      var tokens := SoupTokens(kw.value, g.value, co.value, cn.value,
                               TextOrEmpty(m.overview), TextOrEmpty(m.tagline), ext.stem);
      Ok(Engineered(m, NormalizeAll(g.value), primary, Soup(tokens)))
  }

  /** `primary_company` is what `extract_director_from_companies` returns for
      the row's companies. */
  lemma PrimaryCompanyIsDirector(m: RawMovie, ext: Externals)
    requires Engineer(m, ext).Ok?
    ensures var e := Engineer(m, ext).value;
            ExtractDirector(m.productionCompanies, ext.literalEval)
              == (if e.primaryCompany.Some? then Some(PStr(e.primaryCompany.value)) else None)
  {
    var companiesV := ParseJsonColumn(m.productionCompanies, "name", ext.literalEval);
    var co := Texts(Take(companiesV, 3));
    if |companiesV| > 0 {
      assert Take(companiesV, 3)[0] == companiesV[0];
    }
  }

  // ---------------------------------------------------------------- de-duplication

  /** Row `i` is the first row carrying its title. */
  predicate FirstOfTitle(rows: seq<Engineered>, i: int)
    requires 0 <= i < |rows|
  {
    forall j :: 0 <= j < i ==> rows[j].raw.title != rows[i].raw.title
  }

  predicate UniqueTitles(rows: seq<Engineered>)
  {
    forall i, j :: 0 <= i < j < |rows| ==> rows[i].raw.title != rows[j].raw.title
  }

  /** `x` is a row of `src` that is first of its title. */
  predicate IsFirstRow(src: seq<Engineered>, x: Engineered)
  {
    exists i :: 0 <= i < |src| && src[i] == x && FirstOfTitle(src, i)
  }

  /** Every row of `kept` is a row of `src` that is first of its title. */
  predicate KeptFrom(src: seq<Engineered>, kept: seq<Engineered>)
  {
    forall k :: 0 <= k < |kept| ==> IsFirstRow(src, kept[k])
  }

  /** Every row of `src` that is first of its title is in `kept`. */
  predicate KeepsFirsts(src: seq<Engineered>, kept: seq<Engineered>)
  {
    forall i :: 0 <= i < |src| && FirstOfTitle(src, i) ==> src[i] in kept
  }

  /** `drop_duplicates(subset=['title'], keep='first')`. */
  function DropDuplicateTitles(rows: seq<Engineered>): (r: seq<Engineered>)
    ensures |r| <= |rows|
    ensures UniqueTitles(r)
    ensures KeptFrom(rows, r)
    ensures KeepsFirsts(rows, r)
    decreases |rows|
  {
    if |rows| == 0 then []
    else
      var n := |rows| - 1;
      var init := DropDuplicateTitles(rows[..n]);
      DedupStep(rows, rows[..n], init);
      if FirstOfTitle(rows, n) then init + [rows[n]] else init
  }

  /** One step of de-duplication: the last row is kept exactly when it is
      the first of its title. */
  lemma DedupStep(rows: seq<Engineered>, prefix: seq<Engineered>, init: seq<Engineered>)
    requires |rows| > 0 && prefix == rows[..|rows| - 1]
    requires |init| <= |prefix| && UniqueTitles(init)
    requires KeptFrom(prefix, init) && KeepsFirsts(prefix, init)
    ensures var r := if FirstOfTitle(rows, |rows| - 1) then init + [rows[|rows| - 1]] else init;
            |r| <= |rows| && UniqueTitles(r) && KeptFrom(rows, r) && KeepsFirsts(rows, r)
  {
    var n := |prefix|;
    assert prefix <= rows;
    DedupSound(rows, prefix, init);
    DedupComplete(rows, prefix, init);
    if FirstOfTitle(rows, n) {
      DedupFresh(rows, prefix, init);
      UniqueAppend(init, rows[n]);
      var r := init + [rows[n]];
      forall k | 0 <= k < |r|
        ensures IsFirstRow(rows, r[k])
      {
        if k < |init| {
          assert r[k] == init[k];
        } else {
          assert rows[n] == r[k];
        }
      }
      forall i | 0 <= i < |rows| && FirstOfTitle(rows, i)
        ensures rows[i] in r
      {
        if i < n {
          assert rows[i] in init;
        }
      }
    } else {
      forall i | 0 <= i < |rows| && FirstOfTitle(rows, i)
        ensures rows[i] in init
      {
      }
    }
  }

  /** Appending a row with a new title keeps titles unique. */
  lemma UniqueAppend(init: seq<Engineered>, x: Engineered)
    requires UniqueTitles(init)
    requires forall k :: 0 <= k < |init| ==> init[k].raw.title != x.raw.title
    ensures UniqueTitles(init + [x])
  {
  }

  /** Being first of one's title does not depend on the rows after. */
  lemma FirstOfPrefix(rows: seq<Engineered>, prefix: seq<Engineered>, i: nat)
    requires prefix <= rows && i < |prefix|
    ensures prefix[i] == rows[i]
    ensures FirstOfTitle(prefix, i) <==> FirstOfTitle(rows, i)
  {
    assert forall j :: 0 <= j <= i ==> prefix[j] == rows[j];
  }

  /** The rows kept from a prefix are first of their title in all rows. */
  lemma DedupSound(rows: seq<Engineered>, prefix: seq<Engineered>, init: seq<Engineered>)
    requires prefix <= rows && KeptFrom(prefix, init)
    ensures KeptFrom(rows, init)
  {
    forall k | 0 <= k < |init|
      ensures IsFirstRow(rows, init[k])
    {
      var i :| 0 <= i < |prefix| && prefix[i] == init[k] && FirstOfTitle(prefix, i);
      FirstOfPrefix(rows, prefix, i);
      assert 0 <= i < |rows| && rows[i] == init[k] && FirstOfTitle(rows, i);
    }
  }

  /** Every row of the prefix that is first of its title is kept. */
  lemma DedupComplete(rows: seq<Engineered>, prefix: seq<Engineered>, init: seq<Engineered>)
    requires prefix <= rows && KeepsFirsts(prefix, init)
    ensures forall i :: 0 <= i < |prefix| && FirstOfTitle(rows, i) ==> rows[i] in init
  {
    forall i | 0 <= i < |prefix| && FirstOfTitle(rows, i)
      ensures rows[i] in init
    {
      FirstOfPrefix(rows, prefix, i);
    }
  }

  /** A last row that is first of its title has a title no kept row has. */
  lemma DedupFresh(rows: seq<Engineered>, prefix: seq<Engineered>, init: seq<Engineered>)
    requires |rows| > 0 && prefix == rows[..|rows| - 1]
    requires FirstOfTitle(rows, |rows| - 1) && KeptFrom(prefix, init)
    ensures forall k :: 0 <= k < |init| ==> init[k].raw.title != rows[|rows| - 1].raw.title
  {
    forall k | 0 <= k < |init|
      ensures init[k].raw.title != rows[|rows| - 1].raw.title
    {
      var i :| 0 <= i < |prefix| && prefix[i] == init[k] && FirstOfTitle(prefix, i);
      assert rows[i] == prefix[i];
    }
  }

  /** No title is lost: every title of the input is the title of a kept row. */
  lemma {:induction false} DropDuplicatesKeepsTitles(rows: seq<Engineered>, i: nat)
    requires i < |rows|
    ensures exists k :: 0 <= k < |DropDuplicateTitles(rows)| && DropDuplicateTitles(rows)[k].raw.title == rows[i].raw.title
    decreases i
  {
    if FirstOfTitle(rows, i) {
      var r := DropDuplicateTitles(rows);
      var k :| 0 <= k < |r| && r[k] == rows[i];
    } else {
      var j :| 0 <= j < i && rows[j].raw.title == rows[i].raw.title;
      DropDuplicatesKeepsTitles(rows, j);
    }
  }

  /** Because de-duplication keeps the first row of each title, the tier
      nesting of `TiersNest` does not survive it: when a row with 5 to 499
      votes precedes a row of the same title with 500 or more, the high tier
      keeps the second row while the low tier drops it. */
  lemma DedupBreaksTierNesting(a: Engineered, b: Engineered)
    requires a.raw.title == b.raw.title
    requires 5 <= a.raw.voteCount < 500 <= b.raw.voteCount
    ensures b in DropDuplicateTitles(Filter([a, b], (e: Engineered) => MeetsTier(e.raw, "high")))
    ensures b !in DropDuplicateTitles(Filter([a, b], (e: Engineered) => MeetsTier(e.raw, "low")))
  {
    var ph := (e: Engineered) => MeetsTier(e.raw, "high");
    var pl := (e: Engineered) => MeetsTier(e.raw, "low");
    assert [a, b][..1] == [a];
    assert Filter([a, b], ph) == [b] by {
      FilterSingle(a, ph);
    }
    assert Filter([a, b], pl) == [a, b] by {
      FilterSingle(a, pl);
    }
    assert FirstOfTitle([b], 0);
    DedupDropsLater(a, b);
  }

  /** Of two rows with the same title, de-duplication drops the second. */
  lemma DedupDropsLater(a: Engineered, b: Engineered)
    requires a.raw.title == b.raw.title && a != b
    ensures b !in DropDuplicateTitles([a, b])
  {
    var rows := [a, b];
    assert !FirstOfTitle(rows, 1) by {
      assert rows[0].raw.title == rows[1].raw.title;
    }
  }

  // ---------------------------------------------------------------- ordering

  /** `vote_average * log1p(vote_count)`. */
  function Quality(e: Engineered, log1p: real -> real): real
  {
    e.raw.voteAverage * log1p(e.raw.voteCount as real)
  }

  function Qualities(rows: seq<Engineered>, log1p: real -> real): (q: seq<real>)
    ensures |q| == |rows|
    ensures forall i :: 0 <= i < |rows| ==> q[i] == Quality(rows[i], log1p)
  {
    seq(|rows|, i requires 0 <= i < |rows| => Quality(rows[i], log1p))
  }

  /** The rows at the positions listed in `o`. */
  function Permute(rows: seq<Engineered>, o: seq<nat>): (r: seq<Engineered>)
    requires forall k :: 0 <= k < |o| ==> o[k] < |rows|
    ensures |r| == |o|
    ensures forall k :: 0 <= k < |o| ==> r[k] == rows[o[k]]
  {
    seq(|o|, k requires 0 <= k < |o| => rows[o[k]])
  }

  /** `sort_values('quality_score', ascending=False)`: the rows by descending
      quality score, equal scores in their original order. */
  function SortByQuality(rows: seq<Engineered>, log1p: real -> real): (r: seq<Engineered>)
    ensures |r| == |rows|
    ensures multiset(r) == multiset(rows)
    ensures forall e :: e in r <==> e in rows
    ensures forall i, j :: 0 <= i < j < |r| ==> Quality(r[i], log1p) >= Quality(r[j], log1p)
    ensures UniqueTitles(rows) ==> UniqueTitles(r)
  {
    var q := Qualities(rows, log1p);
    var o := RankOrder(q);
    RankedDistinct(q, o);
    PermuteKeepsRows(rows, o);
    PermuteOrdered(rows, log1p, o);
    PermuteMultiset(rows, o);
    PermuteKeepsUniqueTitles(rows, q, o);
    Permute(rows, o)
  }

  lemma PermuteKeepsRows(rows: seq<Engineered>, o: seq<nat>)
    requires |o| == |rows| && forall i: nat :: i in o <==> i < |rows|
    requires forall k :: 0 <= k < |o| ==> o[k] < |rows|
    ensures forall e :: e in Permute(rows, o) <==> e in rows
  {
    var r := Permute(rows, o);
    forall e | e in rows
      ensures e in r
    {
      var i :| 0 <= i < |rows| && rows[i] == e;
      assert i in o;
      var k :| 0 <= k < |o| && o[k] == i;
      assert r[k] == e;
    }
  }

  /** `o` without its entry `k`, the largest position, lists every smaller
      position exactly once. */
  lemma DropLargestPosition(o: seq<nat>, k: nat)
    requires Distinct(o) && k < |o| && o[k] == |o| - 1
    requires forall i: nat :: i in o <==> i < |o|
    ensures var o' := o[..k] + o[k + 1..];
            |o'| == |o| - 1 && Distinct(o') && (forall i: nat :: i in o' <==> i < |o'|)
            && forall j :: 0 <= j < |o'| ==> o'[j] < |o'|
  {
    var o' := o[..k] + o[k + 1..];
    forall j | 0 <= j < |o'|
      ensures o'[j] == o[if j < k then j else j + 1]
    {
    }
    forall j | 0 <= j < |o'|
      ensures o'[j] < |o'|
    {
      var j' := if j < k then j else j + 1;
      assert o[j'] in o;
    }
    forall i: nat | i < |o'|
      ensures i in o'
    {
      assert i in o;
      var m :| 0 <= m < |o| && o[m] == i;
      assert o'[if m < k then m else m - 1] == i;
    }
  }

  /** The rows at `o` are the rows of the shorter table at `o` without its
      entry `k`, plus the last row, which `o[k]` names. */
  lemma PermuteSplit(rows: seq<Engineered>, o: seq<nat>, k: nat)
    requires |rows| > 0 && k < |o| && o[k] == |rows| - 1
    requires forall j :: 0 <= j < |o| ==> o[j] < |rows|
    requires forall j :: 0 <= j < |o| && j != k ==> o[j] < |rows| - 1
    ensures var o' := o[..k] + o[k + 1..];
            (forall j :: 0 <= j < |o'| ==> o'[j] < |rows| - 1)
            && multiset(Permute(rows, o)) == multiset(Permute(rows[..|rows| - 1], o')) + multiset{rows[|rows| - 1]}
  {
    var t := rows[..|rows| - 1];
    var o' := o[..k] + o[k + 1..];
    forall j | 0 <= j < |o'|
      ensures o'[j] < |t|
    {
      assert o'[j] == o[if j < k then j else j + 1];
    }
    assert Permute(rows, o) == Permute(t, o[..k]) + [rows[|rows| - 1]] + Permute(t, o[k + 1..]);
    assert Permute(t, o') == Permute(t, o[..k]) + Permute(t, o[k + 1..]);
  }

  /** Listing every position exactly once rearranges the rows without
      adding or losing any. */
  lemma {:induction false} PermuteMultiset(rows: seq<Engineered>, o: seq<nat>)
    requires |o| == |rows| && Distinct(o)
    requires forall i: nat :: i in o <==> i < |rows|
    requires forall k :: 0 <= k < |o| ==> o[k] < |rows|
    ensures multiset(Permute(rows, o)) == multiset(rows)
    decreases |rows|
  {
    var n := |rows|;
    if n > 0 {
      assert n - 1 in o;
      var k :| 0 <= k < |o| && o[k] == n - 1;
      forall j | 0 <= j < |o| && j != k
        ensures o[j] < n - 1
      {
      }
      DropLargestPosition(o, k);
      PermuteSplit(rows, o, k);
      PermuteMultiset(rows[..n - 1], o[..k] + o[k + 1..]);
      assert rows == rows[..n - 1] + [rows[n - 1]];
    }
  }

  lemma PermuteOrdered(rows: seq<Engineered>, log1p: real -> real, o: seq<nat>)
    requires Ranked(Qualities(rows, log1p), o)
    ensures forall k :: 0 <= k < |o| ==> o[k] < |rows|
    ensures var r := Permute(rows, o);
            forall i, j :: 0 <= i < j < |r| ==> Quality(r[i], log1p) >= Quality(r[j], log1p)
  {
    var q := Qualities(rows, log1p);
    var r := Permute(rows, o);
    forall i, j | 0 <= i < j < |r|
      ensures Quality(r[i], log1p) >= Quality(r[j], log1p)
    {
      RankedNonIncreasing(q, o, i, j);
    }
  }

  lemma PermuteKeepsUniqueTitles(rows: seq<Engineered>, q: seq<real>, o: seq<nat>)
    requires Ranked(q, o)
    requires forall k :: 0 <= k < |o| ==> o[k] < |rows|
    ensures UniqueTitles(rows) ==> UniqueTitles(Permute(rows, o))
  {
    if UniqueTitles(rows) {
      var r := Permute(rows, o);
      RankedDistinct(q, o);
      forall i, j | 0 <= i < j < |r|
        ensures r[i].raw.title != r[j].raw.title
      {
        assert o[i] != o[j];
        if o[i] < o[j] {
          assert rows[o[i]].raw.title != rows[o[j]].raw.title;
        } else {
          assert rows[o[j]].raw.title != rows[o[i]].raw.title;
        }
      }
    }
  }

  // ---------------------------------------------------------------- the whole step

  predicate LongSoup(e: Engineered)
  {
    |e.soup| > 20
  }

  /** A CSV row that the step keeps, up to de-duplication. */
  predicate Survives(m: RawMovie, tier: string, ext: Externals)
  {
    MeetsTier(m, tier) && Released(m) && Engineer(m, ext).Ok?
    && LongSoup(Engineer(m, ext).value) && m.title.Some?
  }

  /** The tier and status filters, then the per-row engineering, which
      raises on the first row that fails. */
  function Staged(df: seq<RawMovie>, tier: string, ext: Externals): Result<seq<Engineered>, string>
  {
    MapOk(Filter(FilterTier(df, tier), Released), (m: RawMovie) => Engineer(m, ext))
  }

  /** Lines 106-173 on the whole table: the tier and status filters, then the
      per-row engineering. It fails exactly when a staged row fails; when it
      succeeds it holds the engineered form of every staged row and nothing
      else. */
  lemma {:induction false} EngineeredRows(df: seq<RawMovie>, tier: string, ext: Externals)
    ensures var res := Staged(df, tier, ext);
            (res.Err? <==> exists m :: m in df && MeetsTier(m, tier) && Released(m) && Engineer(m, ext).Err?)
            && (res.Ok? ==> forall e :: e in res.value ==>
                  e.raw in df && MeetsTier(e.raw, tier) && Released(e.raw) && Engineer(e.raw, ext) == Ok(e))
            && (res.Ok? ==> forall m :: m in df && MeetsTier(m, tier) && Released(m) ==>
                  Engineer(m, ext).Ok? && Engineer(m, ext).value in res.value)
  {
    var rows := Filter(FilterTier(df, tier), Released);
    var f := (m: RawMovie) => Engineer(m, ext);
    FilterMembers(FilterTier(df, tier), Released);
    assert forall m :: m in rows <==> m in df && MeetsTier(m, tier) && Released(m);
    MapOkMembers(rows, f);
  }

  /** De-duplication keeps rows of its input, and keeps every title. */
  lemma DedupFacts(kept: seq<Engineered>)
    ensures forall e :: e in DropDuplicateTitles(kept) ==> e in kept
    ensures forall e :: e in kept ==>
              exists k :: 0 <= k < |DropDuplicateTitles(kept)| && DropDuplicateTitles(kept)[k].raw.title == e.raw.title
  {
    var d := DropDuplicateTitles(kept);
    forall e | e in d
      ensures e in kept
    {
      var k :| 0 <= k < |d| && d[k] == e;
      var i :| 0 <= i < |kept| && kept[i] == d[k] && FirstOfTitle(kept, i);
    }
    forall e | e in kept
      ensures exists k :: 0 <= k < |d| && d[k].raw.title == e.raw.title
    {
      var j :| 0 <= j < |kept| && kept[j] == e;
      DropDuplicatesKeepsTitles(kept, j);
    }
  }

  predicate HasTitle(e: Engineered)
  {
    e.raw.title.Some?
  }

  /** The soup-length and title filters of lines 176-177. */
  function Titled(es: seq<Engineered>): seq<Engineered>
  {
    Filter(Filter(es, LongSoup), HasTitle)
  }

  /** Lines 176-184 on engineered rows: the soup-length and title filters,
      de-duplication and the quality order. */
  function Finish(es: seq<Engineered>, log1p: real -> real): (out: seq<Engineered>)
    ensures UniqueTitles(out)
    ensures forall i, j :: 0 <= i < j < |out| ==> Quality(out[i], log1p) >= Quality(out[j], log1p)
  {
    SortByQuality(DropDuplicateTitles(Titled(es)), log1p)
  }

  /** De-duplication keeps the first row of each title: every finished row
      is a row of the filtered table that no earlier row shares a title
      with. */
  lemma FinishKeepsFirst(es: seq<Engineered>, log1p: real -> real)
    ensures forall e :: e in Finish(es, log1p) ==> IsFirstRow(Titled(es), e)
  {
    var d := DropDuplicateTitles(Titled(es));
    forall e | e in Finish(es, log1p)
      ensures IsFirstRow(Titled(es), e)
    {
      assert e in d;
      var k :| 0 <= k < |d| && d[k] == e;
    }
  }

  /** The finishing steps keep only rows with a long soup and a title. */
  lemma FinishKeeps(es: seq<Engineered>, log1p: real -> real)
    ensures forall e :: e in Finish(es, log1p) ==> e in es && LongSoup(e) && HasTitle(e)
  {
    FilterMembers(es, LongSoup);
    FilterMembers(Filter(es, LongSoup), HasTitle);
    DedupFacts(Filter(Filter(es, LongSoup), HasTitle));
  }

  /** The finishing steps keep the title of every row with a long soup and
      a title. */
  lemma FinishCovers(es: seq<Engineered>, log1p: real -> real, e: Engineered)
    requires e in es && LongSoup(e) && HasTitle(e)
    ensures exists k :: 0 <= k < |Finish(es, log1p)| && Finish(es, log1p)[k].raw.title == e.raw.title
  {
    var long := Filter(es, LongSoup);
    var kept := Filter(long, HasTitle);
    FilterMembers(es, LongSoup);
    FilterMembers(long, HasTitle);
    assert e in kept;
    DedupFacts(kept);
    var unique := DropDuplicateTitles(kept);
    var out := SortByQuality(unique, log1p);
    assert out == Finish(es, log1p);
    TitleSurvives(unique, out, e.raw.title);
  }

  /** A title held by some row is held by some row of any sequence with the
      same rows. */
  lemma TitleSurvives(rows: seq<Engineered>, out: seq<Engineered>, t: Option<string>)
    requires forall x :: x in out <==> x in rows
    requires exists k :: 0 <= k < |rows| && rows[k].raw.title == t
    ensures exists k :: 0 <= k < |out| && out[k].raw.title == t
  {
    var k :| 0 <= k < |rows| && rows[k].raw.title == t;
    assert rows[k] in out;
    var k' :| 0 <= k' < |out| && out[k'] == rows[k];
  }

  /** `clean_and_engineer_features(df, quality_threshold)`. On success every
      row comes from a CSV row with enough votes, status "Released", a soup
      longer than 20 characters and a title; titles are unique, the row kept
      for a title is its first row, every surviving title is kept, and rows
      are a permutation of those in non-increasing quality order.
      It fails exactly when a qualifying released row has a non-string name
      where the pipeline lower-cases names. */
  method CleanAndEngineerFeatures(df: seq<RawMovie>, tier: string, ext: Externals)
    returns (r: Result<seq<Engineered>, string>)
    ensures r.Err? <==> exists m :: m in df && MeetsTier(m, tier) && Released(m) && Engineer(m, ext).Err?
    ensures r.Ok? ==> Staged(df, tier, ext).Ok? && r.value == Finish(Staged(df, tier, ext).value, ext.log1p)
    ensures r.Ok? ==> forall e :: e in r.value ==> IsFirstRow(Titled(Staged(df, tier, ext).value), e)
    ensures r.Ok? ==> forall e :: e in r.value ==>
              e.raw in df && Survives(e.raw, tier, ext) && Engineer(e.raw, ext) == Ok(e)
    ensures r.Ok? ==> UniqueTitles(r.value)
    ensures r.Ok? ==> forall m :: m in df && Survives(m, tier, ext) ==>
              exists k :: 0 <= k < |r.value| && r.value[k].raw.title == m.title
    ensures r.Ok? ==> forall i, j :: 0 <= i < j < |r.value| ==>
              Quality(r.value[i], ext.log1p) >= Quality(r.value[j], ext.log1p)
  {
    var rows := FilterTier(df, tier);
    rows := Filter(rows, Released);
    var engineered := MapOk(rows, (m: RawMovie) => Engineer(m, ext));
    EngineeredRows(df, tier, ext);
    if engineered.Err? {
      return Err(engineered.error);
    }
    var es := engineered.value;
    var kept := Filter(es, LongSoup);
    kept := Filter(kept, HasTitle);
    var unique := DropDuplicateTitles(kept);
    var sorted := SortByQuality(unique, ext.log1p);
    assert sorted == Finish(es, ext.log1p);
    FinishKeeps(es, ext.log1p);
    FinishKeepsFirst(es, ext.log1p);
    r := Ok(sorted);
    forall e | e in sorted
      ensures e.raw in df && Survives(e.raw, tier, ext) && Engineer(e.raw, ext) == Ok(e)
    {
      assert e in es && LongSoup(e) && HasTitle(e);
    }
    forall m | m in df && Survives(m, tier, ext)
      ensures exists k :: 0 <= k < |sorted| && sorted[k].raw.title == m.title
    {
      var e := Engineer(m, ext).value;
      assert e in es && LongSoup(e) && HasTitle(e);
      FinishCovers(es, ext.log1p, e);
    }
  }
}
