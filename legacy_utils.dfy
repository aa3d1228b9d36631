/** The legacy helper `get_recommendations(title, count_matrix, indices, df2)`
    of the first version of the web application: the cosine row of the
    queried title, ranked by descending similarity, without its first entry,
    cut to ten, answered as a `Title`/`Year` table read from `df2`. */
module LegacyUtils {
  import opened Base
  import opened PyList
  import opened Ranking

  /** The two columns of the legacy table `df2` that the helper reads. */
  datatype LegacyMovie = LegacyMovie(title: string, releaseDate: Option<string>)

  /** One row of the answer: `Title`, and `Year`, which holds the raw
      `release_date` value. */
  datatype Suggestion = Suggestion(title: string, year: Option<string>)

  /** What the helper raises: the title is no key of `indices`, or a
      position falls outside the similarity matrix or outside `df2`. */
  datatype Failure = KeyError(key: string) | IndexError

  /** numpy's `m[i]` on an axis of length `n`: a position, counted from the
      end when negative, or nothing when out of range. */
  function NumpyIndex(i: int, n: nat): (r: Option<nat>)
    ensures r.Some? <==> -(n as int) <= i < n
    ensures r.Some? ==> r.value < n && (r.value == i || r.value == i + n)
  {
    if 0 <= i < n then Some(i)
    else if -(n as int) <= i < 0 then Some(i + n)
    else None
  }

  /** Row `i` of `cosine_similarity(count_matrix, count_matrix)` for a
      count matrix of `n` rows, `cos(i, j)` being the cosine of rows `i`
      and `j`. */
  function SimRow(n: nat, cos: (nat, nat) -> real, i: nat): (row: seq<real>)
    ensures |row| == n
  {
    seq(n, j requires 0 <= j < n => cos(i, j))
  }

  /** The ten positions shown for row `i`: `sorted(...)[1:11]`. */
  function Picks(n: nat, cos: (nat, nat) -> real, i: nat): (ps: seq<nat>)
    ensures forall k :: 0 <= k < |ps| ==> ps[k] < n
  {
    TopAfterFirst(SimRow(n, cos, i), 10)
  }

  /** Every shown position is a row of `df2`, as `iloc` demands. */
  predicate InTable(df2: seq<LegacyMovie>, ps: seq<nat>)
  {
    forall k :: 0 <= k < |ps| ==> ps[k] < |df2|
  }

  /** The answer table: `Title` and `Year` read position by position from
      the same rows of `df2`. */
  function Table(df2: seq<LegacyMovie>, ps: seq<nat>): (r: seq<Suggestion>)
    requires InTable(df2, ps)
    ensures |r| == |ps|
    ensures forall k :: 0 <= k < |ps| ==>
              r[k].title == df2[ps[k]].title && r[k].year == df2[ps[k]].releaseDate
  {
    seq(|ps|, k requires 0 <= k < |ps| => Suggestion(df2[ps[k]].title, df2[ps[k]].releaseDate))
  }

  /** `get_recommendations(title, count_matrix, indices, df2)` for a count
      matrix of `n` rows whose cosines are `cos`. */
  function GetRecommendations(title: string, n: nat, cos: (nat, nat) -> real,
                              indices: map<string, int>, df2: seq<LegacyMovie>): Result<seq<Suggestion>, Failure>
  {
    if title !in indices then Err(KeyError(title))
    else
      var at := NumpyIndex(indices[title], n);
      if at.None? then Err(IndexError)
      else
        var ps := Picks(n, cos, at.value);
        if !InTable(df2, ps) then Err(IndexError)
        else Ok(Table(df2, ps))
  }

  /** The helper fails exactly for a title missing from `indices`, a label
      outside the matrix, or a shown position outside `df2`; a `df2` with a
      row per matrix row never makes `iloc` fail. */
  lemma GetRecommendationsFails(title: string, n: nat, cos: (nat, nat) -> real,
                                indices: map<string, int>, df2: seq<LegacyMovie>)
    ensures GetRecommendations(title, n, cos, indices, df2) == Err(KeyError(title)) <==> title !in indices
    ensures GetRecommendations(title, n, cos, indices, df2) == Err(IndexError) <==>
              title in indices &&
              (!(-(n as int) <= indices[title] < n) || !InTable(df2, Picks(n, cos, NumpyIndex(indices[title], n).value)))
    ensures title in indices && -(n as int) <= indices[title] < n && n <= |df2| ==>
              GetRecommendations(title, n, cos, indices, df2).Ok?
  {
  }

  /** What an answer holds: at most ten rows, exactly ten when the matrix
      has more than ten rows; in non-increasing similarity to the queried
      row, ties in table order; never the top-ranked position (normally the
      title itself); each row's `Title` and `Year` from one and the same row
      of `df2`. */
  lemma GetRecommendationsSpec(title: string, n: nat, cos: (nat, nat) -> real,
                               indices: map<string, int>, df2: seq<LegacyMovie>)
    requires GetRecommendations(title, n, cos, indices, df2).Ok?
    ensures var r := GetRecommendations(title, n, cos, indices, df2).value;
            var row := SimRow(n, cos, NumpyIndex(indices[title], n).value);
            var ps := Picks(n, cos, NumpyIndex(indices[title], n).value);
            && |r| == |ps| == Min(10, n - 1)
            && ps == Take(DropFirst(RankOrder(row)), 10)
            && RankOrder(row)[0] !in ps
            && (forall a, b :: 0 <= a < b < |ps| ==> row[ps[a]] >= row[ps[b]])
            && (forall a, b :: 0 <= a < b < |ps| && row[ps[a]] == row[ps[b]] ==> ps[a] < ps[b])
            && (forall k :: 0 <= k < |r| ==>
                  r[k].title == df2[ps[k]].title && r[k].year == df2[ps[k]].releaseDate)
  {
    var i := NumpyIndex(indices[title], n).value;
    var row := SimRow(n, cos, i);
    var ps := Picks(n, cos, i);
    TopAfterFirstSpec(row, 10);
    forall a, b | 0 <= a < b < |ps|
      ensures row[ps[a]] >= row[ps[b]]
      ensures row[ps[a]] == row[ps[b]] ==> ps[a] < ps[b]
    {
      assert Precedes(row, ps[a], ps[b]);
    }
  }
}
