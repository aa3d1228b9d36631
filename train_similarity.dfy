/** The integer rules of the similarity stage of training/train.py: the
    TF-IDF vocabulary cap of `build_tfidf_matrix`, the SVD decision and
    component count of `compute_similarity_matrix`, and the chunked filling of
    the similarity matrix. TF-IDF, SVD and `cosine_similarity` are foreign
    numerics: the similarity of rows `i` and `j` is a parameter. */
module TrainSimilarity {
  import opened Base
  import opened PyList

  // ---------------------------------------------------------------- vocabulary

  /** `max_features` for a table of `nMovies` rows. */
  function MaxFeatures(nMovies: nat): (f: nat)
    ensures 10000 <= f <= 20000
    ensures f % 5000 == 0
  {
    if nMovies < 10000 then 10000
    else if nMovies < 100000 then 15000
    else 20000
  }

  /** A larger table never gets a smaller vocabulary, and the cap changes only
      at 10000 and 100000 rows. */
  lemma MaxFeaturesSteps(a: nat, b: nat)
    ensures a <= b ==> MaxFeatures(a) <= MaxFeatures(b)
    ensures MaxFeatures(a) != MaxFeatures(b) ==>
              a < 10000 <= b || b < 10000 <= a || a < 100000 <= b || b < 100000 <= a
  {
  }

  /** The document-frequency bounds of the vectorizer: a term must occur in
      at least `MinDf` soups and in at most the fraction `MaxDf` of them. */
  const MinDf: nat := 3
  const MaxDf: real := 0.7

  const MaxDfBelowMinDf := "max_df corresponds to < documents than min_df"

  /** `TfidfVectorizer(min_df=3, max_df=0.7, ...).fit_transform` on `nDocs`
      soups: `fit` is the vectorizer's own outcome (the vocabulary size, or
      the error raised when no term is left), and on top of it a fractional
      `max_df` worth fewer documents than `min_df` raises. */
  function TfidfColumns(nDocs: nat, fit: Result<nat, string>): (r: Result<nat, string>)
  {
    if fit.Err? then fit
    else if MaxDf * (nDocs as real) < MinDf as real then Err(MaxDfBelowMinDf)
    else fit
  }

  /** The vectorizer fails on every table of at most four soups, and on a
      larger one exactly when its own counting fails. */
  lemma TfidfRejectsSmallTables(nDocs: nat, fit: Result<nat, string>)
    ensures TfidfColumns(nDocs, fit).Err? <==> fit.Err? || nDocs <= 4
    ensures TfidfColumns(nDocs, fit).Ok? ==> TfidfColumns(nDocs, fit) == fit
  {
    if nDocs <= 4 {
      assert MaxDf * (nDocs as real) <= 2.8;
    } else {
      assert MaxDf * (nDocs as real) >= 3.5;
    }
  }

  // ---------------------------------------------------------------- plan

  /** How the similarity matrix is computed: cosine similarity of the TF-IDF
      rows, or of their projection on `components` SVD components, filled
      in chunks of rows when `chunked`. */
  datatype Plan = Direct | Reduced(components: int, chunked: bool)

  const ChunkThreshold: nat := 50000

  /** `compute_similarity_matrix` on a `rows` x `cols` TF-IDF matrix. */
  function PlanFor(useSvd: bool, nComponents: int, rows: nat, cols: nat): (p: Plan)
    ensures p.Reduced? <==> useSvd && rows > 1000
    ensures p.Reduced? ==> p.components <= nComponents && p.components < rows && p.components < cols
    ensures p.Reduced? ==> p.components in {nComponents, rows - 1, cols - 1}
    ensures p.Reduced? ==> (p.chunked <==> rows > ChunkThreshold)
  {
    if useSvd && rows > 1000 then
      Reduced(Min(Min(nComponents, rows - 1), cols - 1), rows > ChunkThreshold)
    else Direct
  }

  /** `TruncatedSVD(n_components=...)` accepts only a positive component
      count; the direct plan runs no SVD. */
  predicate SvdAccepts(plan: Plan)
  {
    !plan.Reduced? || plan.components >= 1
  }

  const SvdRejectsComponents := "The 'n_components' parameter of TruncatedSVD must be an int in the range [1, inf)"

  /** The component count is the largest one that the request, the row count
      and the column count all allow. */
  lemma ComponentsAreLargestAllowed(useSvd: bool, nComponents: int, rows: nat, cols: nat, k: int)
    requires PlanFor(useSvd, nComponents, rows, cols).Reduced?
    requires k <= nComponents && k < rows && k < cols
    ensures k <= PlanFor(useSvd, nComponents, rows, cols).components
  {
  }

  /** The similarity of rows `i` and `j` under a plan; `cosTfidf` and
      `cosReduced` stand for `cosine_similarity` of the TF-IDF rows and of the
      rows reduced to the given number of components. */
  function PlanSimilarity(plan: Plan, cosTfidf: (nat, nat) -> real,
                          cosReduced: (int, nat, nat) -> real, i: nat, j: nat): real
  {
    if plan.Reduced? then cosReduced(plan.components, i, j) else cosTfidf(i, j)
  }

  // ---------------------------------------------------------------- chunks

  const ChunkSize: nat := 10000

  /** `(n + chunk_size - 1) // chunk_size`. */
  function NChunks(n: nat): (c: nat)
    ensures c * ChunkSize >= n
    ensures c > 0 ==> (c - 1) * ChunkSize < n
  {
    (n + ChunkSize - 1) / ChunkSize
  }

  function ChunkStart(c: nat): nat
  {
    c * ChunkSize
  }

  /** `min((i + 1) * chunk_size, n)`. */
  function ChunkEnd(c: nat, n: nat): nat
  {
    Min((c + 1) * ChunkSize, n)
  }

  /** The chunks are non-empty, adjacent, start at row 0 and end at row `n`. */
  lemma ChunksTile(n: nat)
    ensures forall c: nat :: c < NChunks(n) ==> ChunkStart(c) < ChunkEnd(c, n)
    ensures forall c: nat :: c + 1 < NChunks(n) ==> ChunkEnd(c, n) == ChunkStart(c + 1)
    ensures n > 0 ==> ChunkEnd(NChunks(n) - 1, n) == n
  {
  }

  /** Every row lies in exactly one chunk: chunk number `row / 10000`. */
  lemma ChunksPartition(n: nat, row: nat, c: nat)
    requires row < n
    ensures row / ChunkSize < NChunks(n)
    ensures ChunkStart(row / ChunkSize) <= row < ChunkEnd(row / ChunkSize, n)
    ensures c < NChunks(n) && ChunkStart(c) <= row < ChunkEnd(c, n) ==> c == row / ChunkSize
  {
  }

  /** The chunk loop: `np.zeros((n, n))`, then for each chunk of rows the
      chunk's rows of the matrix are set from `cos`. The result is the whole
      matrix `cos`, as the unchunked computation gives. */
  method FillInChunks(n: nat, cos: (nat, nat) -> real) returns (m: array2<real>)
    ensures fresh(m)
    ensures m.Length0 == n && m.Length1 == n
    ensures forall i, j :: 0 <= i < n && 0 <= j < n ==> m[i, j] == cos(i, j)
  {
    m := new real[n, n]((i, j) => 0.0);
    var chunks := NChunks(n);
    ChunksTile(n);
    for c := 0 to chunks
      invariant forall i, j :: 0 <= i < Min(ChunkStart(c), n) && 0 <= j < n ==> m[i, j] == cos(i, j)
    {
      var start := ChunkStart(c);
      var end := ChunkEnd(c, n);
      for i := start to end
        invariant forall i', j :: 0 <= i' < i && 0 <= j < n ==> m[i', j] == cos(i', j)
      {
        for j := 0 to n
          invariant forall i', j' :: 0 <= i' < i && 0 <= j' < n ==> m[i', j'] == cos(i', j')
          invariant forall j' :: 0 <= j' < j ==> m[i, j'] == cos(i, j')
        {
          m[i, j] := cos(i, j);
        }
      }
    }
  }

  /** `cosine_similarity` of all rows at once. */
  method WholeMatrix(n: nat, cos: (nat, nat) -> real) returns (m: array2<real>)
    ensures fresh(m)
    ensures m.Length0 == n && m.Length1 == n
    ensures forall i, j :: 0 <= i < n && 0 <= j < n ==> m[i, j] == cos(i, j)
  {
    m := new real[n, n]((i: nat, j: nat) => cos(i, j));
  }

  /** `compute_similarity_matrix`: the plan, and the `rows` x `rows` matrix
      of similarities it prescribes, whichever way the matrix is filled; an
      error when the plan asks SVD for fewer than one component. */
  method ComputeSimilarityMatrix(useSvd: bool, nComponents: int, rows: nat, cols: nat,
                                 cosTfidf: (nat, nat) -> real, cosReduced: (int, nat, nat) -> real)
    returns (r: Result<array2<real>, string>, plan: Plan)
    ensures plan == PlanFor(useSvd, nComponents, rows, cols)
    ensures r.Err? <==> !SvdAccepts(plan)
    ensures r.Ok? ==> fresh(r.value) && r.value.Length0 == rows && r.value.Length1 == rows
    ensures r.Ok? ==> forall i, j :: 0 <= i < rows && 0 <= j < rows ==>
              r.value[i, j] == PlanSimilarity(plan, cosTfidf, cosReduced, i, j)
  {
    plan := PlanFor(useSvd, nComponents, rows, cols);
    if !SvdAccepts(plan) {
      return Err(SvdRejectsComponents), plan;
    }
    var sim := (i: nat, j: nat) => PlanSimilarity(plan, cosTfidf, cosReduced, i, j);
    var m;
    if plan.Reduced? && plan.chunked {
      m := FillInChunks(rows, sim);
    } else {
      m := WholeMatrix(rows, sim);
    }
    r := Ok(m);
  }
}
