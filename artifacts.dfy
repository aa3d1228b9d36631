/** The model artifacts training writes and inference reads back: the movie
    metadata table, the similarity matrix, the `title_to_idx.json` mapping,
    `config.json`, and the on-disk format chosen for the matrix. */
module Artifacts {
  import opened Base
  import opened Metadata
  import opened PyList

  /** A JSON object `{title: position}` as `json.load` returns it: the keys in
      their order, and the mapping. */
  datatype TitleDict = TitleDict(keys: seq<string>, index: map<string, nat>)

  /** Every Python dict has this shape: each key once, in insertion order. */
  predicate DictShaped(d: TitleDict)
  {
    Distinct(d.keys)
    && (forall t :: t in d.keys ==> t in d.index)
    && (forall t :: t in d.index ==> t in d.keys)
  }

  /** `pd.Series(df.index, index=df['title']).to_dict()` over the positions
      `0 .. |titles|-1`: the first occurrence of a title fixes its place among
      the keys, the last occurrence gives its position. */
  function TitleDictOf(titles: seq<string>): (d: TitleDict)
    ensures DictShaped(d)
    ensures forall t :: t in d.index <==> t in titles
    ensures forall t :: t in d.index ==> d.index[t] < |titles| && titles[d.index[t]] == t
    decreases |titles|
  {
    if |titles| == 0 then TitleDict([], map[])
    else
      var n := |titles| - 1;
      var prev := TitleDictOf(titles[..n]);
      var t := titles[n];
      var keys := if t in prev.index then prev.keys else prev.keys + [t];
      var index := prev.index[t := n];
      DictStep(titles[..n], t, prev.keys, prev.index, index);
      InitLast(titles);
      TitleDict(keys, index)
  }

  /** Recording title `t` at the next position keeps a dictionary shaped
      and keeps it a mapping from each title to one of its positions. */
  lemma DictStep(init: seq<string>, t: string, keys: seq<string>, index: map<string, nat>,
                  next: map<string, nat>)
    requires DictShaped(TitleDict(keys, index))
    requires forall x :: x in index <==> x in init
    requires forall x :: x in index ==> index[x] < |init| && init[index[x]] == x
    requires next == index[t := |init|]
    ensures DictShaped(TitleDict(if t in index then keys else keys + [t], next))
    ensures forall x :: x in next <==> x in init + [t]
    ensures forall x :: x in next ==> next[x] < |init| + 1 && (init + [t])[next[x]] == x
  {
    if t !in index {
      DistinctAppend(keys, t);
    }
    forall x | x in index && x != t
      ensures (init + [t])[index[x]] == init[index[x]]
    {
    }
  }

  /** The position kept for a title is its last occurrence. */
  lemma {:induction false} TitleDictLastWins(titles: seq<string>, t: string, i: int)
    requires t in TitleDictOf(titles).index && TitleDictOf(titles).index[t] < i < |titles|
    ensures titles[i] != t
    decreases |titles|
  {
    var n := |titles| - 1;
    if titles[n] == t {
      assert false;
    } else if i < n {
      TitleDictLastWins(titles[..n], t, i);
      assert titles[i] == titles[..n][i];
    }
  }

  lemma DistinctAppend<T>(s: seq<T>, x: T)
    requires Distinct(s) && x !in s
    ensures Distinct(s + [x])
  {
  }

  /** With unique titles (as de-duplication leaves them) the keys are the
      titles in row order and every title maps to its own row, so the mapping
      is injective. */
  lemma {:induction false} TitleDictOfUnique(titles: seq<string>)
    requires Distinct(titles)
    ensures TitleDictOf(titles).keys == titles
    ensures forall i :: 0 <= i < |titles| ==> TitleDictOf(titles).index[titles[i]] == i
    decreases |titles|
  {
    if |titles| > 0 {
      var n := |titles| - 1;
      var init, t := titles[..n], titles[n];
      assert Distinct(init);
      TitleDictOfUnique(init);
      assert t !in init by {
        forall i | 0 <= i < n
          ensures init[i] != t
        {
          assert titles[i] != titles[n];
        }
      }
      var prev := TitleDictOf(init);
      forall i | 0 <= i < n
        ensures init[i] in prev.index
      {
        assert init[i] in init;
      }
      TitleDictStep(titles);
      InitLast(titles);
      IndexOfUniqueStep(init, t, prev.index);
    }
  }

  /** One unfolding of `TitleDictOf`. */
  lemma TitleDictStep(titles: seq<string>)
    requires |titles| > 0
    ensures var prev := TitleDictOf(titles[..|titles| - 1]);
            var t := titles[|titles| - 1];
            TitleDictOf(titles) ==
              TitleDict(if t in prev.index then prev.keys else prev.keys + [t], prev.index[t := |titles| - 1])
  {
  }

  /** Adding a new title at the next position keeps every title at its own
      position. */
  lemma IndexOfUniqueStep(init: seq<string>, t: string, prev: map<string, nat>)
    requires forall i :: 0 <= i < |init| ==> init[i] in prev && prev[init[i]] == i
    requires t !in init
    ensures forall i :: 0 <= i < |init| + 1 ==>
              (init + [t])[i] in prev[t := |init|] && prev[t := |init|][(init + [t])[i]] == i
  {
    forall i | 0 <= i < |init| + 1
      ensures (init + [t])[i] in prev[t := |init|] && prev[t := |init|][(init + [t])[i]] == i
    {
      if i < |init| {
        assert (init + [t])[i] == init[i] && init[i] in init;
      }
    }
  }

  /** Two titles never share a position. */
  lemma TitleIndexInjective(titles: seq<string>, t: string, u: string)
    requires t in TitleDictOf(titles).index && u in TitleDictOf(titles).index && t != u
    ensures TitleDictOf(titles).index[t] != TitleDictOf(titles).index[u]
  {
  }

  /** `config.json`. `nComponents` is `None` when no SVD model was built. */
  datatype Config = Config(nMovies: nat, useSvd: bool, nComponents: Option<int>, shape: (nat, nat))

  /** `similarity_matrix.npz` (sparse) or `similarity_matrix.npy` (dense). */
  datatype StorageFormat = Dense | Sparse

  const SparseThreshold: nat := 10000000

  /** A matrix of `size` elements is saved sparse when it has more than ten
      million of them. */
  function FormatFor(size: int): (f: StorageFormat)
    ensures f.Sparse? <==> size > SparseThreshold
  {
    if size > SparseThreshold then Sparse else Dense
  }

  /** An `n` x `n` matrix is saved sparse exactly from 3163 movies on. */
  lemma SparseFromRows(n: nat)
    ensures FormatFor(n * n).Sparse? <==> n >= 3163
  {
    if n >= 3163 {
      MulMono(3163, n, n);
      MulMono(3163, n, 3163);
    } else {
      MulMono(n, 3162, n);
      MulMono(n, 3162, 3162);
    }
  }

  lemma MulMono(a: nat, b: nat, c: nat)
    requires a <= b
    ensures a * c <= b * c
  {
  }

  datatype Artifact = Artifact(
    metadata: seq<Movie>,
    similarity: seq<seq<real>>,
    titles: TitleDict,
    config: Config,
    format: StorageFormat)

  /** `sim` is an `n` x `n` matrix. */
  predicate Square(sim: seq<seq<real>>, n: nat)
  {
    |sim| == n && forall i :: 0 <= i < n ==> |sim[i]| == n
  }

  /** What the inference code relies on without checking it: one similarity
      row and column per metadata row, a dict-shaped title mapping, and
      positions inside the table. */
  predicate Consistent(metadata: seq<Movie>, similarity: seq<seq<real>>, titles: TitleDict)
  {
    Square(similarity, |metadata|)
    && DictShaped(titles)
    && forall t :: t in titles.index ==> titles.index[t] < |metadata|
  }

  predicate WellFormed(a: Artifact)
  {
    Consistent(a.metadata, a.similarity, a.titles)
  }
}
