/** Python list built-ins used by the recommender: comprehension filters,
    slicing with Python's clamping of out-of-range and negative bounds,
    `list.index` and `list.remove`. */
module PyList {

  function Min(a: int, b: int): int { if a <= b then a else b }

  function Max(a: int, b: int): int { if a >= b then a else b }

  /** `[x for x in s if p(x)]`: keeps the elements that satisfy `p`, in order. */
  function Filter<T(!new)>(s: seq<T>, p: T -> bool): (r: seq<T>)
    ensures |r| <= |s|
    decreases |s|
  {
    if |s| == 0 then []
    else
      var init := Filter(s[..|s| - 1], p);
      assert s == s[..|s| - 1] + [s[|s| - 1]];
      init + (if p(s[|s| - 1]) then [s[|s| - 1]] else [])
  }

  /** What `Filter` keeps: the elements of `s` that satisfy `p`. */
  lemma {:induction false} FilterMembers<T(!new)>(s: seq<T>, p: T -> bool)
    ensures forall x :: x in Filter(s, p) <==> x in s && p(x)
    decreases |s|
  {
    if |s| > 0 {
      FilterMembers(s[..|s| - 1], p);
      assert s == s[..|s| - 1] + [s[|s| - 1]];
    }
  }

  /** Filtering distributes over concatenation. */
  lemma {:induction false} FilterAppend<T(!new)>(a: seq<T>, b: seq<T>, p: T -> bool)
    ensures Filter(a + b, p) == Filter(a, p) + Filter(b, p)
    decreases |b|
  {
    if |b| == 0 {
      assert a + b == a;
    } else {
      var b' := b[..|b| - 1];
      assert (a + b)[..|a + b| - 1] == a + b';
      FilterAppend(a, b', p);
    }
  }

  /** One more step of a filtering loop over `s`: an element that satisfies
      `p` is kept, ... */
  lemma FilterStepKeep<T(!new)>(s: seq<T>, k: nat, p: T -> bool)
    requires k < |s| && p(s[k])
    ensures Filter(s[..k + 1], p) == Filter(s[..k], p) + [s[k]]
  {
    assert s[..k + 1][..k] == s[..k];
  }

  /** ... and one that does not is skipped. */
  lemma FilterStepSkip<T(!new)>(s: seq<T>, k: nat, p: T -> bool)
    requires k < |s| && !p(s[k])
    ensures Filter(s[..k + 1], p) == Filter(s[..k], p)
  {
    assert s[..k + 1][..k] == s[..k];
  }

  /** Filtering a one-element sequence. */
  lemma FilterSingle<T(!new)>(x: T, p: T -> bool)
    ensures Filter([x], p) == if p(x) then [x] else []
  {
    assert [x][..0] == [];
  }

  /** Filtering by a stronger condition after a weaker one is filtering by
      the stronger condition alone. */
  lemma {:induction false} FilterNarrow<T(!new)>(s: seq<T>, p: T -> bool, q: T -> bool)
    requires forall x :: q(x) ==> p(x)
    ensures Filter(Filter(s, p), q) == Filter(s, q)
    decreases |s|
  {
    if |s| > 0 {
      var init, last := s[..|s| - 1], s[|s| - 1];
      var tail := if p(last) then [last] else [];
      FilterNarrow(init, p, q);
      FilterAppend(Filter(init, p), tail, q);
      if p(last) {
        FilterSingle(last, q);
      }
    }
  }

  /** The filter of a prefix is a prefix of the filter. */
  lemma FilterPrefix<T(!new)>(s: seq<T>, i: nat, p: T -> bool)
    requires i <= |s|
    ensures Filter(s[..i], p) <= Filter(s, p)
  {
    assert s == s[..i] + s[i..];
    FilterAppend(s[..i], s[i..], p);
  }

  /** Every element kept by `Filter` satisfies `p`, position by position. */
  lemma FilterSatisfies<T(!new)>(s: seq<T>, p: T -> bool, k: nat)
    requires k < |Filter(s, p)|
    ensures p(Filter(s, p)[k]) && Filter(s, p)[k] in s
  {
    FilterMembers(s, p);
    assert Filter(s, p)[k] in Filter(s, p);
  }

  /** The loop "walk `s`, keep what satisfies `p`, stop once `n` are kept":
      when it stops after `k` elements, either because `s` is exhausted or
      because `n` were kept, it has kept the first `n` elements of the
      filter. */
  lemma FilterUntil<T(!new)>(s: seq<T>, p: T -> bool, n: int, k: nat)
    requires k <= |s| && |Filter(s[..k], p)| <= Max(n, 0)
    requires k == |s| || |Filter(s[..k], p)| >= n
    ensures Filter(s[..k], p) == Take(Filter(s, p), n)
  {
    FilterPrefix(s, k, p);
    if k == |s| {
      assert s[..k] == s;
    }
  }

  /** A list with no member is empty. */
  lemma NoMembersEmpty<T>(s: seq<T>)
    requires forall x :: x !in s
    ensures s == []
  {
    if |s| > 0 {
      HeadIsMember(s);
    }
  }

  /** The first element of a non-empty list is one of its members. */
  lemma HeadIsMember<T>(s: seq<T>)
    requires |s| > 0
    ensures s[0] in s
  {
  }

  /** What the first `n` kept elements are made of. */
  lemma TakeFilterIn<T(!new)>(s: seq<T>, p: T -> bool, n: int)
    ensures forall x :: x in Take(Filter(s, p), n) ==> x in s && p(x)
  {
    FilterMembers(s, p);
    assert forall x :: x in Take(Filter(s, p), n) ==> x in Filter(s, p);
  }

  /** The first `n` elements, or all of them when there are fewer; nothing
      when `n <= 0`. This is the loop "append until the list has n entries",
      and pandas' `nlargest(n)` cut. */
  function Take<T>(s: seq<T>, n: int): (r: seq<T>)
    ensures |r| == if n <= 0 then 0 else Min(n, |s|)
    ensures r <= s
  {
    if n <= 0 then [] else if n >= |s| then s else s[..n]
  }

  /** Python's normalisation of a slice bound for a list of length `n`:
      negative bounds count from the end, out-of-range bounds are clamped. */
  function PyBound(i: int, n: nat): (b: nat)
    ensures b <= n
    ensures 0 <= i ==> b == Min(i, n)
    ensures i < 0 ==> b == Max(i + n, 0)
  {
    if i < 0 then (if i + n < 0 then 0 else i + n)
    else if i > n then n
    else i
  }

  /** `s[lo:hi]` with Python's semantics for any integer bounds. */
  function PySlice<T>(s: seq<T>, lo: int, hi: int): (r: seq<T>)
    ensures |r| <= |s|
    ensures 0 <= lo <= hi ==> r == s[Min(lo, |s|)..Min(hi, |s|)]
    ensures exists a, b :: 0 <= a <= b <= |s| && r == s[a..b]
  {
    var a, b := PyBound(lo, |s|), PyBound(hi, |s|);
    if a < b then s[a..b] else (assert s[a..a] == []; [])
  }

  /** `s[:n]` (and pandas' `head(n)`), including negative `n`. */
  function PyHead<T>(s: seq<T>, n: int): (r: seq<T>)
    ensures r <= s
    ensures 0 <= n ==> r == Take(s, n)
    ensures n < 0 ==> |r| == Max(|s| + n, 0)
  {
    PySlice(s, 0, n)
  }

  /** A non-empty sequence is its head followed by its tail. */
  lemma ConsTail<T>(s: seq<T>)
    requires |s| > 0
    ensures s == [s[0]] + s[1..]
  {
  }

  /** A non-empty sequence is its front followed by its last element. */
  lemma InitLast<T>(s: seq<T>)
    requires |s| > 0
    ensures s == s[..|s| - 1] + [s[|s| - 1]]
  {
  }

  /** `s[1:]`: everything but the first element. */
  function DropFirst<T>(s: seq<T>): (r: seq<T>)
    ensures |s| > 0 ==> r == s[1..]
    ensures |s| == 0 ==> r == []
  {
    PySlice(s, 1, |s|)
  }

  /** `s.index(x)`: the position of the first occurrence of `x`. */
  function IndexOf<T(==)>(s: seq<T>, x: T): (i: nat)
    requires x in s
    ensures i < |s| && s[i] == x && x !in s[..i]
  {
    if s[0] == x then 0
    else
      var j := IndexOf(s[1..], x);
      assert s[..j + 1] == [s[0]] + s[1..][..j];
      j + 1
  }

  /** `s.remove(x)`: drops the first occurrence of `x`. */
  function Remove<T(==,!new)>(s: seq<T>, x: T): (r: seq<T>)
    requires x in s
    ensures |r| == |s| - 1
    ensures forall y :: y in s && y != x ==> y in r
    ensures forall y :: y in r ==> y in s
  {
    var i := IndexOf(s, x);
    assert s == s[..i] + [x] + s[i + 1..];
    s[..i] + s[i + 1..]
  }

  /** Where each element of `s.remove(x)` came from in `s`. */
  lemma RemoveShifts<T(!new)>(s: seq<T>, x: T)
    requires x in s
    ensures forall k :: 0 <= k < IndexOf(s, x) ==> Remove(s, x)[k] == s[k]
    ensures forall k :: IndexOf(s, x) <= k < |s| - 1 ==> Remove(s, x)[k] == s[k + 1]
  {
    var i := IndexOf(s, x);
    var r := Remove(s, x);
    assert r == s[..i] + s[i + 1..];
  }
}
