/** The ranking step shared by every recommender in the repository:
    `sorted(list(enumerate(row)), key=lambda x: x[1], reverse=True)`.
    Python's sort is stable also with `reverse=True`, so the result lists the
    positions of `row` by descending score, equal scores in ascending
    position. A ranking is represented by its sequence of positions; the
    score of the k-th entry is `row[order[k]]`. */
module Ranking {
  import opened Base
  import opened PyList

  /** Position `a` comes before position `b` in the ranking of `scores`. */
  predicate Precedes(scores: seq<real>, a: nat, b: nat)
    requires a < |scores| && b < |scores|
  {
    scores[a] > scores[b] || (scores[a] == scores[b] && a < b)
  }

  predicate InRange(scores: seq<real>, order: seq<nat>)
  {
    forall k :: 0 <= k < |order| ==> order[k] < |scores|
  }

  /** `order` lists positions of `scores` in stable descending order. */
  predicate Ranked(scores: seq<real>, order: seq<nat>)
  {
    InRange(scores, order)
    && forall i, j :: 0 <= i < j < |order| ==> Precedes(scores, order[i], order[j])
  }

  /** Inserts position `x` into a ranking that does not contain it yet. */
  function Insert(scores: seq<real>, x: nat, order: seq<nat>): (r: seq<nat>)
    requires x < |scores| && Ranked(scores, order) && x !in order
    ensures Ranked(scores, r)
    ensures multiset(r) == multiset(order) + multiset{x}
    decreases |order|
  {
    if |order| == 0 then [x]
    else if Precedes(scores, x, order[0]) then [x] + order
    else
      var rest := Insert(scores, x, order[1..]);
      InsertStep(scores, x, order, rest);
      [order[0]] + rest
  }

  /** The head of a ranking precedes everything in the insertion into its
      tail of a position it precedes. */
  lemma InsertStep(scores: seq<real>, x: nat, order: seq<nat>, rest: seq<nat>)
    requires x < |scores| && Ranked(scores, order) && |order| > 0 && x !in order
    requires !Precedes(scores, x, order[0])
    requires Ranked(scores, rest) && multiset(rest) == multiset(order[1..]) + multiset{x}
    ensures Ranked(scores, [order[0]] + rest)
    ensures multiset([order[0]] + rest) == multiset(order) + multiset{x}
  {
    PyList.ConsTail(order);
    forall y | y in rest
      ensures Precedes(scores, order[0], y)
    {
      assert y in multiset(rest);
      if y != x {
        assert y in multiset(order[1..]);
        var j :| 0 <= j < |order[1..]| && order[1..][j] == y;
        assert order[j + 1] == y;
      }
    }
    var r := [order[0]] + rest;
    forall i, j | 0 <= i < j < |r|
      ensures Precedes(scores, r[i], r[j])
    {
      if i == 0 {
        assert r[0] == order[0] && r[j] == rest[j - 1];
        assert rest[j - 1] in rest;
      } else {
        assert r[i] == rest[i - 1] && r[j] == rest[j - 1];
      }
    }
  }

  /** The ranking of positions `0 .. n-1`. */
  function RankPrefix(scores: seq<real>, n: nat): (r: seq<nat>)
    requires n <= |scores|
    ensures Ranked(scores, r)
    ensures |r| == n
    ensures forall i: nat :: i in r <==> i < n
  {
    if n == 0 then []
    else
      var prev := RankPrefix(scores, n - 1);
      var x := n - 1;
      assert x !in prev;
      var r := Insert(scores, x, prev);
      MembersOfInsert(prev, x, r);
      r
  }

  /** Membership and length after adding one element to a multiset. */
  lemma MembersOfInsert(prev: seq<nat>, x: nat, r: seq<nat>)
    requires multiset(r) == multiset(prev) + multiset{x}
    ensures |r| == |prev| + 1
    ensures forall i: nat :: i in r <==> i in prev || i == x
  {
    assert |multiset(r)| == |multiset(prev)| + 1;
    forall i: nat
      ensures i in r <==> i in prev || i == x
    {
      assert i in r <==> i in multiset(r);
      assert i in prev <==> i in multiset(prev);
    }
  }

  /** `sorted(enumerate(scores), key=score, reverse=True)`, as positions: a
      permutation of all positions of `scores` in stable descending order. */
  function RankOrder(scores: seq<real>): (r: seq<nat>)
    ensures Ranked(scores, r)
    ensures |r| == |scores|
    ensures forall i: nat :: i in r <==> i < |scores|
  {
    RankPrefix(scores, |scores|)
  }

  /** A ranking never lists a position twice. */
  lemma RankedDistinct(scores: seq<real>, order: seq<nat>)
    requires Ranked(scores, order)
    ensures Distinct(order)
  {
  }

  /** Scores along a ranking never increase. */
  lemma RankedNonIncreasing(scores: seq<real>, order: seq<nat>, i: nat, j: nat)
    requires Ranked(scores, order) && i <= j < |order|
    ensures scores[order[i]] >= scores[order[j]]
  {
  }

  /** Stability: equal scores keep their original position order. */
  lemma RankedStable(scores: seq<real>, order: seq<nat>, i: nat, j: nat)
    requires Ranked(scores, order) && i < j < |order|
    requires scores[order[i]] == scores[order[j]]
    ensures order[i] < order[j]
  {
  }

  /** The first entry of a complete ranking holds the highest score, and the
      lowest position among the positions holding it. */
  lemma {:induction false} FirstIsTop(scores: seq<real>)
    requires |scores| > 0
    ensures forall i :: 0 <= i < |scores| ==> scores[i] <= scores[RankOrder(scores)[0]]
    ensures forall i :: 0 <= i < |scores| && scores[i] == scores[RankOrder(scores)[0]]
              ==> RankOrder(scores)[0] <= i
  {
    var r := RankOrder(scores);
    forall i | 0 <= i < |scores|
      ensures scores[i] <= scores[r[0]]
      ensures scores[i] == scores[r[0]] ==> r[0] <= i
    {
      assert i in r;
      var k :| 0 <= k < |r| && r[k] == i;
      if k > 0 {
        assert Precedes(scores, r[0], r[k]);
      }
    }
  }

  /** Every other entry of a ranking comes after its first entry. */
  lemma FirstPrecedes(scores: seq<real>, order: seq<nat>, x: nat)
    requires Ranked(scores, order) && x in order
    ensures x == order[0] || (x < |scores| && Precedes(scores, order[0], x))
  {
    var k :| 0 <= k < |order| && order[k] == x;
    if k > 0 {
      assert Precedes(scores, order[0], order[k]);
    }
  }

  lemma HeadIsMember(s: seq<nat>)
    requires |s| > 0
    ensures s[0] in s
  {
  }

  /** The tail of a ranking holds every entry but the first. */
  lemma TailMembers(scores: seq<real>, order: seq<nat>, x: nat)
    requires Ranked(scores, order) && |order| > 0
    ensures x in order[1..] <==> x in order && x != order[0]
  {
    assert order == [order[0]] + order[1..];
    if x in order[1..] {
      var i :| 0 <= i < |order[1..]| && order[1..][i] == x;
      assert Precedes(scores, order[0], order[i + 1]);
    }
  }

  /** The ranking is determined by its contents: two rankings of the same
      positions are equal. So `RankOrder` is exactly Python's stable sort. */
  lemma {:induction false} RankedUnique(scores: seq<real>, a: seq<nat>, b: seq<nat>)
    requires Ranked(scores, a) && Ranked(scores, b)
    requires forall x :: x in a <==> x in b
    ensures a == b
    decreases |a|
  {
    if |a| == 0 {
      if |b| > 0 {
        HeadIsMember(b);
        assert false;
      }
    } else {
      assert a[0] in a && b[0] in b;
      FirstPrecedes(scores, a, b[0]);
      FirstPrecedes(scores, b, a[0]);
      assert a[0] == b[0];
      assert a == [a[0]] + a[1..];
      assert b == [b[0]] + b[1..];
      forall x
        ensures x in a[1..] <==> x in b[1..]
      {
        TailMembers(scores, a, x);
        TailMembers(scores, b, x);
      }
      RankedUnique(scores, a[1..], b[1..]);
      assert a == [a[0]] + a[1..];
      assert b == [b[0]] + b[1..];
    }
  }

  /** Keeping some entries of a ranking, in order, is again a ranking. */
  lemma {:induction false} FilterRanked(scores: seq<real>, order: seq<nat>, p: nat -> bool)
    requires Ranked(scores, order)
    ensures Ranked(scores, Filter(order, p))
    decreases |order|
  {
    if |order| > 0 {
      var init := order[..|order| - 1];
      var last := order[|order| - 1];
      FilterRanked(scores, init, p);
      var f := Filter(init, p);
      FilterMembers(init, p);
      forall y | y in f
        ensures Precedes(scores, y, last)
      {
        var k :| 0 <= k < |init| && init[k] == y;
      }
    }
  }

  /** A prefix of a ranking is a ranking. */
  lemma PrefixRanked(scores: seq<real>, order: seq<nat>, prefix: seq<nat>)
    requires Ranked(scores, order) && prefix <= order
    ensures Ranked(scores, prefix)
  {
  }

  /** A contiguous piece of a ranking is a ranking. */
  lemma SliceRanked(scores: seq<real>, order: seq<nat>, a: nat, b: nat)
    requires Ranked(scores, order) && a <= b <= |order|
    ensures Ranked(scores, order[a..b])
  {
  }

  /** Of the entries of a ranking that satisfy `p`, the first `n` kept are
      exactly the best ones: every entry satisfying `p` that is left out
      comes after every entry kept. */
  lemma TakeFilterFirst(scores: seq<real>, order: seq<nat>, p: nat -> bool, n: int, x: nat, y: nat)
    requires Ranked(scores, order)
    requires x in Take(Filter(order, p), n)
    requires y in order && p(y) && y !in Take(Filter(order, p), n)
    ensures x < |scores| && y < |scores| && Precedes(scores, x, y)
  {
    var f := Filter(order, p);
    var t := Take(f, n);
    FilterRanked(scores, order, p);
    FilterMembers(order, p);
    assert y in f;
    var a :| 0 <= a < |t| && t[a] == x;
    var b :| 0 <= b < |f| && f[b] == y;
    assert forall k :: 0 <= k < |t| ==> t[k] == f[k];
    assert b >= |t|;
    assert f[a] == x;
  }

  /** When fewer than `n` entries are kept, every entry satisfying `p` is. */
  lemma TakeFilterAll(order: seq<nat>, p: nat -> bool, n: int, y: nat)
    requires |Take(Filter(order, p), n)| < n
    requires y in order && p(y)
    ensures y in Take(Filter(order, p), n)
  {
    assert Take(Filter(order, p), n) == Filter(order, p);
  }

  /** The first `n` entries satisfying `p`, in ranking order. */
  lemma TakeFilterRanked(scores: seq<real>, order: seq<nat>, p: nat -> bool, n: int)
    requires Ranked(scores, order)
    ensures Ranked(scores, Take(Filter(order, p), n))
  {
    FilterRanked(scores, order, p);
    PrefixRanked(scores, Filter(order, p), Take(Filter(order, p), n));
  }

  /** `sorted(...)[1:n + 1]` as positions: the ranking without its first
      entry, cut after `n` more (Python slice bounds, so any `n`). */
  function TopAfterFirst(scores: seq<real>, n: int): (r: seq<nat>)
    ensures forall k :: 0 <= k < |r| ==> r[k] < |scores|
  {
    var order := RankOrder(scores);
    var r := PySlice(order, 1, n + 1);
    assert forall k :: 0 <= k < |r| ==> r[k] in order;
    r
  }

  /** What `TopAfterFirst` shows: a piece of the ranking that starts after
      its first entry, so in descending score order and without the
      top-ranked position; for `n >= 0` exactly the next `n` entries (all
      that remain when fewer are left). */
  lemma TopAfterFirstSpec(scores: seq<real>, n: int)
    ensures Ranked(scores, TopAfterFirst(scores, n))
    ensures TopAfterFirst(scores, n) <= DropFirst(RankOrder(scores))
    ensures 0 <= n ==> TopAfterFirst(scores, n) == Take(DropFirst(RankOrder(scores)), n)
    ensures 0 <= n ==> |TopAfterFirst(scores, n)| == Min(n, Max(|scores| - 1, 0))
    ensures |scores| > 0 ==> RankOrder(scores)[0] !in TopAfterFirst(scores, n)
  {
    var order := RankOrder(scores);
    var r := TopAfterFirst(scores, n);
    if |order| > 0 {
      var tail := order[1..];
      assert DropFirst(order) == tail;
      var b := PyBound(n + 1, |order|);
      if 1 < b {
        assert r == order[1..b];
        SliceRanked(scores, order, 1, b);
        TailPrefix(order, b);
        RankedDistinct(scores, order);
        HeadNotInSlice(order, b);
      } else {
        assert r == [];
      }
    }
  }

  /** `s[1:b]` is the first `b - 1` entries of `s[1:]`. */
  lemma TailPrefix(s: seq<nat>, b: nat)
    requires 1 <= b <= |s|
    ensures s[1..b] == s[1..][..b - 1]
    ensures s[1..b] <= s[1..]
  {
  }

  /** A slice after the first entry of a list without repeats misses it. */
  lemma HeadNotInSlice(s: seq<nat>, b: nat)
    requires 1 <= b <= |s| && Distinct(s)
    ensures s[0] !in s[1..b]
  {
    forall k | 0 <= k < b - 1
      ensures s[1..b][k] != s[0]
    {
      assert s[1..b][k] == s[k + 1];
    }
  }

}
