/** Small value wrappers shared by every module: Python's `None`-or-value and
    raise-or-return, written as datatypes. */
module Base {

  /** A value that may be missing (Python `None`, pandas `NaN`). */
  datatype Option<+T> = None | Some(value: T)

  /** The outcome of an operation that may raise instead of returning. */
  datatype Result<+T, +E> = Ok(value: T) | Err(error: E)

  /** Python truthiness of an optional integer argument: `None` and `0` are false. */
  predicate IntTruthy(o: Option<int>)
  {
    o.Some? && o.value != 0
  }

  /** Python truthiness of an optional float argument: `None` and `0.0` are false. */
  predicate RealTruthy(o: Option<real>)
  {
    o.Some? && o.value != 0.0
  }

  /** `[f(x) for x in xs]` where `f` may raise: all results, or the first failure. */
  function MapOk<A, B, E>(xs: seq<A>, f: A -> Result<B, E>): (r: Result<seq<B>, E>)
    ensures r.Ok? <==> forall i :: 0 <= i < |xs| ==> f(xs[i]).Ok?
    ensures r.Ok? ==> |r.value| == |xs| && forall i :: 0 <= i < |xs| ==> f(xs[i]) == Ok(r.value[i])
    decreases |xs|
  {
    if |xs| == 0 then Ok([])
    else
      var init := MapOk(xs[..|xs| - 1], f);
      var last := f(xs[|xs| - 1]);
      if init.Err? then Err(init.error)
      else if last.Err? then Err(last.error)
      else Ok(init.value + [last.value])
  }

  /** `MapOk` by membership: it fails exactly when some element fails, and
      otherwise holds the result of every element and nothing else. */
  lemma MapOkMembers<A, B, E>(xs: seq<A>, f: A -> Result<B, E>)
    ensures MapOk(xs, f).Err? <==> exists x :: x in xs && f(x).Err?
    ensures MapOk(xs, f).Ok? ==> forall y :: y in MapOk(xs, f).value ==> exists x :: x in xs && f(x) == Ok(y)
    ensures MapOk(xs, f).Ok? ==> forall x :: x in xs ==> f(x).Ok? && f(x).value in MapOk(xs, f).value
  {
    var r := MapOk(xs, f);
    if r.Err? {
      var i :| 0 <= i < |xs| && !f(xs[i]).Ok?;
      assert xs[i] in xs;
    } else {
      forall y | y in r.value
        ensures exists x :: x in xs && f(x) == Ok(y)
      {
        var i :| 0 <= i < |r.value| && r.value[i] == y;
        assert f(xs[i]) == Ok(y);
      }
      forall x | x in xs
        ensures f(x).Ok? && f(x).value in r.value
      {
        var i :| 0 <= i < |xs| && xs[i] == x;
        assert f(xs[i]) == Ok(r.value[i]);
      }
    }
  }

  /** No element occurs twice. */
  predicate Distinct<T(==)>(s: seq<T>)
  {
    forall i, j :: 0 <= i < j < |s| ==> s[i] != s[j]
  }
}
