/**
 * `xs.map(f)` where `f` may throw: JavaScript's Array.prototype.map and
 * Python's list comprehension both apply `f` from the first element to the
 * last and stop at the first exception.
 */
module Sequences {
  import opened Wrappers

  /** 0, 1, ..., n - 1 (`[...Array(n).keys()]`, Python's `range(n)`). */
  function Range(n: nat): (r: seq<nat>)
    ensures |r| == n && forall i :: 0 <= i < n ==> r[i] == i
  {
    seq(n, i => i)
  }

  /**
   * The results of f on each element in order, or the error of the first
   * element on which f fails. What the result says about each element is
   * stated by the lemmas below, which callers invoke where they need it.
   */
  function MapResult<T, U, E>(f: T --> Result<U, E>, xs: seq<T>): (r: Result<seq<U>, E>)
    requires forall i :: 0 <= i < |xs| ==> f.requires(xs[i])
    ensures r.Ok? ==> |r.value| == |xs|
  {
    if xs == [] then Ok([])
    else
      match f(xs[0])
      case Err(e) => Err(e)
      case Ok(y) =>
        match MapResult(f, xs[1..])
        case Err(e) => Err(e)
        case Ok(ys) => Ok([y] + ys)
  }

  /** The map succeeds exactly when f succeeds on every element, and then holds f's results in order. */
  lemma {:induction false} MapResultOk<T, U, E>(f: T --> Result<U, E>, xs: seq<T>)
    requires forall i :: 0 <= i < |xs| ==> f.requires(xs[i])
    ensures MapResult(f, xs).Ok? <==> forall i :: 0 <= i < |xs| ==> f(xs[i]).Ok?
    ensures MapResult(f, xs).Ok? ==> forall i :: 0 <= i < |xs| ==> f(xs[i]) == Ok(MapResult(f, xs).value[i])
    decreases |xs|
  {
    if xs != [] {
      MapResultOk(f, xs[1..]);
      assert forall i :: 1 <= i < |xs| ==> xs[i] == xs[1..][i - 1];
    }
  }

  /** A failed map reports the error of the first element on which f fails. */
  lemma {:induction false} MapResultFirstFailure<T, U, E>(f: T --> Result<U, E>, xs: seq<T>)
    requires forall i :: 0 <= i < |xs| ==> f.requires(xs[i])
    ensures MapResult(f, xs).Err? ==> exists i :: FirstFailure(f, xs, i, MapResult(f, xs).error)
    decreases |xs|
  {
    if xs != [] && MapResult(f, xs).Err? {
      match f(xs[0])
      case Err(e) =>
        assert FirstFailure(f, xs, 0, e);
      case Ok(y) =>
        MapResultFirstFailure(f, xs[1..]);
        FailureShifts(f, xs, MapResult(f, xs).error);
    }
  }

  /** f fails with e on xs[i] and succeeds on every element before it. */
  ghost predicate FirstFailure<T, U, E>(f: T --> Result<U, E>, xs: seq<T>, i: int, e: E)
    requires forall k :: 0 <= k < |xs| ==> f.requires(xs[k])
  {
    0 <= i < |xs| && f(xs[i]) == Err(e) && forall j :: 0 <= j < i ==> f(xs[j]).Ok?
  }

  /** A first failure in the tail, after a success at the head, is a first failure of the whole. */
  lemma FailureShifts<T, U, E>(f: T --> Result<U, E>, xs: seq<T>, e: E)
    requires forall k :: 0 <= k < |xs| ==> f.requires(xs[k])
    requires xs != [] && f(xs[0]).Ok?
    requires exists i :: FirstFailure(f, xs[1..], i, e)
    ensures exists i :: FirstFailure(f, xs, i, e)
  {
    var i :| FirstFailure(f, xs[1..], i, e);
    assert xs[1..][i] == xs[i + 1];
    forall j | 0 <= j < i + 1
      ensures f(xs[j]).Ok?
    {
      if j > 0 {
        assert xs[j] == xs[1..][j - 1];
      }
    }
    assert FirstFailure(f, xs, i + 1, e);
  }

  /** When f succeeds on every element with the matching entry of ys, the map gives ys. */
  lemma {:induction false} MapResultValues<T, U, E>(f: T --> Result<U, E>, xs: seq<T>, ys: seq<U>)
    requires forall i :: 0 <= i < |xs| ==> f.requires(xs[i])
    requires |ys| == |xs| && forall i :: 0 <= i < |xs| ==> f(xs[i]) == Ok(ys[i])
    ensures MapResult(f, xs) == Ok(ys)
  {
    MapResultOk(f, xs);
    assert MapResult(f, xs).value == ys;
  }

  /** When f fails with the same error on every element of a non-empty sequence, so does the map. */
  lemma {:induction false} MapResultUniformError<T, U, E>(f: T --> Result<U, E>, xs: seq<T>, e: E)
    requires forall i :: 0 <= i < |xs| ==> f.requires(xs[i]) && f(xs[i]) == Err(e)
    requires xs != []
    ensures MapResult(f, xs) == Err(e)
  {
    assert f(xs[0]).Err?;
  }

  /** Mapping a concatenation maps the first part, then (if that succeeded) the second. */
  lemma {:induction false} MapResultAppend<T, U, E>(f: T --> Result<U, E>, xs: seq<T>, ys: seq<T>)
    requires forall i :: 0 <= i < |xs| ==> f.requires(xs[i])
    requires forall i :: 0 <= i < |ys| ==> f.requires(ys[i])
    ensures forall i :: 0 <= i < |xs + ys| ==> f.requires((xs + ys)[i])
    ensures MapResult(f, xs + ys) ==
      match MapResult(f, xs)
      case Err(e) => Err(e)
      case Ok(us) =>
        match MapResult(f, ys)
        case Err(e) => Err(e)
        case Ok(vs) => Ok(us + vs)
    decreases |xs|
  {
    assert forall i :: 0 <= i < |xs + ys| ==> f.requires((xs + ys)[i]) by {
      forall i | 0 <= i < |xs + ys|
        ensures f.requires((xs + ys)[i])
      {
        if i >= |xs| {
          assert (xs + ys)[i] == ys[i - |xs|];
        }
      }
    }
    if xs == [] {
      assert xs + ys == ys;
      if MapResult(f, ys).Ok? {
        assert [] + MapResult(f, ys).value == MapResult(f, ys).value;
      }
    } else {
      assert (xs + ys)[1..] == xs[1..] + ys;
      assert (xs + ys)[0] == xs[0];
      MapResultAppend(f, xs[1..], ys);
      match f(xs[0])
      case Err(e) =>
      case Ok(u) =>
        match MapResult(f, xs[1..])
        case Err(e) =>
        case Ok(us) =>
          match MapResult(f, ys)
          case Err(e) =>
          case Ok(vs) =>
            assert [u] + (us + vs) == ([u] + us) + vs;
    }
  }

  /** Mapping one more element: the earlier error, or f's error on it, or its result appended. */
  lemma {:induction false} MapResultSnoc<T, U, E>(f: T --> Result<U, E>, xs: seq<T>, x: T)
    requires forall i :: 0 <= i < |xs| ==> f.requires(xs[i])
    requires f.requires(x)
    ensures forall i :: 0 <= i < |xs + [x]| ==> f.requires((xs + [x])[i])
    ensures MapResult(f, xs + [x]) ==
      match MapResult(f, xs)
      case Err(e) => Err(e)
      case Ok(us) =>
        match f(x)
        case Err(e) => Err(e)
        case Ok(u) => Ok(us + [u])
  {
    MapResultAppend(f, xs, [x]);
    assert [x][0] == x && [x][1..] == [];
    match f(x)
    case Err(e) =>
    case Ok(u) =>
      assert [u] + [] == [u];
  }

  /** Mapping over 0..i: the map over 0..i-1 extended by f(i), as a loop over the numbers computes it. */
  lemma {:induction false} MapResultRangeSnoc<U, E>(f: nat --> Result<U, E>, i: nat)
    requires forall k: nat :: k <= i ==> f.requires(k)
    ensures MapResult(f, Range(i + 1)) ==
      match MapResult(f, Range(i))
      case Err(e) => Err(e)
      case Ok(us) =>
        match f(i)
        case Err(e) => Err(e)
        case Ok(u) => Ok(us + [u])
  {
    assert Range(i + 1) == Range(i) + [i];
    MapResultSnoc(f, Range(i), i);
  }

  /** Once the map over 0..i fails, the map over any longer range fails the same way. */
  lemma {:induction false} MapResultRangeStop<U, E>(f: nat --> Result<U, E>, i: nat, n: nat)
    requires i <= n && forall k: nat :: k < n ==> f.requires(k)
    ensures forall k :: 0 <= k < |Range(i)| ==> f.requires(Range(i)[k])
    ensures forall k :: 0 <= k < |Range(n)| ==> f.requires(Range(n)[k])
    ensures MapResult(f, Range(i)).Err? ==> MapResult(f, Range(n)) == MapResult(f, Range(i))
  {
    var rest := Range(n)[i..];
    assert Range(n) == Range(i) + rest;
    MapResultAppend(f, Range(i), rest);
  }

  /** A new array holding the elements of `s`, in order (also `slice()` of an array). */
  method ToArray<T>(s: seq<T>) returns (a: array<T>)
    ensures fresh(a) && a[..] == s
  {
    a := new T[|s|](i requires 0 <= i < |s| => s[i]);
  }
}
