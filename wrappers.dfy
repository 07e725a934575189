/** Option and Result, the library's `null` returns and thrown TypeErrors,
    and the `filter` and throwing `map` of its arrays. */
module Wrappers {

  datatype Option<+T> = None | Some(value: T)

  datatype Result<+T, +E> = Ok(value: T) | Err(error: E)

  /** Every outcome before index `k` is a value. */
  predicate OkBefore<T, E>(rs: seq<Result<T, E>>, k: int) {
    forall j | 0 <= j < k && j < |rs| :: rs[j].Ok?
  }

  /** Every outcome is a value. */
  predicate AllOk<T, E>(rs: seq<Result<T, E>>) {
    forall k | 0 <= k < |rs| :: rs[k].Ok?
  }

  /** The values of outcomes that are all values. */
  function Values<T, E>(rs: seq<Result<T, E>>): (vs: seq<T>)
    requires forall k | 0 <= k < |rs| :: rs[k].Ok?
    ensures |vs| == |rs| && forall k | 0 <= k < |rs| :: rs[k] == Ok(vs[k])
  {
    if rs == [] then [] else [rs[0].value] + Values(rs[1..])
  }

  /** The outcome of a `map` whose calls may throw, given the outcome of
      each call: all the values in order, or the failure of the first call
      that fails. */
  function Collect<T, E>(rs: seq<Result<T, E>>): (r: Result<seq<T>, E>)
    ensures r.Ok? <==> forall k | 0 <= k < |rs| :: rs[k].Ok?
    ensures r.Ok? ==> |r.value| == |rs| && forall k | 0 <= k < |rs| :: rs[k] == Ok(r.value[k])
    ensures r.Err? ==> exists k | 0 <= k < |rs| :: rs[k] == Err(r.error) && OkBefore(rs, k)
  {
    if rs == [] then Ok([])
    else
      assert forall k | 1 <= k < |rs| :: rs[k] == rs[1..][k - 1];
      match rs[0]
      case Err(e) => Err(e)
      case Ok(b) =>
        match Collect(rs[1..])
        case Err(e) => Err(e)
        case Ok(bs) => Ok([b] + bs)
  }

  /** Outcomes that are all values collect to their values. */
  lemma CollectValues<T, E>(rs: seq<Result<T, E>>)
    requires forall k | 0 <= k < |rs| :: rs[k].Ok?
    ensures Collect(rs) == Ok(Values(rs))
  {
    assert Collect(rs).value == Values(rs);
  }

  /** Collecting a concatenation: the first part's failure, else the
      second part's failure, else the values of both parts in order. */
  lemma {:induction false} CollectConcat<T, E>(x: seq<Result<T, E>>, y: seq<Result<T, E>>)
    ensures Collect(x).Err? ==> Collect(x + y) == Collect(x)
    ensures Collect(x).Ok? && Collect(y).Err? ==> Collect(x + y) == Collect(y)
    ensures Collect(x).Ok? && Collect(y).Ok? ==> Collect(x + y) == Ok(Collect(x).value + Collect(y).value)
  {
    if x == [] {
      assert x + y == y;
      assert Collect(x) == Ok([]);
      if Collect(y).Ok? { assert [] + Collect(y).value == Collect(y).value; }
    } else {
      assert (x + y)[0] == x[0] && (x + y)[1..] == x[1..] + y;
      CollectConcat(x[1..], y);
      if x[0].Ok? && Collect(x[1..]).Ok? && Collect(y).Ok? {
        assert [x[0].value] + Collect(x[1..]).value + Collect(y).value
               == [x[0].value] + (Collect(x[1..]).value + Collect(y).value);
      }
    }
  }

  /** `xs.filter(p)`: the elements that satisfy `p`, in order. */
  function Filter<T>(xs: seq<T>, p: T -> bool): (kept: seq<T>)
    ensures |kept| <= |xs|
    ensures forall k | 0 <= k < |kept| :: kept[k] in xs && p(kept[k])
    ensures forall k | 0 <= k < |xs| :: p(xs[k]) ==> xs[k] in kept
  {
    if xs == [] then []
    else
      assert forall k | 1 <= k < |xs| :: xs[k] == xs[1..][k - 1];
      var rest := Filter(xs[1..], p);
      if p(xs[0]) then [xs[0]] + rest else rest
  }

  /** The filter keeps a single element exactly when it satisfies `p`, and
      filters a concatenation piece by piece, so it keeps the elements
      that satisfy `p` in their order and with their repetitions. */
  lemma {:induction false} FilterConcat<T>(xs: seq<T>, ys: seq<T>, p: T -> bool)
    ensures |xs| == 1 ==> Filter(xs, p) == if p(xs[0]) then xs else []
    ensures Filter(xs + ys, p) == Filter(xs, p) + Filter(ys, p)
  {
    if xs == [] {
      assert xs + ys == ys;
    } else {
      assert (xs + ys)[0] == xs[0] && (xs + ys)[1..] == xs[1..] + ys;
      FilterConcat(xs[1..], ys, p);
    }
  }

  /** `xs.map(f)`. */
  function Map<T, U>(xs: seq<T>, f: T -> U): (ys: seq<U>)
    ensures |ys| == |xs| && forall k | 0 <= k < |xs| :: ys[k] == f(xs[k])
  {
    if xs == [] then [] else [f(xs[0])] + Map(xs[1..], f)
  }

  lemma {:induction false} MapConcat<T, U>(xs: seq<T>, ys: seq<T>, f: T -> U)
    ensures Map(xs + ys, f) == Map(xs, f) + Map(ys, f)
  {
    if xs != [] {
      assert (xs + ys)[0] == xs[0] && (xs + ys)[1..] == xs[1..] + ys;
      MapConcat(xs[1..], ys, f);
    } else {
      assert xs + ys == ys;
    }
  }

  /** The elements of each sequence in turn. */
  function Concat<T>(ss: seq<seq<T>>): seq<T> {
    if ss == [] then [] else ss[0] + Concat(ss[1..])
  }
}
