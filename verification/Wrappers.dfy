/** Optional values and fallible results, as the rest of the model returns them. */
module Wrappers {
  datatype Option<+T> = None | Some(value: T)

  datatype Result<+T, +E> = Ok(value: T) | Err(error: E)

  /** Applies `f` to each element in order; the first failure is the failure of the whole. */
  function TryMap<T, U, E>(f: T -> Result<U, E>, xs: seq<T>): Result<seq<U>, E> {
    if xs == [] then Ok([])
    else match TryMap(f, xs[..|xs| - 1])
      case Err(e) => Err(e)
      case Ok(ys) =>
        match f(xs[|xs| - 1])
        case Err(e) => Err(e)
        case Ok(y) => Ok(ys + [y])
  }

  lemma {:induction false} TryMapOk<T, U, E>(f: T -> Result<U, E>, xs: seq<T>, ys: seq<U>)
    ensures TryMap(f, xs) == Ok(ys) <==> |ys| == |xs| && forall i :: 0 <= i < |xs| ==> f(xs[i]) == Ok(ys[i])
  {
    if xs == [] || ys == [] {
    } else {
      var n, m := |xs| - 1, |ys| - 1;
      TryMapOk(f, xs[..n], ys[..m]);
      assert ys == ys[..m] + [ys[m]];
      if TryMap(f, xs) == Ok(ys) {
        assert TryMap(f, xs[..n]) == Ok(ys[..m]);
        assert forall i :: 0 <= i < n ==> xs[..n][i] == xs[i];
      }
      if n == m && forall i :: 0 <= i < |xs| ==> f(xs[i]) == Ok(ys[i]) {
        assert forall i :: 0 <= i < n ==> f(xs[..n][i]) == Ok(ys[..m][i]);
      }
    }
  }

  /** The first failing element decides. */
  lemma {:induction false} TryMapErr<T, U, E>(f: T -> Result<U, E>, xs: seq<T>, k: nat)
    requires k < |xs| && f(xs[k]).Err? && TryMap(f, xs[..k]).Ok?
    ensures TryMap(f, xs) == Err(f(xs[k]).error)
    decreases |xs|
  {
    var n := |xs| - 1;
    if k >= n {
    } else {
      assert xs[..n][..k] == xs[..k];
      TryMapErr(f, xs[..n], k);
    }
  }

  /** One more success. */
  lemma TryMapPush<T, U, E>(f: T -> Result<U, E>, xs: seq<T>, k: nat)
    requires k < |xs| && f(xs[k]).Ok? && TryMap(f, xs[..k]).Ok?
    ensures TryMap(f, xs[..k + 1]) == Ok(TryMap(f, xs[..k]).value + [f(xs[k]).value])
  {
    assert xs[..k + 1][..k] == xs[..k];
  }
}
