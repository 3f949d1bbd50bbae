/** Failure-carrying results used across the pipeline: `Option` for the
    program's `None` returns, `Result` for steps that raise. */
module Wrappers {

  datatype Option<+T> = None | Some(value: T)

  datatype Result<+T, +E> = Success(value: T) | Failure(error: E) {

    /** Forgets the error, as the program does when it returns `None`. */
    function ToOption(): Option<T> {
      match this
      case Success(v) => Some(v)
      case Failure(_) => None
    }
  }

  /** Keeps the `Some` results of `f` over `xs`, in order. */
  function FilterMap<T, R>(xs: seq<T>, f: T -> Option<R>): (ys: seq<R>)
    ensures |ys| <= |xs|
  {
    if |xs| == 0 then []
    else
      var rest := FilterMap(xs[1..], f);
      match f(xs[0])
      case None => rest
      case Some(y) => [y] + rest
  }

  lemma {:induction false} FilterMapAppend<T, R>(a: seq<T>, b: seq<T>, f: T -> Option<R>)
    ensures FilterMap(a + b, f) == FilterMap(a, f) + FilterMap(b, f)
  {
    if |a| == 0 {
      assert a + b == b;
    } else {
      assert (a + b)[0] == a[0];
      assert (a + b)[1..] == a[1..] + b;
      FilterMapAppend(a[1..], b, f);
    }
  }

  /** Every result of `FilterMap` comes from some element of the input. */
  lemma {:induction false} FilterMapSource<T, R>(xs: seq<T>, f: T -> Option<R>, y: R)
    requires y in FilterMap(xs, f)
    ensures exists x :: x in xs && f(x) == Some(y)
  {
    if f(xs[0]) == Some(y) {
      assert xs[0] in xs;
    } else {
      FilterMapSource(xs[1..], f, y);
      var x :| x in xs[1..] && f(x) == Some(y);
      assert x in xs;
    }
  }

  /** Extending a prefix by one element adds that element's result, if any. */
  lemma FilterMapSnoc<T, R>(xs: seq<T>, i: nat, f: T -> Option<R>)
    requires i < |xs|
    ensures FilterMap(xs[..i + 1], f)
            == FilterMap(xs[..i], f) + (if f(xs[i]).Some? then [f(xs[i]).value] else [])
  {
    FilterMapAppend(xs[..i], [xs[i]], f);
    assert xs[..i + 1] == xs[..i] + [xs[i]];
    assert [xs[i]][1..] == [];
  }

  /** `ys` is what `FilterMap` yields on the first `n` elements of `xs`,
      and `idx` records, for each element of `ys`, the position it came
      from: positions increase and cover every position that yields. */
  ghost predicate Tracks<T, R>(xs: seq<T>, n: nat, f: T -> Option<R>, ys: seq<R>, idx: seq<nat>) {
    && n <= |xs|
    && ys == FilterMap(xs[..n], f)
    && |idx| == |ys|
    && (forall j :: 0 <= j < |idx| ==> idx[j] < n && f(xs[idx[j]]) == Some(ys[j]))
    && (forall j, k :: 0 <= j < k < |idx| ==> idx[j] < idx[k])
    && (forall m :: 0 <= m < n && f(xs[m]).Some? ==> m in idx)
  }

  /** Processing one more element keeps `Tracks`. */
  lemma TracksStep<T, R>(xs: seq<T>, n: nat, f: T -> Option<R>, ys: seq<R>, idx: seq<nat>)
    requires Tracks(xs, n, f, ys, idx)
    requires n < |xs|
    ensures f(xs[n]).None? ==> Tracks(xs, n + 1, f, ys, idx)
    ensures f(xs[n]).Some? ==> Tracks(xs, n + 1, f, ys + [f(xs[n]).value], idx + [n])
  {
    FilterMapSnoc(xs, n, f);
    if f(xs[n]).Some? {
      var ys', idx' := ys + [f(xs[n]).value], idx + [n];
      forall j | 0 <= j < |idx'|
        ensures idx'[j] < n + 1 && f(xs[idx'[j]]) == Some(ys'[j])
      {
        if j < |idx| {
          assert idx'[j] == idx[j] && ys'[j] == ys[j];
        }
      }
      forall m | 0 <= m < n + 1 && f(xs[m]).Some?
        ensures m in idx'
      {
        if m < n {
          assert m in idx;
        } else {
          assert idx'[|idx|] == m;
        }
      }
    }
  }
}
