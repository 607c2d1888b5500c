/** Concatenating the lists produced for each element of a sequence, in
    order: the shape of a loop that appends, per element, a list of outputs. */
module Sequences {

  /** The outputs for the first `n` elements of `xs`. */
  function FlatMap<T, U>(xs: seq<T>, f: T -> seq<U>, n: nat): seq<U>
    requires n <= |xs|
  {
    if n == 0 then [] else FlatMap(xs, f, n - 1) + f(xs[n - 1])
  }

  /** The outputs for the first `n` elements depend on those elements only. */
  lemma {:induction false} FlatMapPrefix<T, U>(a: seq<T>, b: seq<T>, f: T -> seq<U>, n: nat)
    requires n <= |a| && n <= |b| && a[..n] == b[..n]
    ensures FlatMap(a, f, n) == FlatMap(b, f, n)
  {
    if n != 0 {
      assert a[n - 1] == a[..n][n - 1] == b[..n][n - 1] == b[n - 1];
      assert a[..n - 1] == a[..n][..n - 1] == b[..n][..n - 1] == b[..n - 1];
      FlatMapPrefix(a, b, f, n - 1);
    }
  }

  lemma {:induction false} FlatMapAppendUpTo<T, U>(a: seq<T>, b: seq<T>, f: T -> seq<U>, k: nat)
    requires k <= |b|
    ensures FlatMap(a + b, f, |a| + k) == FlatMap(a, f, |a|) + FlatMap(b, f, k)
  {
    if k == 0 {
      assert (a + b)[..|a|] == a[..|a|];
      FlatMapPrefix(a + b, a, f, |a|);
    } else {
      FlatMapAppendUpTo(a, b, f, k - 1);
      assert (a + b)[|a| + k - 1] == b[k - 1];
    }
  }

  /** Order is kept across a split: the outputs for `a + b` are those for
      `a` followed by those for `b`. */
  lemma FlatMapAppend<T, U>(a: seq<T>, b: seq<T>, f: T -> seq<U>)
    ensures FlatMap(a + b, f, |a + b|) == FlatMap(a, f, |a|) + FlatMap(b, f, |b|)
  {
    FlatMapAppendUpTo(a, b, f, |b|);
  }

  /** An output appears iff it is among the outputs of one of the first `n`
      elements. */
  lemma {:induction false} FlatMapMembership<T, U>(xs: seq<T>, f: T -> seq<U>, n: nat, y: U)
    requires n <= |xs|
    ensures y in FlatMap(xs, f, n) <==> exists i :: 0 <= i < n && y in f(xs[i])
  {
    if n != 0 {
      FlatMapMembership(xs, f, n - 1, y);
    }
  }

  /** Outputs that are all empty give nothing. */
  lemma {:induction false} FlatMapEmpty<T, U>(xs: seq<T>, f: T -> seq<U>, n: nat)
    requires n <= |xs|
    requires forall i :: 0 <= i < n ==> f(xs[i]) == []
    ensures FlatMap(xs, f, n) == []
  {
    if n != 0 {
      FlatMapEmpty(xs, f, n - 1);
    }
  }

  /** Two functions that agree on the first `n` elements give the same
      outputs. */
  lemma {:induction false} FlatMapCongruence<T, U>(xs: seq<T>, f: T -> seq<U>, g: T -> seq<U>, n: nat)
    requires n <= |xs|
    requires forall i :: 0 <= i < n ==> f(xs[i]) == g(xs[i])
    ensures FlatMap(xs, f, n) == FlatMap(xs, g, n)
  {
    if n != 0 {
      FlatMapCongruence(xs, f, g, n - 1);
    }
  }

  /** `a` is obtained from `b` by deleting elements: either the last element
      of `b` is the last of `a`, or it was deleted. */
  predicate IsSubsequence<T(==)>(a: seq<T>, b: seq<T>)
    decreases |b|
  {
    if a == [] then true
    else if b == [] then false
    else (a[|a| - 1] == b[|b| - 1] && IsSubsequence(a[..|a| - 1], b[..|b| - 1]))
         || IsSubsequence(a, b[..|b| - 1])
  }

  /** A function that keeps or drops each element ("a filter") yields a
      subsequence of its input, in the original order. */
  lemma {:induction false} FilterIsSubsequence<T>(xs: seq<T>, f: T -> seq<T>, n: nat)
    requires n <= |xs|
    requires forall i :: 0 <= i < n ==> f(xs[i]) == [] || f(xs[i]) == [xs[i]]
    ensures IsSubsequence(FlatMap(xs, f, n), xs[..n])
  {
    if n != 0 {
      FilterIsSubsequence(xs, f, n - 1);
      var kept := FlatMap(xs, f, n - 1);
      assert xs[..n][..n - 1] == xs[..n - 1];
      if f(xs[n - 1]) == [] {
        assert FlatMap(xs, f, n) == kept;
        if kept != [] {
          assert IsSubsequence(kept, xs[..n][..n - 1]);
        }
      } else {
        assert FlatMap(xs, f, n) == kept + [xs[n - 1]];
        assert (kept + [xs[n - 1]])[..|kept|] == kept;
      }
    }
  }

  /** A one-element input contributes exactly its own image. */
  lemma FlatMapSingle<T, U>(x: T, f: T -> seq<U>)
    ensures FlatMap([x], f, 1) == f(x)
  {
    assert FlatMap([x], f, 1) == FlatMap([x], f, 0) + f([x][0]);
  }
}
