/** Concatenating one list per element. */
module Sequences {
  function Concat<A, T>(xs: seq<A>, list: A -> seq<T>): seq<T>
  {
    if xs == [] then [] else Concat(xs[..|xs| - 1], list) + list(xs[|xs| - 1])
  }

  lemma {:induction false} ConcatAppend<A, T>(xs: seq<A>, ys: seq<A>, list: A -> seq<T>)
    ensures Concat(xs + ys, list) == Concat(xs, list) + Concat(ys, list)
  {
    if ys == [] {
      assert xs + ys == xs;
    } else {
      assert (xs + ys)[..|xs + ys| - 1] == xs + ys[..|ys| - 1];
      ConcatAppend(xs, ys[..|ys| - 1], list);
    }
  }

  lemma ConcatStep<A, T>(xs: seq<A>, k: nat, list: A -> seq<T>)
    requires k < |xs|
    ensures Concat(xs[..k + 1], list) == Concat(xs[..k], list) + list(xs[k])
  {
    assert xs[..k + 1][..k] == xs[..k];
  }

  lemma {:induction false} InConcat<A, T>(xs: seq<A>, list: A -> seq<T>, y: T)
    ensures y in Concat(xs, list) <==> exists x :: x in xs && y in list(x)
  {
    if xs != [] {
      var n := |xs| - 1;
      InConcat(xs[..n], list, y);
      assert xs == xs[..n] + [xs[n]];
    }
  }

  lemma {:induction false} SameConcat<A, T>(xs: seq<A>, f: A -> seq<T>, g: A -> seq<T>)
    requires forall i :: 0 <= i < |xs| ==> f(xs[i]) == g(xs[i])
    ensures Concat(xs, f) == Concat(xs, g)
  {
    if xs != [] {
      SameConcat(xs[..|xs| - 1], f, g);
    }
  }

  ghost predicate Distinct<T>(s: seq<T>) { forall i, j :: 0 <= i < j < |s| ==> s[i] != s[j] }

  lemma AppendDistinct<T>(a: seq<T>, b: seq<T>)
    requires Distinct(a) && Distinct(b) && forall x :: x in a ==> x !in b
    ensures Distinct(a + b)
  {
    forall i, j | 0 <= i < |a| && 0 <= j < |b|
      ensures a[i] != b[j]
    {
      assert a[i] in a && b[j] in b;
    }
  }

  /** Lists without repetition that have nothing in common, one for each of different elements. */
  lemma {:induction false} ConcatDistinct<A, T>(xs: seq<A>, list: A -> seq<T>)
    requires Distinct(xs) && forall x :: x in xs ==> Distinct(list(x))
    requires forall x, y, t :: x in xs && y in xs && x != y && t in list(x) ==> t !in list(y)
    ensures Distinct(Concat(xs, list))
  {
    if xs != [] {
      var n := |xs| - 1;
      ConcatDistinct(xs[..n], list);
      var before, last := Concat(xs[..n], list), list(xs[n]);
      assert Concat(xs, list) == before + last;
      forall i, j | 0 <= i < |before| && 0 <= j < |last|
        ensures before[i] != last[j]
      {
        InConcat(xs[..n], list, before[i]);
        var x :| x in xs[..n] && before[i] in list(x);
        assert x != xs[n];
      }
    }
  }
}
