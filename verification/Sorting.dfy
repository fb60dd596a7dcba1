/** std::sort by its contract: a permutation in which no later element is less than an earlier one. */
module Sorting {
  ghost predicate StrictWeak<T(!new)>(less: (T, T) -> bool) {
    && (forall a, b :: less(a, b) ==> !less(b, a))
    && (forall a, b, c :: !less(b, a) && !less(c, b) ==> !less(c, a))
  }

  ghost predicate SortedBy<T(!new)>(less: (T, T) -> bool, xs: seq<T>) {
    forall i, j :: 0 <= i < j < |xs| ==> !less(xs[j], xs[i])
  }

  method Sort<T(!new)>(xs: seq<T>, less: (T, T) -> bool) returns (ys: seq<T>)
    requires StrictWeak(less)
    ensures multiset(ys) == multiset(xs)
    ensures SortedBy(less, ys)
  {
    ys := [];
    var i := 0;
    while i < |xs|
      invariant 0 <= i <= |xs|
      invariant multiset(ys) == multiset(xs[..i])
      invariant SortedBy(less, ys)
    {
      ys := Insert(ys, xs[i], less);
      assert xs[..i + 1] == xs[..i] + [xs[i]];
      i := i + 1;
    }
    assert xs[..i] == xs;
  }

  method Insert<T(!new)>(xs: seq<T>, x: T, less: (T, T) -> bool) returns (ys: seq<T>)
    requires StrictWeak(less) && SortedBy(less, xs)
    ensures multiset(ys) == multiset(xs) + multiset{x}
    ensures SortedBy(less, ys)
  {
    hide StrictWeak, SortedBy;
    var p := |xs|;
    while p > 0 && less(x, xs[p - 1])
      invariant 0 <= p <= |xs|
      invariant forall j :: p <= j < |xs| ==> less(x, xs[j])
    {
      p := p - 1;
    }
    InsertPoint(xs, x, p, less);
    assert xs == xs[..p] + xs[p..];
    ys := xs[..p] + [x] + xs[p..];
  }

  lemma StrictWeakStep<T(!new)>(less: (T, T) -> bool, a: T, b: T, c: T)
    requires StrictWeak(less)
    ensures less(a, b) ==> !less(b, a)
    ensures !less(b, a) && !less(c, b) ==> !less(c, a)
  {
  }

  lemma InsertPoint<T(!new)>(xs: seq<T>, x: T, p: nat, less: (T, T) -> bool)
    requires StrictWeak(less) && SortedBy(less, xs) && p <= |xs|
    requires p > 0 ==> !less(x, xs[p - 1])
    requires forall j :: p <= j < |xs| ==> less(x, xs[j])
    ensures SortedBy(less, xs[..p] + [x] + xs[p..])
  {
    hide StrictWeak;
    forall j | 0 <= j < |xs|
      ensures if j < p then !less(x, xs[j]) else !less(xs[j], x)
    {
      if j < p {
        StrictWeakStep(less, xs[j], xs[p - 1], x);
        StrictWeakStep(less, x, xs[p - 1], xs[j]);
        assert j < p - 1 ==> !less(xs[p - 1], xs[j]);
      } else {
        StrictWeakStep(less, x, xs[j], x);
      }
    }
  }

  lemma PermutationMembers<T>(xs: seq<T>, ys: seq<T>)
    requires multiset(xs) == multiset(ys)
    ensures forall x :: x in xs <==> x in ys
  {
    forall x
      ensures x in xs <==> x in ys
    {
      assert x in xs <==> x in multiset(xs);
      assert x in ys <==> x in multiset(ys);
    }
  }

  lemma {:induction false} CountDistinct<T>(xs: seq<T>, x: T)
    requires forall i, j :: 0 <= i < j < |xs| ==> xs[i] != xs[j]
    ensures multiset(xs)[x] <= 1
  {
    if xs != [] {
      var n := |xs| - 1;
      assert xs == xs[..n] + [xs[n]];
      CountDistinct(xs[..n], x);
      if xs[n] == x {
        assert x !in xs[..n];
      }
    }
  }

  lemma PermutationDistinct<T>(xs: seq<T>, ys: seq<T>)
    requires multiset(xs) == multiset(ys)
    requires forall i, j :: 0 <= i < j < |xs| ==> xs[i] != xs[j]
    ensures forall i, j :: 0 <= i < j < |ys| ==> ys[i] != ys[j]
  {
    forall i, j | 0 <= i < j < |ys|
      ensures ys[i] != ys[j]
    {
      CountDistinct(xs, ys[i]);
      assert ys == ys[..i] + [ys[i]] + ys[i + 1..j] + [ys[j]] + ys[j + 1..];
    }
  }
}
