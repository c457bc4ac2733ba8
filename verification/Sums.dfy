/** Sums of an integer measure over a sequence. */
module Sums {

  function Sum<T>(s: seq<T>, f: T -> int): int {
    if s == [] then 0 else Sum(s[..|s| - 1], f) + f(s[|s| - 1])
  }

  lemma {:induction false} SumUpdate<T>(s: seq<T>, i: nat, t: T, f: T -> int)
    requires i < |s|
    ensures Sum(s[i := t], f) == Sum(s, f) - f(s[i]) + f(t)
  {
    var n := |s| - 1;
    if i == n {
      assert s[i := t][..n] == s[..n];
    } else {
      assert s[i := t][..n] == s[..n][i := t];
      SumUpdate(s[..n], i, t, f);
    }
  }

  lemma SumPush<T>(s: seq<T>, t: T, f: T -> int)
    ensures Sum(s + [t], f) == Sum(s, f) + f(t)
  {
    assert (s + [t])[..|s|] == s;
  }

  lemma {:induction false} SumRemove<T>(s: seq<T>, i: nat, f: T -> int)
    requires i < |s|
    ensures Sum(s[..i] + s[i + 1..], f) == Sum(s, f) - f(s[i])
  {
    var n := |s| - 1;
    if i == n {
      assert s[..i] + s[i + 1..] == s[..n];
    } else {
      var rest := s[..i] + s[i + 1..];
      assert rest[..n - 1] == s[..n][..i] + s[..n][i + 1..];
      SumRemove(s[..n], i, f);
    }
  }

  lemma MultisetRemove<T>(s: seq<T>, i: nat)
    requires i < |s|
    ensures multiset(s[..i] + s[i + 1..]) == multiset(s) - multiset{s[i]}
  {
    assert s == s[..i] + [s[i]] + s[i + 1..];
  }

  ghost predicate Distinct<T>(s: seq<T>) {
    forall i, j :: 0 <= i < j < |s| ==> s[i] != s[j]
  }

  /** Different elements that are all found in `b` are no more than `b` has, and if as many, a permutation of it. */
  lemma {:induction false} DistinctWithin<T>(a: seq<T>, b: seq<T>)
    requires Distinct(a)
    requires forall i :: 0 <= i < |a| ==> a[i] in b
    ensures |a| <= |b|
    ensures |a| == |b| ==> multiset(a) == multiset(b)
  {
    if a == [] {
    } else {
      var n := |a| - 1;
      assert a[n] in b;
      var k :| 0 <= k < |b| && b[k] == a[n];
      var rest := b[..k] + b[k + 1..];
      forall i | 0 <= i < n ensures a[..n][i] in rest {
        var j :| 0 <= j < |b| && b[j] == a[i];
        assert j < k ==> rest[j] == a[i];
        assert j > k ==> rest[j - 1] == a[i];
      }
      DistinctWithin(a[..n], rest);
      MultisetRemove(b, k);
      assert a == a[..n] + [a[n]];
    }
  }

  /** A sum does not depend on the order of its terms. */
  lemma {:induction false} SumPermuted<T>(a: seq<T>, b: seq<T>, f: T -> int)
    requires multiset(a) == multiset(b)
    ensures Sum(a, f) == Sum(b, f)
  {
    if a == [] {
      assert |multiset(b)| == 0;
    } else {
      var n := |a| - 1;
      assert a[n] in multiset(a);
      assert a[n] in b;
      var i :| 0 <= i < |b| && b[i] == a[n];
      MultisetRemove(a, n);
      MultisetRemove(b, i);
      assert a[..n] + a[n + 1..] == a[..n];
      SumRemove(b, i, f);
      SumPermuted(a[..n], b[..i] + b[i + 1..], f);
    }
  }

  lemma {:induction false} SumWithin<T>(s: seq<T>, f: T -> int, low: T -> int, high: T -> int)
    requires forall t :: t in s ==> low(t) <= f(t) <= high(t)
    ensures Sum(s, low) <= Sum(s, f) <= Sum(s, high)
  {
    if s != [] {
      SumWithin(s[..|s| - 1], f, low, high);
    }
  }

  lemma {:induction false} SumDifference<T>(s: seq<T>, f: T -> int, g: T -> int, h: T -> int)
    requires forall t :: t in s ==> f(t) == g(t) - h(t)
    ensures Sum(s, f) == Sum(s, g) - Sum(s, h)
  {
    if s != [] {
      SumDifference(s[..|s| - 1], f, g, h);
    }
  }
}
