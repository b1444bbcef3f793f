/** `xs.sort((a, b) => key(b) - key(a))` followed by `.slice(0, n)`: the stable descending
    sort and the top-N selection the analytics use. Array.prototype.sort is stable, so the
    model is a stable insertion sort: an element goes after every element whose key is at
    least its own. SortDescStable and TopDescStable state the stability. */
module Sorting {
  import opened Common

  ghost predicate SortedDesc<T>(s: seq<T>, key: T -> real)
  {
    forall i, j | 0 <= i < j < |s| :: key(s[i]) >= key(s[j])
  }

  function InsertDesc<T>(x: T, s: seq<T>, key: T -> real): (r: seq<T>)
    ensures |r| == |s| + 1
    ensures forall k | 0 <= k < |r| :: r[k] == x || r[k] in s
  {
    if s == [] then [x]
    else if key(s[0]) < key(x) then [x] + s
    else [s[0]] + InsertDesc(x, s[1..], key)
  }

  function SortDesc<T>(xs: seq<T>, key: T -> real): (r: seq<T>)
    ensures |r| == |xs|
  {
    if xs == [] then [] else InsertDesc(xs[|xs| - 1], SortDesc(xs[..|xs| - 1], key), key)
  }

  lemma {:induction false} InsertDescPerm<T>(x: T, s: seq<T>, key: T -> real)
    ensures multiset(InsertDesc(x, s, key)) == multiset(s) + multiset{x}
  {
    if s != [] && key(s[0]) >= key(x) {
      InsertDescPerm(x, s[1..], key);
      assert s == [s[0]] + s[1..];
    }
  }

  lemma {:induction false} InsertDescSorted<T>(x: T, s: seq<T>, key: T -> real)
    requires SortedDesc(s, key)
    ensures SortedDesc(InsertDesc(x, s, key), key)
  {
    if s == [] {
    } else if key(s[0]) < key(x) {
      SortedCons(x, s, key);
    } else {
      var rest := s[1..];
      InsertDescSorted(x, rest, key);
      var r := InsertDesc(x, rest, key);
      forall k | 0 <= k < |r| ensures key(s[0]) >= key(r[k]) {
        if r[k] != x {
          var j :| 0 <= j < |rest| && rest[j] == r[k];
          assert rest[j] == s[j + 1];
        }
      }
      SortedCons(s[0], r, key);
    }
  }

  /** An element whose key is at least every key of a sorted list can go in front of it. */
  lemma SortedCons<T>(x: T, s: seq<T>, key: T -> real)
    requires SortedDesc(s, key)
    requires forall k | 0 <= k < |s| :: key(x) >= key(s[k])
    ensures SortedDesc([x] + s, key)
  {
    var r := [x] + s;
    forall i, j | 0 <= i < j < |r| ensures key(r[i]) >= key(r[j]) {
      assert r[j] == s[j - 1];
      if i > 0 {
        assert r[i] == s[i - 1];
      }
    }
  }

  /** The sort orders by non-increasing key and is a permutation of its input. */
  lemma {:induction false} SortDescCorrect<T>(xs: seq<T>, key: T -> real)
    ensures SortedDesc(SortDesc(xs, key), key)
    ensures multiset(SortDesc(xs, key)) == multiset(xs)
  {
    if xs != [] {
      var init := xs[..|xs| - 1];
      SortDescCorrect(init, key);
      InsertDescSorted(xs[|xs| - 1], SortDesc(init, key), key);
      InsertDescPerm(xs[|xs| - 1], SortDesc(init, key), key);
      assert xs == init + [xs[|xs| - 1]];
    }
  }

  /** Inserting into a sorted list puts the new element after every element of equal key:
      among the elements of one key `k` (those `p` picks out), it comes last. */
  lemma {:induction false} InsertDescTies<T>(x: T, s: seq<T>, key: T -> real, k: real, p: T -> bool)
    requires SortedDesc(s, key)
    requires forall y :: p(y) <==> key(y) == k
    ensures Filter(InsertDesc(x, s, key), p) == Filter(s, p) + if p(x) then [x] else []
  {
    if s == [] {
      FilterSnoc([], x, p);
      assert [] + [x] == [x];
    } else if key(s[0]) < key(x) {
      TiesInFront(x, s, key, k, p);
    } else {
      var rest := s[1..];
      SortedTail(s, key);
      InsertDescTies(x, rest, key, k, p);
      FilterConcat([s[0]], InsertDesc(x, rest, key), p);
      FilterConcat([s[0]], rest, p);
      assert s == [s[0]] + rest;
    }
  }

  /** An element with a larger key than the head of a sorted list shares its key with none
      of the list's elements. */
  lemma TiesInFront<T>(x: T, s: seq<T>, key: T -> real, k: real, p: T -> bool)
    requires SortedDesc(s, key) && s != [] && key(s[0]) < key(x)
    requires forall y :: p(y) <==> key(y) == k
    ensures Filter([x] + s, p) == Filter(s, p) + if p(x) then [x] else []
  {
    FilterConcat([x], s, p);
    FilterSnoc([], x, p);
    assert [] + [x] == [x];
    if p(x) {
      forall i | 0 <= i < |s| ensures !p(s[i]) {
        assert i == 0 || key(s[0]) >= key(s[i]);
      }
      FilterNone(s, p);
    }
  }

  /** The tail of a sorted list is sorted. */
  lemma SortedTail<T>(s: seq<T>, key: T -> real)
    requires SortedDesc(s, key) && s != []
    ensures SortedDesc(s[1..], key)
  {
    var rest := s[1..];
    forall i, j | 0 <= i < j < |rest| ensures key(rest[i]) >= key(rest[j]) {
      assert rest[i] == s[i + 1] && rest[j] == s[j + 1];
    }
  }

  /** The sort is stable: the elements of any one key appear in the sorted list in the
      order they had in the input. */
  lemma {:induction false} SortDescStable<T>(xs: seq<T>, key: T -> real, k: real, p: T -> bool)
    requires forall y :: p(y) <==> key(y) == k
    ensures Filter(SortDesc(xs, key), p) == Filter(xs, p)
  {
    if xs != [] {
      var init := xs[..|xs| - 1];
      var x := xs[|xs| - 1];
      SortDescStable(init, key, k, p);
      SortDescCorrect(init, key);
      InsertDescTies(x, SortDesc(init, key), key, k, p);
      assert xs == init + [x];
      FilterSnoc(init, x, p);
    }
  }

  /** No two elements share an `f` value. */
  ghost predicate DistinctBy<T, K>(s: seq<T>, f: T -> K)
  {
    forall i, j | 0 <= i < j < |s| :: f(s[i]) != f(s[j])
  }

  lemma {:induction false} InsertDescDistinct<T, K>(x: T, s: seq<T>, key: T -> real, f: T -> K)
    requires DistinctBy(s, f)
    requires forall y | y in s :: f(y) != f(x)
    ensures DistinctBy(InsertDesc(x, s, key), f)
  {
    if s != [] && key(s[0]) >= key(x) {
      var rest := s[1..];
      assert forall y | y in rest :: y in s;
      InsertDescDistinct(x, rest, key, f);
      var r := InsertDesc(x, rest, key);
      forall k | 0 <= k < |r| ensures f(s[0]) != f(r[k]) {
        if r[k] != x {
          var j :| 0 <= j < |rest| && rest[j] == r[k];
          assert rest[j] == s[j + 1];
        }
      }
      assert InsertDesc(x, s, key) == [s[0]] + r;
    }
  }

  /** Sorting keeps elements with distinct `f` values distinct. */
  lemma {:induction false} SortDescDistinct<T, K>(xs: seq<T>, key: T -> real, f: T -> K)
    requires DistinctBy(xs, f)
    ensures DistinctBy(SortDesc(xs, key), f)
  {
    if xs != [] {
      var init := xs[..|xs| - 1];
      var x := xs[|xs| - 1];
      SortDescDistinct(init, key, f);
      SortDescCorrect(init, key);
      forall y | y in SortDesc(init, key) ensures f(y) != f(x) {
        assert y in multiset(init);
        var i :| 0 <= i < |init| && init[i] == y;
      }
      InsertDescDistinct(x, SortDesc(init, key), key, f);
    }
  }

  /** `xs.sort(desc).slice(0, n)` */
  function TopDesc<T>(xs: seq<T>, key: T -> real, n: nat): seq<T>
  {
    var s := SortDesc(xs, key);
    s[..Min(n, |s|)]
  }

  /** The top-N list is at most N long (exactly N when there are enough elements), sorted,
      drawn from the input, and no element left out has a larger key than one kept. */
  lemma TopDescCorrect<T>(xs: seq<T>, key: T -> real, n: nat)
    ensures |TopDesc(xs, key, n)| == Min(n, |xs|)
    ensures SortedDesc(TopDesc(xs, key, n), key)
    ensures multiset(TopDesc(xs, key, n)) <= multiset(xs)
    ensures forall i, j | 0 <= i < |TopDesc(xs, key, n)| <= j < |xs| ::
              key(TopDesc(xs, key, n)[i]) >= key(SortDesc(xs, key)[j])
    ensures forall y | y in TopDesc(xs, key, n) :: y in xs
  {
    var s := SortDesc(xs, key);
    SortDescCorrect(xs, key);
    SortedPrefix(s, Min(n, |s|), key);
    forall y | y in TopDesc(xs, key, n) ensures y in xs {
      assert y in multiset(TopDesc(xs, key, n));
    }
  }

  /** The first `k` elements of a sorted list are sorted, are drawn from it, and none has a
      smaller key than an element after them. */
  lemma SortedPrefix<T>(s: seq<T>, k: nat, key: T -> real)
    requires SortedDesc(s, key)
    requires k <= |s|
    ensures SortedDesc(s[..k], key)
    ensures multiset(s[..k]) <= multiset(s)
    ensures forall i, j | 0 <= i < k <= j < |s| :: key(s[..k][i]) >= key(s[j])
  {
    assert s == s[..k] + s[k..];
    assert multiset(s) == multiset(s[..k]) + multiset(s[k..]);
  }

  /** No element left out of the top-N list has a larger key than any element kept. */
  lemma TopDescLeftOut<T>(xs: seq<T>, key: T -> real, n: nat)
    ensures forall y, t | y in xs && y !in TopDesc(xs, key, n) && t in TopDesc(xs, key, n) :: key(t) >= key(y)
  {
    var s := SortDesc(xs, key);
    var top := TopDesc(xs, key, n);
    TopDescCorrect(xs, key, n);
    SortDescCorrect(xs, key);
    forall y, t | y in xs && y !in top && t in top
      ensures key(t) >= key(y)
    {
      assert y in multiset(s);
      var j :| 0 <= j < |s| && s[j] == y;
      var i :| 0 <= i < |top| && top[i] == t;
    }
  }

  /** Ties at the cut go to the earlier elements: the elements of one key that make the
      top-N list are the first ones of that key in the input. */
  lemma TopDescStable<T>(xs: seq<T>, key: T -> real, n: nat, k: real, p: T -> bool)
    requires forall y :: p(y) <==> key(y) == k
    ensures |Filter(TopDesc(xs, key, n), p)| <= |Filter(xs, p)|
    ensures Filter(TopDesc(xs, key, n), p) == Filter(xs, p)[..|Filter(TopDesc(xs, key, n), p)|]
  {
    var s := SortDesc(xs, key);
    var m := Min(n, |s|);
    SortDescStable(xs, key, k, p);
    assert s == s[..m] + s[m..];
    FilterConcat(s[..m], s[m..], p);
  }

  /** The top-N list keeps elements with distinct `f` values distinct. */
  lemma TopDescDistinct<T, K>(xs: seq<T>, key: T -> real, n: nat, f: T -> K)
    requires DistinctBy(xs, f)
    ensures DistinctBy(TopDesc(xs, key, n), f)
  {
    SortDescDistinct(xs, key, f);
  }
}
