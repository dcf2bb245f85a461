/** Python's `sorted(xs, key=...)` and `list.sort(key=...)`: a stable sort
    under a total preorder, written as insertion sort. */
module Sorting {

  ghost predicate Total<T(!new)>(le: (T, T) -> bool) {
    forall a, b :: le(a, b) || le(b, a)
  }

  ghost predicate Transitive<T(!new)>(le: (T, T) -> bool) {
    forall a, b, c :: le(a, b) && le(b, c) ==> le(a, c)
  }

  ghost predicate Preorder<T(!new)>(le: (T, T) -> bool) {
    Total(le) && Transitive(le)
  }

  predicate Sorted<T>(s: seq<T>, le: (T, T) -> bool) {
    forall i, j :: 0 <= i < j < |s| ==> le(s[i], s[j])
  }

  function Filter<T>(s: seq<T>, p: T -> bool): (r: seq<T>)
    ensures |r| <= |s|
    ensures forall i :: 0 <= i < |r| ==> r[i] in s && p(r[i])
    ensures forall i :: 0 <= i < |s| && p(s[i]) ==> s[i] in r
  {
    if |s| == 0 then []
    else Filter(s[..|s| - 1], p) + (if p(s[|s| - 1]) then [s[|s| - 1]] else [])
  }

  lemma FilterSnoc<T>(s: seq<T>, p: T -> bool)
    requires |s| > 0
    ensures Filter(s, p) == Filter(s[..|s| - 1], p) + (if p(s[|s| - 1]) then [s[|s| - 1]] else [])
  {
  }

  lemma {:induction false} FilterAppend<T>(a: seq<T>, b: seq<T>, p: T -> bool)
    ensures Filter(a + b, p) == Filter(a, p) + Filter(b, p)
    decreases |b|
  {
    if |b| > 0 {
      assert (a + b)[..|a + b| - 1] == a + b[..|b| - 1];
      FilterAppend(a, b[..|b| - 1], p);
    } else {
      assert a + b == a;
    }
  }

  /** The concatenation of `f(x)` over `s`, in order. */
  function FlatMap<T, U>(s: seq<T>, f: T -> seq<U>): seq<U> {
    if |s| == 0 then [] else FlatMap(s[..|s| - 1], f) + f(s[|s| - 1])
  }

  lemma {:induction false} FlatMapAppend<T, U>(a: seq<T>, b: seq<T>, f: T -> seq<U>)
    ensures FlatMap(a + b, f) == FlatMap(a, f) + FlatMap(b, f)
    decreases |b|
  {
    if |b| == 0 {
      assert a + b == a;
    } else {
      assert (a + b)[..|a + b| - 1] == a + b[..|b| - 1];
      FlatMapAppend(a, b[..|b| - 1], f);
    }
  }

  /** Puts `x` after the last element it is not smaller than. */
  function Insert<T>(s: seq<T>, x: T, le: (T, T) -> bool): (r: seq<T>)
    ensures |r| == |s| + 1
  {
    if |s| == 0 then [x]
    else if le(s[|s| - 1], x) then s + [x]
    else
      assert s == s[..|s| - 1] + [s[|s| - 1]];
      Insert(s[..|s| - 1], x, le) + [s[|s| - 1]]
  }

  function SortBy<T>(xs: seq<T>, le: (T, T) -> bool): (r: seq<T>)
    ensures |r| == |xs|
  {
    if |xs| == 0 then []
    else Insert(SortBy(xs[..|xs| - 1], le), xs[|xs| - 1], le)
  }

  /** Inserting adds exactly `x`. */
  lemma {:induction false} InsertPermutes<T>(s: seq<T>, x: T, le: (T, T) -> bool)
    ensures multiset(Insert(s, x, le)) == multiset(s) + multiset{x}
  {
    if |s| > 0 && !le(s[|s| - 1], x) {
      InsertPermutes(s[..|s| - 1], x, le);
      assert s == s[..|s| - 1] + [s[|s| - 1]];
    }
  }

  /** The result is a permutation of the input. */
  lemma {:induction false} SortByPermutes<T>(xs: seq<T>, le: (T, T) -> bool)
    ensures multiset(SortBy(xs, le)) == multiset(xs)
  {
    if |xs| > 0 {
      SortByPermutes(xs[..|xs| - 1], le);
      InsertPermutes(SortBy(xs[..|xs| - 1], le), xs[|xs| - 1], le);
      assert xs == xs[..|xs| - 1] + [xs[|xs| - 1]];
    }
  }

  lemma {:induction false} InsertSorted<T(!new)>(s: seq<T>, x: T, le: (T, T) -> bool)
    requires Preorder(le) && Sorted(s, le)
    ensures Sorted(Insert(s, x, le), le)
  {
    if |s| > 0 && !le(s[|s| - 1], x) {
      var last := s[|s| - 1];
      var init := s[..|s| - 1];
      InsertSorted(init, x, le);
      InsertPermutes(init, x, le);
      var r := Insert(init, x, le);
      forall i | 0 <= i < |r| ensures le(r[i], last) {
        assert r[i] in multiset(init) + multiset{x};
        if r[i] in multiset(init) {
          var k :| 0 <= k < |init| && init[k] == r[i];
          assert s[k] == r[i];
        }
      }
    }
  }

  /** The result is ordered. */
  lemma {:induction false} SortBySorted<T(!new)>(xs: seq<T>, le: (T, T) -> bool)
    requires Preorder(le)
    ensures Sorted(SortBy(xs, le), le)
  {
    if |xs| > 0 {
      SortBySorted(xs[..|xs| - 1], le);
      InsertSorted(SortBy(xs[..|xs| - 1], le), xs[|xs| - 1], le);
    }
  }

  /** An ordered input comes back unchanged: sorting is idempotent. */
  lemma {:induction false} SortBySortedIsIdentity<T>(xs: seq<T>, le: (T, T) -> bool)
    requires Sorted(xs, le)
    ensures SortBy(xs, le) == xs
  {
    if |xs| > 0 {
      var init := xs[..|xs| - 1];
      assert Sorted(init, le);
      SortBySortedIsIdentity(init, le);
      assert xs == init + [xs[|xs| - 1]];
    }
  }

  lemma SortByIdempotent<T(!new)>(xs: seq<T>, le: (T, T) -> bool)
    requires Preorder(le)
    ensures SortBy(SortBy(xs, le), le) == SortBy(xs, le)
  {
    SortBySorted(xs, le);
    SortBySortedIsIdentity(SortBy(xs, le), le);
  }

  ghost predicate Equivalent<T>(le: (T, T) -> bool, a: T, b: T) { le(a, b) && le(b, a) }

  lemma {:induction false} InsertFilterOther<T>(s: seq<T>, x: T, le: (T, T) -> bool, p: T -> bool)
    requires !p(x)
    ensures Filter(Insert(s, x, le), p) == Filter(s, p)
  {
    if |s| == 0 {
      assert Filter([x], p) == Filter([], p) + [];
    } else if le(s[|s| - 1], x) {
      FilterAppend(s, [x], p);
      assert Filter([x], p) == Filter([], p) + [];
    } else {
      var init := s[..|s| - 1];
      InsertFilterOther(init, x, le, p);
      FilterAppend(Insert(init, x, le), [s[|s| - 1]], p);
      FilterAppend(init, [s[|s| - 1]], p);
      assert s == init + [s[|s| - 1]];
    }
  }

  /** Inserting `x` appends it to the elements of its class, when every
      member of the class may precede `x`. */
  lemma {:induction false} InsertFilterSame<T>(s: seq<T>, x: T, le: (T, T) -> bool, p: T -> bool)
    requires p(x)
    requires forall e :: p(e) ==> le(e, x)
    ensures Filter(Insert(s, x, le), p) == Filter(s, p) + [x]
  {
    if |s| == 0 {
      assert Filter([x], p) == Filter([], p) + [x];
    } else if le(s[|s| - 1], x) {
      assert (s + [x])[..|s|] == s;
    } else {
      var init := s[..|s| - 1];
      var last := s[|s| - 1];
      var r := Insert(init, x, le);
      InsertFilterSame(init, x, le, p);
      assert Insert(s, x, le) == r + [last];
      assert (r + [last])[..|r|] == r;
    }
  }

  /** Sorting keeps the relative order of any set of elements that may all
      precede one another. */
  lemma {:induction false} SortByFilterClass<T>(xs: seq<T>, le: (T, T) -> bool, p: T -> bool)
    requires forall a, b :: p(a) && p(b) ==> le(a, b)
    ensures Filter(SortBy(xs, le), p) == Filter(xs, p)
  {
    if |xs| > 0 {
      var init := xs[..|xs| - 1];
      var x := xs[|xs| - 1];
      SortByFilterClass(init, le, p);
      assert SortBy(xs, le) == Insert(SortBy(init, le), x, le);
      assert Filter(xs, p) == Filter(init, p) + (if p(x) then [x] else []);
      if p(x) {
        InsertFilterSame(SortBy(init, le), x, le, p);
      } else {
        InsertFilterOther(SortBy(init, le), x, le, p);
      }
    }
  }

  /** Stability: the elements of any one equivalence class keep their input order. */
  lemma SortByStable<T(!new)>(xs: seq<T>, k: T, le: (T, T) -> bool)
    requires Preorder(le)
    ensures Filter(SortBy(xs, le), e => Equivalent(le, e, k)) == Filter(xs, e => Equivalent(le, e, k))
  {
    var p := e => Equivalent(le, e, k);
    forall a, b | p(a) && p(b) ensures le(a, b) {
      assert le(a, k) && le(k, b);
    }
    SortByFilterClass(xs, le, p);
  }

  lemma {:induction false} FilterSamePredicate<T>(s: seq<T>, p: T -> bool, q: T -> bool)
    requires forall i :: 0 <= i < |s| ==> p(s[i]) == q(s[i])
    ensures Filter(s, p) == Filter(s, q)
  {
    if |s| > 0 {
      FilterSamePredicate(s[..|s| - 1], p, q);
    }
  }

  lemma {:induction false} FilterAll<T>(s: seq<T>, p: T -> bool)
    requires forall i :: 0 <= i < |s| ==> p(s[i])
    ensures Filter(s, p) == s
  {
    if |s| > 0 {
      FilterAll(s[..|s| - 1], p);
    }
  }

  // ---------------------------------------------------------------------
  // `pd.unique` and distinctness.

  predicate Distinct<T(==)>(s: seq<T>) {
    forall i, j :: 0 <= i < j < |s| ==> s[i] != s[j]
  }

  /** The elements of `s` in order of first appearance. */
  function Unique<T(==,!new)>(s: seq<T>): (r: seq<T>)
    ensures Distinct(r)
    ensures forall x :: x in r <==> x in s
  {
    if |s| == 0 then []
    else
      var init := Unique(s[..|s| - 1]);
      var x := s[|s| - 1];
      if x in s[..|s| - 1] then init else init + [x]
  }

  lemma {:induction false} DistinctCount<T>(s: seq<T>, x: T)
    requires Distinct(s)
    ensures multiset(s)[x] <= 1
  {
    if |s| > 0 {
      var n := |s| - 1;
      assert s == s[..n] + [s[n]];
      DistinctCount(s[..n], x);
      if x == s[n] {
        assert x !in s[..n];
      }
    }
  }

  /** An element that occurs at two positions occurs twice. */
  lemma CountTwo<T>(s: seq<T>, i: nat, j: nat)
    requires i < j < |s|
    ensures s[i] == s[j] ==> multiset(s)[s[i]] >= 2
  {
    assert s == s[..j] + s[j..];
    assert s[i] in s[..j] && s[j] in s[j..];
  }

  /** A permutation of a duplicate-free sequence is duplicate-free. */
  lemma PermutationKeepsDistinct<T>(xs: seq<T>, ys: seq<T>)
    requires Distinct(xs) && multiset(xs) == multiset(ys)
    ensures Distinct(ys)
  {
    forall i, j | 0 <= i < j < |ys| ensures ys[i] != ys[j] {
      DistinctCount(xs, ys[i]);
      CountTwo(ys, i, j);
    }
  }

  /** Filtering a duplicate-free sequence keeps it duplicate-free. */
  lemma {:induction false} FilterKeepsDistinct<T>(s: seq<T>, p: T -> bool)
    requires Distinct(s)
    ensures Distinct(Filter(s, p))
  {
    if |s| > 0 {
      var n := |s| - 1;
      FilterKeepsDistinct(s[..n], p);
      if p(s[n]) {
        var init := Filter(s[..n], p);
        assert s[n] !in init by {
          forall i | 0 <= i < |init| ensures init[i] != s[n] {
            var k :| 0 <= k < n && s[..n][k] == init[i];
          }
        }
      }
    }
  }
}
