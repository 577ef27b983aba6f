/**
 * The list operations the view-model is built from: `Array.prototype.filter` and
 * the stable `Array.prototype.sort` of ECMAScript 2019,
 * with the predicates (subsequence, sortedness) that describe their results.
 */
module Sequences {

  /** `s.filter(p)`: the elements of `s` that satisfy `p`, in their original order. */
  function Filter<T>(s: seq<T>, p: T -> bool): (r: seq<T>)
    ensures |r| <= |s|
    ensures forall x | x in r :: x in s && p(x)
    ensures forall x | x in s && p(x) :: x in r
    ensures forall i :: 0 <= i < |r| ==> p(r[i])
  {
    if s == [] then []
    else if p(s[0]) then [s[0]] + Filter(s[1..], p)
    else Filter(s[1..], p)
  }

  /** `sub` can be obtained from `s` by deleting elements. */
  ghost predicate IsSubsequence<T>(sub: seq<T>, s: seq<T>)
    decreases |s|
  {
    if sub == [] then true
    else if s == [] then false
    else (sub[0] == s[0] && IsSubsequence(sub[1..], s[1..])) || IsSubsequence(sub, s[1..])
  }

  lemma {:induction false} FilterIsSubsequence<T>(s: seq<T>, p: T -> bool)
    ensures IsSubsequence(Filter(s, p), s)
  {
    if s != [] {
      FilterIsSubsequence(s[1..], p);
      if p(s[0]) {
        assert Filter(s, p)[1..] == Filter(s[1..], p);
      }
    }
  }

  /** Filtering twice is filtering once by the conjunction: the stages of a pipeline compose. */
  lemma {:induction false} FilterFilter<T>(s: seq<T>, p: T -> bool, q: T -> bool, both: T -> bool)
    requires forall x :: both(x) == (p(x) && q(x))
    ensures Filter(Filter(s, p), q) == Filter(s, both)
  {
    if s != [] {
      FilterFilter(s[1..], p, q, both);
      if p(s[0]) {
        assert Filter(s, p) == [s[0]] + Filter(s[1..], p);
        assert Filter(s, p)[1..] == Filter(s[1..], p);
      }
    }
  }

  /** A filter that every element passes keeps the whole list, in order. */
  lemma {:induction false} FilterAll<T>(s: seq<T>, p: T -> bool)
    requires forall i :: 0 <= i < |s| ==> p(s[i])
    ensures Filter(s, p) == s
  {
    if s != [] {
      FilterAll(s[1..], p);
    }
  }

  /** Filtering commutes with appending. */
  lemma {:induction false} FilterAppend<T>(s: seq<T>, t: seq<T>, p: T -> bool)
    ensures Filter(s + t, p) == Filter(s, p) + Filter(t, p)
  {
    if s == [] {
      assert s + t == t;
    } else {
      assert (s + t)[0] == s[0];
      assert (s + t)[1..] == s[1..] + t;
      FilterAppend(s[1..], t, p);
    }
  }

  /** The number of occurrences of `x` after filtering: all of them when `x` passes, none otherwise. */
  lemma {:induction false} FilterCount<T>(s: seq<T>, p: T -> bool, x: T)
    ensures multiset(Filter(s, p))[x] == if p(x) then multiset(s)[x] else 0
  {
    if s != [] {
      FilterCount(s[1..], p, x);
      assert s == [s[0]] + s[1..];
    }
  }

  /** The elements of `s` are pairwise distinct. */
  predicate NoDuplicates<T(==)>(s: seq<T>) {
    forall i, j :: 0 <= i < j < |s| ==> s[i] != s[j]
  }

  lemma {:induction false} FilterNoDuplicates<T>(s: seq<T>, p: T -> bool)
    requires NoDuplicates(s)
    ensures NoDuplicates(Filter(s, p))
  {
    if s != [] {
      FilterNoDuplicates(s[1..], p);
      assert s[0] !in s[1..];
    }
  }

  /**
   * A comparator in the sense of `Array.prototype.sort`: `cmp(a, b) <= 0` reads
   * "`a` may stay before `b`". It is consistent when this relation is a total preorder.
   */
  ghost predicate TotalPreorder<T(!new)>(cmp: (T, T) -> int) {
    Total(cmp) && Transitive(cmp)
  }

  /** Of any two elements, one may stay before the other. */
  ghost predicate Total<T(!new)>(cmp: (T, T) -> int) {
    forall a, b :: cmp(a, b) <= 0 || cmp(b, a) <= 0
  }

  ghost predicate Transitive<T(!new)>(cmp: (T, T) -> int) {
    forall a, b, c :: cmp(a, b) <= 0 && cmp(b, c) <= 0 ==> cmp(a, c) <= 0
  }

  /** Neighbours are in comparator order. */
  ghost predicate Sorted<T>(s: seq<T>, cmp: (T, T) -> int) {
    forall i :: 0 < i < |s| ==> cmp(s[i - 1], s[i]) <= 0
  }

  /** Any two elements, not only neighbours, are in comparator order. */
  ghost predicate SortedPairwise<T>(s: seq<T>, cmp: (T, T) -> int) {
    forall i, j :: 0 <= i < j < |s| ==> cmp(s[i], s[j]) <= 0
  }

  /**
   * Places `x` in front of the first element it may precede; `x` thus stays before
   * every element the comparator ranks equal to it.
   */
  function Insert<T>(x: T, s: seq<T>, cmp: (T, T) -> int): (r: seq<T>)
    ensures multiset(r) == multiset(s) + multiset{x}
    ensures |r| == |s| + 1
  {
    if s == [] then [x]
    else if cmp(x, s[0]) <= 0 then [x] + s
    else
      assert s == [s[0]] + s[1..];
      [s[0]] + Insert(x, s[1..], cmp)
  }

  /**
   * `s.sort(cmp)`: a stable sort. Each element is inserted into the sorted rest
   * ahead of every element it ties with, so ties keep their input order.
   */
  function Sort<T>(s: seq<T>, cmp: (T, T) -> int): (r: seq<T>)
    ensures multiset(r) == multiset(s)
    ensures |r| == |s|
  {
    if s == [] then []
    else
      assert s == [s[0]] + s[1..];
      Insert(s[0], Sort(s[1..], cmp), cmp)
  }

  lemma {:induction false} InsertSorted<T(!new)>(x: T, s: seq<T>, cmp: (T, T) -> int)
    requires Total(cmp)
    requires Sorted(s, cmp)
    ensures Sorted(Insert(x, s, cmp), cmp)
    ensures Insert(x, s, cmp)[0] == x || (s != [] && Insert(x, s, cmp)[0] == s[0])
  {
    var r := Insert(x, s, cmp);
    if s == [] {
    } else if cmp(x, s[0]) <= 0 {
      assert r == [x] + s;
      forall i | 0 < i < |r| ensures cmp(r[i - 1], r[i]) <= 0 {
        if i > 1 { assert r[i - 1] == s[i - 2] && r[i] == s[i - 1]; }
      }
    } else {
      var tail := s[1..];
      assert Sorted(tail, cmp) by {
        forall i | 0 < i < |tail| ensures cmp(tail[i - 1], tail[i]) <= 0 {
          assert tail[i - 1] == s[i] && tail[i] == s[i + 1];
        }
      }
      InsertSorted(x, tail, cmp);
      var rest := Insert(x, tail, cmp);
      assert r == [s[0]] + rest;
      assert cmp(s[0], rest[0]) <= 0 by {
        if rest[0] == x {
          assert cmp(x, s[0]) <= 0 || cmp(s[0], x) <= 0;
        } else {
          assert rest[0] == s[1];
        }
      }
      forall i | 0 < i < |r| ensures cmp(r[i - 1], r[i]) <= 0 {
        if i > 1 { assert r[i - 1] == rest[i - 2] && r[i] == rest[i - 1]; }
      }
    }
  }

  /** The sort's result is ordered, provided the comparator is consistent. */
  lemma {:induction false} SortSorted<T(!new)>(s: seq<T>, cmp: (T, T) -> int)
    requires Total(cmp)
    ensures Sorted(Sort(s, cmp), cmp)
  {
    if s != [] {
      SortSorted(s[1..], cmp);
      InsertSorted(s[0], Sort(s[1..], cmp), cmp);
    }
  }

  /** With a transitive comparator, neighbour order gives order between any two elements. */
  lemma {:induction false} SortedIsPairwise<T(!new)>(s: seq<T>, cmp: (T, T) -> int)
    requires TotalPreorder(cmp)
    requires Sorted(s, cmp)
    ensures SortedPairwise(s, cmp)
  {
    if |s| > 1 {
      SortedIsPairwise(s[1..], cmp);
      forall j | 0 < j < |s|
        ensures cmp(s[0], s[j]) <= 0
      {
        if j > 1 {
          assert cmp(s[1], s[j]) <= 0 by { assert s[1..][0] == s[1] && s[1..][j - 1] == s[j]; }
        }
      }
      forall i, j | 0 <= i < j < |s|
        ensures cmp(s[i], s[j]) <= 0
      {
        if i > 0 {
          assert s[1..][i - 1] == s[i] && s[1..][j - 1] == s[j];
        }
      }
    }
  }

  /** A comparator that reports every pair as tied leaves the list as it was. */
  lemma {:induction false} SortTiesKeepOrder<T(!new)>(s: seq<T>, cmp: (T, T) -> int)
    requires forall a, b :: cmp(a, b) == 0
    ensures Sort(s, cmp) == s
  {
    if s != [] {
      SortTiesKeepOrder(s[1..], cmp);
      assert s == [s[0]] + s[1..];
    }
  }

  /** `cmp` ranks `a` and `b` equal. */
  ghost predicate Tied<T>(cmp: (T, T) -> int, a: T, b: T) {
    cmp(a, b) <= 0 && cmp(b, a) <= 0
  }

  /** Inserting `a` adds it to its own tie class, at the front of that class, and leaves every other class alone. */
  lemma {:induction false} InsertTieClass<T(!new)>(a: T, s: seq<T>, cmp: (T, T) -> int, x: T, tie: T -> bool)
    requires TotalPreorder(cmp)
    requires forall y :: tie(y) == Tied(cmp, x, y)
    ensures Filter(Insert(a, s, cmp), tie) == (if tie(a) then [a] else []) + Filter(s, tie)
  {
    if s != [] && cmp(a, s[0]) > 0 {
      InsertTieClass(a, s[1..], cmp, x, tie);
      assert Insert(a, s, cmp) == [s[0]] + Insert(a, s[1..], cmp);
    }
  }

  /**
   * Stability: the elements the comparator ranks equal to any `x` come out of the
   * sort in the order they went in.
   */
  lemma {:induction false} SortStable<T(!new)>(s: seq<T>, cmp: (T, T) -> int, x: T, tie: T -> bool)
    requires TotalPreorder(cmp)
    requires forall y :: tie(y) == Tied(cmp, x, y)
    ensures Filter(Sort(s, cmp), tie) == Filter(s, tie)
  {
    if s != [] {
      SortStable(s[1..], cmp, x, tie);
      InsertTieClass(s[0], Sort(s[1..], cmp), cmp, x, tie);
    }
  }
}
