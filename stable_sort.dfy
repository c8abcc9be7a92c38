/**
  `Array.prototype.sort` with a numeric comparator `(a, b) => key(a) - key(b)`.
  The language has required this sort to be stable since ECMAScript 2019, so
  its result is fully determined: ascending by key, a permutation of the
  input, and elements with equal keys in their input order. The model is an
  insertion sort proved to have those three properties.
*/
module StableSort {
  import Seqs

  /** Ascending by `key`. */
  ghost predicate SortedBy<T>(s: seq<T>, key: T -> real)
  {
    forall i, j :: 0 <= i < j < |s| ==> key(s[i]) <= key(s[j])
  }

  /** The elements whose key is `v`. */
  function KeyIs<T>(key: T -> real, v: real): T -> bool
  {
    (y: T) => key(y) == v
  }

  /** In an ascending list no element is below the head. */
  lemma SortedHead<T>(t: seq<T>, key: T -> real, y: T)
    requires SortedBy(t, key) && y in t
    ensures key(t[0]) <= key(y)
  {
    var k :| 0 <= k < |t| && t[k] == y;
  }

  /** Places `x` after every element whose key is not greater than its own. */
  function Insert<T(==)>(x: T, t: seq<T>, key: T -> real): (r: seq<T>)
    ensures |r| == |t| + 1
    ensures forall y :: y in r ==> y == x || y in t
  {
    if t == [] then [x]
    else if key(x) < key(t[0]) then [x] + t
    else [t[0]] + Insert(x, t[1..], key)
  }

  /** The sort: insert the last element into the sorted rest. */
  function Sort<T(==)>(s: seq<T>, key: T -> real): (r: seq<T>)
    ensures |r| == |s|
  {
    if s == [] then []
    else Insert(s[|s| - 1], Sort(s[..|s| - 1], key), key)
  }

  /** Inserting adds exactly one occurrence of `x`. */
  lemma {:induction false} InsertPermutation<T>(x: T, t: seq<T>, key: T -> real)
    ensures multiset(Insert(x, t, key)) == multiset(t) + multiset{x}
  {
    if t != [] && key(x) >= key(t[0]) {
      InsertPermutation(x, t[1..], key);
      assert t == [t[0]] + t[1..];
    }
  }

  /** The result of the sort is a permutation of its input. */
  lemma {:induction false} SortPermutation<T>(s: seq<T>, key: T -> real)
    ensures multiset(Sort(s, key)) == multiset(s)
  {
    if s != [] {
      SortPermutation(s[..|s| - 1], key);
      InsertPermutation(s[|s| - 1], Sort(s[..|s| - 1], key), key);
      assert s == s[..|s| - 1] + [s[|s| - 1]];
    }
  }

  lemma {:induction false} InsertSorted<T>(x: T, t: seq<T>, key: T -> real)
    requires SortedBy(t, key)
    ensures SortedBy(Insert(x, t, key), key)
  {
    if t != [] && key(x) >= key(t[0]) {
      var rest := Insert(x, t[1..], key);
      InsertSorted(x, t[1..], key);
      forall y | y in rest
        ensures key(t[0]) <= key(y)
      {
        if y != x {
          SortedHead(t, key, y);
        }
      }
      ConsSorted(t[0], rest, key);
    }
  }

  /** Putting an element no greater than every other in front keeps a list ascending. */
  lemma ConsSorted<T>(h: T, rest: seq<T>, key: T -> real)
    requires SortedBy(rest, key)
    requires forall y :: y in rest ==> key(h) <= key(y)
    ensures SortedBy([h] + rest, key)
  {
    var r := [h] + rest;
    forall i, j | 0 <= i < j < |r|
      ensures key(r[i]) <= key(r[j])
    {
      assert r[j] == rest[j - 1];
      if i > 0 {
        assert r[i] == rest[i - 1];
      }
    }
  }

  /** The result of the sort is ascending. */
  lemma {:induction false} SortSorted<T>(s: seq<T>, key: T -> real)
    ensures SortedBy(Sort(s, key), key)
  {
    if s != [] {
      SortSorted(s[..|s| - 1], key);
      InsertSorted(s[|s| - 1], Sort(s[..|s| - 1], key), key);
    }
  }

  /** An element is in the result exactly when it is in the input. */
  lemma SortMembership<T>(s: seq<T>, key: T -> real, y: T)
    ensures y in Sort(s, key) <==> y in s
  {
    SortPermutation(s, key);
    assert y in multiset(Sort(s, key)) <==> y in multiset(s);
  }

  /** Of the elements whose key is `v`, inserting `x` into a sorted list appends `x` last. */
  lemma {:induction false} InsertKeepsTies<T>(x: T, t: seq<T>, key: T -> real, v: real)
    requires SortedBy(t, key)
    ensures Seqs.Filter(Insert(x, t, key), KeyIs(key, v))
            == Seqs.Filter(t, KeyIs(key, v)) + (if key(x) == v then [x] else [])
  {
    var p := KeyIs(key, v);
    if t == [] {
      assert Seqs.Filter([x], p) == (if p(x) then [x] else []) + Seqs.Filter([], p);
    } else if key(x) < key(t[0]) {
      Seqs.FilterConcat([x], t, p);
      assert Seqs.Filter([x], p) == (if p(x) then [x] else []) + Seqs.Filter([], p);
      if key(x) == v {
        Seqs.FilterEmpty(t, p);
      }
    } else {
      InsertKeepsTies(x, t[1..], key, v);
      Seqs.FilterConcat([t[0]], Insert(x, t[1..], key), p);
      Seqs.FilterConcat([t[0]], t[1..], p);
      assert Seqs.Filter([t[0]], p) == (if p(t[0]) then [t[0]] else []) + Seqs.Filter([], p);
      assert [t[0]] + t[1..] == t;
    }
  }

  /**
    Stability: for every key value, the elements with that key appear in the
    result in the same order as in the input.
  */
  lemma {:induction false} SortStable<T>(s: seq<T>, key: T -> real, v: real)
    ensures Seqs.Filter(Sort(s, key), KeyIs(key, v)) == Seqs.Filter(s, KeyIs(key, v))
  {
    if s != [] {
      var init, last := s[..|s| - 1], s[|s| - 1];
      SortStable(init, key, v);
      SortSorted(init, key);
      InsertKeepsTies(last, Sort(init, key), key, v);
      assert s == init + [last];
      Seqs.FilterSnoc(init, last, KeyIs(key, v));
    }
  }
}
