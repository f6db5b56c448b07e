/** JavaScript's stable `Array.prototype.sort` with a numeric comparator on a key. */
module Sorting {
  import opened Filtering

  ghost predicate Ordered<T>(s: seq<T>, key: T -> real) {
    forall i, j :: 0 <= i < j < |s| ==> key(s[i]) <= key(s[j])
  }

  function InsertBy<T>(s: seq<T>, x: T, key: T -> real): (r: seq<T>) {
    if s == [] || key(s[|s| - 1]) <= key(x) then s + [x]
    else InsertBy(s[..|s| - 1], x, key) + [s[|s| - 1]]
  }

  function SortBy<T>(s: seq<T>, key: T -> real): (r: seq<T>) {
    if s == [] then [] else InsertBy(SortBy(s[..|s| - 1], key), s[|s| - 1], key)
  }

  lemma {:induction false} InsertKeepsElements<T>(s: seq<T>, x: T, key: T -> real)
    ensures multiset(InsertBy(s, x, key)) == multiset(s) + multiset{x}
    decreases |s|
  {
    if !(s == [] || key(s[|s| - 1]) <= key(x)) {
      InsertKeepsElements(s[..|s| - 1], x, key);
      assert s == s[..|s| - 1] + [s[|s| - 1]];
    }
  }

  lemma {:induction false} InsertKeepsOrder<T>(s: seq<T>, x: T, key: T -> real)
    requires Ordered(s, key)
    ensures Ordered(InsertBy(s, x, key), key)
    decreases |s|
  {
    if !(s == [] || key(s[|s| - 1]) <= key(x)) {
      var front, last := s[..|s| - 1], s[|s| - 1];
      InsertKeepsOrder(front, x, key);
      InsertKeepsElements(front, x, key);
      var r := InsertBy(front, x, key);
      forall i | 0 <= i < |r|
        ensures key(r[i]) <= key(last)
      {
        assert r[i] in multiset(r);
        assert r[i] in front || r[i] == x;
      }
    }
  }

  /** Sorting returns the same elements, in key order. */
  lemma {:induction false} SortIsOrderedPermutation<T>(s: seq<T>, key: T -> real)
    ensures Ordered(SortBy(s, key), key)
    ensures multiset(SortBy(s, key)) == multiset(s)
    ensures |SortBy(s, key)| == |s|
    ensures forall x :: x in SortBy(s, key) <==> x in s
    decreases |s|
  {
    if s != [] {
      var front, last := s[..|s| - 1], s[|s| - 1];
      SortIsOrderedPermutation(front, key);
      InsertKeepsElements(SortBy(front, key), last, key);
      InsertKeepsOrder(SortBy(front, key), last, key);
      assert s == front + [last];
    }
    SameElements(SortBy(s, key), s);
    assert |multiset(SortBy(s, key))| == |multiset(s)|;
  }

  function KeyIs<T>(key: T -> real, k: real): (matches: T -> bool) {
    x => key(x) == k
  }

  /** The sort is stable: elements of one key keep their order. */
  lemma {:induction false} SortIsStable<T>(s: seq<T>, key: T -> real, k: real)
    ensures Filter(SortBy(s, key), KeyIs(key, k)) == Filter(s, KeyIs(key, k))
    decreases |s|
  {
    if s == [] {
    } else {
      SortIsStable(s[..|s| - 1], key, k);
      InsertIsStable(SortBy(s[..|s| - 1], key), s[|s| - 1], key, k);
    }
  }

  lemma {:induction false} InsertIsStable<T>(s: seq<T>, x: T, key: T -> real, k: real)
    ensures Filter(InsertBy(s, x, key), KeyIs(key, k)) ==
            Filter(s, KeyIs(key, k)) + if key(x) == k then [x] else []
    decreases |s|
  {
    if s == [] || key(s[|s| - 1]) <= key(x) {
      FilterLast(s, x, true, KeyIs(key, k));
    } else {
      var front, last := s[..|s| - 1], s[|s| - 1];
      InsertIsStable(front, x, key, k);
      FilterLast(InsertBy(front, x, key), last, true, KeyIs(key, k));
    }
  }

  lemma SameElements<T>(a: seq<T>, b: seq<T>)
    requires multiset(a) == multiset(b)
    ensures forall x :: x in a <==> x in b
  {
    assert forall x :: x in a <==> x in multiset(a);
    assert forall x :: x in b <==> x in multiset(b);
  }
}
