/** `Array.prototype.filter` and its laws. */
module Filtering {

  function Filter<T>(list: seq<T>, matches: T -> bool): (r: seq<T>) {
    if list == [] then []
    else Filter(list[..|list| - 1], matches) + if matches(list[|list| - 1]) then [list[|list| - 1]] else []
  }

  lemma {:induction false} FilterElements<T(!new)>(list: seq<T>, matches: T -> bool)
    ensures forall x :: x in Filter(list, matches) <==> x in list && matches(x)
    decreases |list|
  {
    if list == [] {
    } else {
      FilterElements(list[..|list| - 1], matches);
      assert list == list[..|list| - 1] + [list[|list| - 1]];
    }
  }

  lemma {:induction false} FilterAppend<T>(a: seq<T>, b: seq<T>, matches: T -> bool)
    ensures Filter(a + b, matches) == Filter(a, matches) + Filter(b, matches)
    decreases |b|
  {
    if b == [] {
      assert a + b == a;
    } else {
      FilterAppend(a, b[..|b| - 1], matches);
      assert (a + b)[..|a + b| - 1] == a + b[..|b| - 1];
    }
  }

  lemma {:induction false} FilterAll<T>(list: seq<T>, matches: T -> bool)
    requires forall x :: x in list ==> matches(x)
    ensures Filter(list, matches) == list
    decreases |list|
  {
    if list == [] {
    } else {
      FilterAll(list[..|list| - 1], matches);
      assert list == list[..|list| - 1] + [list[|list| - 1]];
    }
  }

  lemma {:induction false} FilterNone<T>(list: seq<T>, matches: T -> bool)
    requires forall x :: x in list ==> !matches(x)
    ensures Filter(list, matches) == []
    decreases |list|
  {
    if list == [] {
    } else {
      FilterNone(list[..|list| - 1], matches);
    }
  }

  /** Filtering by `first` and then `second` comes to the same as filtering otherwise. */
  lemma {:induction false} FilterTwice<T>(list: seq<T>, first: T -> bool, second: T -> bool, first': T -> bool,
                                          second': T -> bool)
    requires forall x :: x in list ==> (first(x) && second(x) <==> first'(x) && second'(x))
    ensures Filter(Filter(list, first), second) == Filter(Filter(list, first'), second')
    decreases |list|
  {
    if list == [] {
    } else {
      var front, last := list[..|list| - 1], list[|list| - 1];
      FilterTwice(front, first, second, first', second');
      FilterLast(Filter(front, first), last, first(last), second);
      FilterLast(Filter(front, first'), last, first'(last), second');
    }
  }

  lemma FilterLast<T>(list: seq<T>, x: T, kept: bool, matches: T -> bool)
    ensures Filter(list + if kept then [x] else [], matches)
         == Filter(list, matches) + if kept && matches(x) then [x] else []
  {
    if kept {
      assert (list + [x])[..|list|] == list;
    } else {
      assert list + [] == list;
    }
  }
}
