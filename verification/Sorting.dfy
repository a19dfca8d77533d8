/** Stable insertion sort by any order, which stands for Python's sort and the database's ORDER BY, and
    multisets of lists without repetition. */
module Sorting {

  function InsertBy<T>(s: seq<T>, x: T, notAfter: (T, T) -> bool): seq<T> {
    if s == [] || notAfter(s[|s| - 1], x) then s + [x]
    else InsertBy(s[..|s| - 1], x, notAfter) + [s[|s| - 1]]
  }

  function SortBy<T>(s: seq<T>, notAfter: (T, T) -> bool): seq<T> {
    if s == [] then [] else InsertBy(SortBy(s[..|s| - 1], notAfter), s[|s| - 1], notAfter)
  }

  ghost predicate Ordered<T>(s: seq<T>, notAfter: (T, T) -> bool) {
    forall i, j :: 0 <= i < j < |s| ==> notAfter(s[i], s[j])
  }

  /** Any two elements compare, and the comparison is transitive. */
  ghost predicate TotalPreorder<T(!new)>(notAfter: (T, T) -> bool) {
    && (forall x, y :: notAfter(x, y) || notAfter(y, x))
    && forall x, y, z :: notAfter(x, y) && notAfter(y, z) ==> notAfter(x, z)
  }

  lemma {:induction false} InsertElements<T>(s: seq<T>, x: T, notAfter: (T, T) -> bool)
    ensures multiset(InsertBy(s, x, notAfter)) == multiset(s) + multiset{x}
  {
    if s != [] && !notAfter(s[|s| - 1], x) {
      InsertElements(s[..|s| - 1], x, notAfter);
      assert s == s[..|s| - 1] + [s[|s| - 1]];
    }
  }

  lemma {:induction false} InsertOrders<T(!new)>(s: seq<T>, x: T, notAfter: (T, T) -> bool)
    requires TotalPreorder(notAfter) && Ordered(s, notAfter)
    ensures Ordered(InsertBy(s, x, notAfter), notAfter)
    ensures forall y :: y in InsertBy(s, x, notAfter) ==> y in s || y == x
  {
    if s != [] && !notAfter(s[|s| - 1], x) {
      var init, last := s[..|s| - 1], s[|s| - 1];
      InsertOrders(init, x, notAfter);
      assert s == init + [last];
      forall i | 0 <= i < |InsertBy(init, x, notAfter)|
        ensures notAfter(InsertBy(init, x, notAfter)[i], last)
      {
        assert InsertBy(init, x, notAfter)[i] in init || InsertBy(init, x, notAfter)[i] == x;
      }
    } else if s != [] {
      forall i | 0 <= i < |s|
        ensures notAfter(s[i], x)
      {
        assert i < |s| - 1 ==> notAfter(s[i], s[|s| - 1]);
      }
    }
  }

  lemma {:induction false} SortElements<T>(s: seq<T>, notAfter: (T, T) -> bool)
    ensures multiset(SortBy(s, notAfter)) == multiset(s)
  {
    if s != [] {
      SortElements(s[..|s| - 1], notAfter);
      InsertElements(SortBy(s[..|s| - 1], notAfter), s[|s| - 1], notAfter);
      assert s == s[..|s| - 1] + [s[|s| - 1]];
    }
  }

  lemma {:induction false} SortOrders<T(!new)>(s: seq<T>, notAfter: (T, T) -> bool)
    requires TotalPreorder(notAfter)
    ensures Ordered(SortBy(s, notAfter), notAfter)
  {
    if s != [] {
      SortOrders(s[..|s| - 1], notAfter);
      InsertOrders(SortBy(s[..|s| - 1], notAfter), s[|s| - 1], notAfter);
    }
  }

  /** The result is ordered and holds the same elements. */
  lemma SortSpec<T(!new)>(s: seq<T>, notAfter: (T, T) -> bool)
    requires TotalPreorder(notAfter)
    ensures Ordered(SortBy(s, notAfter), notAfter) && multiset(SortBy(s, notAfter)) == multiset(s)
  {
    SortElements(s, notAfter);
    SortOrders(s, notAfter);
  }

  /** An ordered list is left as it is. */
  lemma {:induction false} SortedAlready<T>(s: seq<T>, notAfter: (T, T) -> bool)
    requires Ordered(s, notAfter)
    ensures SortBy(s, notAfter) == s
  {
    if s != [] {
      SortedAlready(s[..|s| - 1], notAfter);
    }
  }

  lemma {:induction false} DistinctMultiset<T>(s: seq<T>)
    requires forall i, j :: 0 <= i < j < |s| ==> s[i] != s[j]
    ensures forall x :: multiset(s)[x] == if x in s then 1 else 0
  {
    if s != [] {
      DistinctMultiset(s[..|s| - 1]);
      assert s == s[..|s| - 1] + [s[|s| - 1]];
    }
  }
}
