/** Sorting by a total order: the result is ordered and holds the same
    elements. */
module Sorting {

  ghost predicate TotalPreorder<T(!new)>(atMost: (T, T) -> bool) {
    && (forall x, y :: atMost(x, y) || atMost(y, x))
    && (forall x, y, z :: atMost(x, y) && atMost(y, z) ==> atMost(x, z))
  }

  ghost predicate Ordered<T>(s: seq<T>, atMost: (T, T) -> bool) {
    forall i, j :: 0 <= i < j < |s| ==> atMost(s[i], s[j])
  }

  function Insert<T>(x: T, s: seq<T>, atMost: (T, T) -> bool): (r: seq<T>) {
    if s == [] || atMost(x, s[0]) then [x] + s else [s[0]] + Insert(x, s[1..], atMost)
  }

  function Sort<T>(s: seq<T>, atMost: (T, T) -> bool): (r: seq<T>) {
    if s == [] then [] else Insert(s[0], Sort(s[1..], atMost), atMost)
  }

  lemma {:induction false} InsertKeepsElements<T>(x: T, s: seq<T>, atMost: (T, T) -> bool)
    ensures multiset(Insert(x, s, atMost)) == multiset{x} + multiset(s)
  {
    if s != [] && !atMost(x, s[0]) {
      InsertKeepsElements(x, s[1..], atMost);
      assert s == [s[0]] + s[1..];
    }
  }

  lemma {:induction false} InsertOrdered<T(!new)>(x: T, s: seq<T>, atMost: (T, T) -> bool)
    requires TotalPreorder(atMost) && Ordered(s, atMost)
    ensures Ordered(Insert(x, s, atMost), atMost)
  {
    if s != [] && !atMost(x, s[0]) {
      var rest := Insert(x, s[1..], atMost);
      InsertOrdered(x, s[1..], atMost);
      InsertKeepsElements(x, s[1..], atMost);
      forall j | 0 <= j < |rest|
        ensures atMost(s[0], rest[j])
      {
        assert rest[j] in multiset(rest);
        assert rest[j] == x || rest[j] in s[1..];
      }
    }
  }

  /** `Sort` is a sort: ordered, and a permutation of its input. */
  lemma {:induction false} SortSorts<T(!new)>(s: seq<T>, atMost: (T, T) -> bool)
    requires TotalPreorder(atMost)
    ensures Ordered(Sort(s, atMost), atMost)
    ensures multiset(Sort(s, atMost)) == multiset(s)
    ensures |Sort(s, atMost)| == |s|
  {
    SortKeepsElements(s, atMost);
    if s != [] {
      SortSorts(s[1..], atMost);
      InsertOrdered(s[0], Sort(s[1..], atMost), atMost);
    }
  }

  lemma {:induction false} SortKeepsElements<T>(s: seq<T>, atMost: (T, T) -> bool)
    ensures multiset(Sort(s, atMost)) == multiset(s)
    ensures |Sort(s, atMost)| == |s|
    ensures forall x :: x in Sort(s, atMost) <==> x in s
  {
    if s != [] {
      SortKeepsElements(s[1..], atMost);
      InsertKeepsElements(s[0], Sort(s[1..], atMost), atMost);
      assert s == [s[0]] + s[1..];
    }
    assert |multiset(Sort(s, atMost))| == |Sort(s, atMost)|;
    forall x ensures x in Sort(s, atMost) <==> x in s {
      assert x in Sort(s, atMost) <==> x in multiset(Sort(s, atMost));
      assert x in s <==> x in multiset(s);
    }
  }
}
