/** Sequences put together, and without repeats. */
module Sequences {

  lemma InTurn<T>(a: seq<T>, b: seq<T>, c: seq<T>)
    ensures a + b + c == a + (b + c)
    ensures a + (b + []) == a + b
  {
  }

  ghost predicate Distinct<T>(s: seq<T>) {
    forall i, j :: 0 <= i < j < |s| ==> s[i] != s[j]
  }

  lemma DistinctTogether<T>(s: seq<T>, t: seq<T>)
    requires Distinct(s) && Distinct(t) && forall x :: x in t ==> x !in s
    ensures Distinct(s + t)
  {
    assert forall i :: 0 <= i < |s| ==> s[i] in s;
    assert forall i :: 0 <= i < |t| ==> t[i] in t;
  }
}
