/** Finite sets: an element of one that has any, and how subsets compare in
    size. */
module Sets {
  lemma Element<T>(s: set<T>) returns (x: T)
    requires s != {}
    ensures x in s
  {
    assert |s| > 0;
    x :| x in s;
  }

  lemma {:induction false} SubsetSize<T>(s: set<T>, t: set<T>)
    requires s <= t
    ensures |s| <= |t|
  {
    if s != {} {
      var x := Element(s);
      SubsetSize(s - {x}, t - {x});
    }
  }

  lemma ProperSubsetSize<T>(s: set<T>, t: set<T>)
    requires s < t
    ensures |s| < |t|
  {
    var x := Element(t - s);
    SubsetSize(s, t - {x});
  }
}
