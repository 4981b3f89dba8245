/** Sizes of sets, and listing a set in some order. */
module Sets {

  lemma SubsetSize<T>(a: set<T>, b: set<T>)
    requires a <= b
    ensures |a| <= |b| && (a != b ==> |a| < |b|)
  {
    assert b == a + (b - a);
  }

  /** The elements of a set as a list, in any order. */
  method Listed<T(==)>(s: set<T>) returns (list: seq<T>)
    ensures forall x :: x in list <==> x in s
  {
    list := [];
    var rest := s;
    while rest != {}
      invariant rest <= s && forall x :: x in list <==> x in s && x !in rest
      decreases rest
    {
      var x :| x in rest;
      list, rest := list + [x], rest - {x};
    }
  }
}
