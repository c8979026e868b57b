/** Facts about finite sets that the solver wants spelled out. */
module Sets {

  lemma Pick(s: set<int>) returns (x: int)
    ensures s == {} || x in s
  {
    x := 0;
    if y: int :| y in s {
      x := y;
    } else {
      assert forall y: int :: y !in s;
      assert s == {};
    }
  }

  lemma SubsetSameSize<T>(a: set<T>, b: set<T>)
    requires a <= b && |a| == |b|
    ensures a == b
  {
    assert b == a + (b - a);
  }
}
