/** Duplicate-free lists from which single entries are removed, and the size of
finite sets. */
module Lists {

  ghost predicate NoRepeats<T>(list: seq<T>) {
    forall i, j :: 0 <= i < j < |list| ==> list[i] != list[j]
  }

  function Without<T(==)>(list: seq<T>, x: T): seq<T> {
    if list == [] then []
    else Without(list[..|list| - 1], x) + if list[|list| - 1] != x then [list[|list| - 1]] else []
  }

  lemma {:induction false} WithoutRemoves<T>(list: seq<T>, x: T)
    ensures forall y :: y in Without(list, x) <==> y in list && y != x
    ensures NoRepeats(list) ==> NoRepeats(Without(list, x))
    ensures |Without(list, x)| <= |list|
  {
    if list != [] {
      var n := |list| - 1;
      WithoutRemoves(list[..n], x);
      assert forall y :: y in list <==> y in list[..n] || y == list[n];
      if NoRepeats(list) {
        assert NoRepeats(list[..n]) && list[n] !in list[..n];
      }
    }
  }

  /** The loop every contract uses to drop an entry: copy all others. */
  method Remove<T(==)>(list: seq<T>, x: T) returns (kept: seq<T>)
    ensures kept == Without(list, x)
  {
    kept := [];
    for i := 0 to |list|
      invariant kept == Without(list[..i], x)
    {
      assert list[..i + 1][..i] == list[..i];
      if list[i] != x {
        kept := kept + [list[i]];
      }
    }
    assert list[..|list|] == list;
  }

  lemma SubsetSize<T>(a: set<T>, b: set<T>)
    requires a <= b
    ensures |a| <= |b|
  {
    assert b == a + (b - a);
  }
}
