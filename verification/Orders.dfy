/** What several parts share: the smaller of two numbers, sequences without repetition, and least elements. */
module Orders {

  function Min(a: int, b: int): int {
    if a < b then a else b
  }

  predicate Distinct<T(==)>(list: seq<T>) {
    forall i, j :: 0 <= i < j < |list| ==> list[i] != list[j]
  }

  /** A strict order in which any two elements compare. */
  ghost predicate Linear<T(!new)>(less: (T, T) -> bool) {
    && (forall a, b :: less(a, b) || a == b || less(b, a))
    && (forall a, b :: !(less(a, b) && less(b, a)))
    && (forall a, b, c :: less(a, b) && less(b, c) ==> less(a, c))
  }

  predicate IsLeast<T(==)>(less: (T, T) -> bool, least: T, members: set<T>) {
    least in members && forall other :: other in members ==> other == least || less(least, other)
  }

  lemma LeastExists<T(!new)>(less: (T, T) -> bool, members: set<T>) returns (least: T)
    requires Linear(less) && members != {}
    ensures IsLeast(less, least, members)
    decreases members
  {
    var one :| one in members;
    if members == {one} {
      least := one;
    } else {
      var other := LeastExists(less, members - {one});
      least := if less(other, one) then other else one;
      forall x | x in members
        ensures x == least || less(least, x)
      {
        assert x == one || x in members - {one};
      }
    }
  }

  lemma LeastIsUnique<T(!new)>(less: (T, T) -> bool, members: set<T>, a: T, b: T)
    requires Linear(less) && IsLeast(less, a, members) && IsLeast(less, b, members)
    ensures a == b
  {
  }

  lemma SameSize<T>(part: set<T>, whole: set<T>)
    requires part <= whole
    ensures |part| == |whole| <==> part == whole
  {
    assert whole == part + (whole - part);
  }
}
