/** Lists of ids: ascending enumerations, and what inserting and removing do to them. */
module IdLists {
  import opened Orders

  predicate Ascending(ids: seq<int>) {
    forall i, j :: 0 <= i < j < |ids| ==> ids[i] < ids[j]
  }

  function Elements(ids: seq<int>): set<int> {
    set id | id in ids
  }

  predicate Enumerates(ids: seq<int>, members: set<int>) {
    Ascending(ids) && Elements(ids) == members
  }

  predicate Below(a: int, b: int) {
    a < b
  }

  lemma SomeMember<T>(members: set<T>) returns (one: T)
    requires members != {}
    ensures one in members
  {
    one :| one in members;
  }

  /** The members in ascending order. */
  function Sorted(members: set<int>): (ids: seq<int>)
    ensures Ascending(ids) && |ids| == |members|
    ensures forall id :: id in ids <==> id in members
  {
    if members == {} then []
    else
      assert exists id :: IsLeast(Below, id, members) by {
        var least := LeastExists(Below, members);
      }
      var least :| IsLeast(Below, least, members);
      [least] + Sorted(members - {least})
  }

  lemma SortedEnumerates(members: set<int>)
    ensures Enumerates(Sorted(members), members)
  {
  }

  lemma SomeElement(ids: seq<int>) returns (id: int)
    requires ids != []
    ensures id in ids
  {
    id := ids[0];
  }

  lemma PrependingKeepsOrder(id: int, ids: seq<int>)
    requires Ascending(ids) && forall x :: x in ids ==> id < x
    ensures Ascending([id] + ids)
  {
    forall i | 0 <= i < |ids|
      ensures id < ids[i]
    {
      var x := ids[i];
      assert x in ids;
    }
  }

  lemma PrependingKeepsDistinct(id: int, ids: seq<int>)
    requires Distinct(ids) && id !in ids
    ensures Distinct([id] + ids)
  {
  }

  lemma FirstIsLeast(ids: seq<int>)
    requires ids != [] && Ascending(ids)
    ensures Ascending(ids[1..]) && forall x :: x in ids[1..] ==> ids[0] < x
  {
  }

  lemma FirstIsApart(ids: seq<int>)
    requires ids != [] && Distinct(ids)
    ensures Distinct(ids[1..]) && ids[0] !in ids[1..]
  {
  }

  /** There is only one ascending enumeration. */
  lemma {:induction false} AscendingIsUnique(a: seq<int>, b: seq<int>)
    requires Ascending(a) && Ascending(b) && forall id :: id in a <==> id in b
    ensures a == b
  {
    if a == [] {
      if b != [] {
        var id := SomeElement(b);
      }
    } else {
      assert a[0] in b && b[0] in a;
      assert a[0] == b[0];
      forall id
        ensures id in a[1..] <==> id in b[1..]
      {
        assert id in a <==> id == a[0] || id in a[1..];
        assert id in b <==> id == b[0] || id in b[1..];
      }
      AscendingIsUnique(a[1..], b[1..]);
    }
  }

  lemma EnumerationIsSorted(ids: seq<int>, members: set<int>)
    requires Enumerates(ids, members)
    ensures ids == Sorted(members)
  {
    forall id
      ensures id in ids <==> id in Sorted(members)
    {
      assert id in ids <==> id in Elements(ids);
    }
    AscendingIsUnique(ids, Sorted(members));
  }

  /** Adds an id that is not there yet and sorts the list again. */
  function Inserted(ids: seq<int>, id: int): (r: seq<int>)
    ensures forall x :: x in r <==> x in ids || x == id
    ensures Ascending(ids) ==> Ascending(r)
  {
    if id in ids then ids else Sorted(Elements(ids) + {id})
  }

  function RemoveAll(ids: seq<int>, id: int): (r: seq<int>)
    ensures forall x :: x in r <==> x in ids && x != id
    ensures id !in ids ==> r == ids
  {
    if ids == [] then []
    else if ids[0] == id then RemoveAll(ids[1..], id)
    else [ids[0]] + RemoveAll(ids[1..], id)
  }

  lemma {:induction false} RemovingKeepsOrder(ids: seq<int>, id: int)
    requires Ascending(ids)
    ensures Ascending(RemoveAll(ids, id))
  {
    if ids != [] {
      hide Ascending;
      FirstIsLeast(ids);
      RemovingKeepsOrder(ids[1..], id);
      PrependingKeepsOrder(ids[0], RemoveAll(ids[1..], id));
    }
  }

  lemma {:induction false} RemovingKeepsDistinct(ids: seq<int>, id: int)
    requires Distinct(ids)
    ensures Distinct(RemoveAll(ids, id))
  {
    if ids != [] {
      hide Distinct;
      FirstIsApart(ids);
      RemovingKeepsDistinct(ids[1..], id);
      PrependingKeepsDistinct(ids[0], RemoveAll(ids[1..], id));
    }
  }

  lemma AppendingKeepsOrder(ids: seq<int>, id: int)
    requires Ascending(ids) && (ids != [] ==> ids[|ids| - 1] < id)
    ensures Ascending(ids + [id]) && id !in ids
  {
  }

  /** The first place of an entry, or -1. */
  function Position<T(==)>(es: seq<T>, e: T): (r: int)
    ensures -1 <= r < |es| && (r >= 0 ==> es[r] == e) && (r < 0 <==> e !in es)
  {
    if es == [] then -1
    else if es[0] == e then 0
    else
      var r := Position(es[1..], e);
      assert es == [es[0]] + es[1..];
      if r < 0 then -1 else r + 1
  }

  /** `n` consecutive ids. */
  function From(first: int, n: nat): seq<int> {
    seq(n, k => first + k)
  }

  lemma FromHas(first: int, n: nat, id: int)
    ensures id in From(first, n) <==> first <= id < first + n
  {
    if first <= id < first + n {
      assert From(first, n)[id - first] == id;
    }
  }

  lemma FirstAndRest(ids: seq<int>)
    requires ids != []
    ensures Elements(ids) == {ids[0]} + Elements(ids[1..])
    ensures Distinct(ids) <==> Distinct(ids[1..]) && ids[0] !in Elements(ids[1..])
  {
    assert ids == [ids[0]] + ids[1..];
    if Distinct(ids[1..]) && ids[0] !in Elements(ids[1..]) {
      PrependingKeepsDistinct(ids[0], ids[1..]);
    }
  }

  lemma {:induction false} ElementsCount(ids: seq<int>)
    ensures |Elements(ids)| <= |ids|
    ensures Distinct(ids) <==> |Elements(ids)| == |ids|
  {
    if ids == [] {
      assert Elements(ids) == {};
    } else {
      hide Distinct, Elements;
      ElementsCount(ids[1..]);
      FirstAndRest(ids);
      assert ids[0] in Elements(ids[1..]) ==> Elements(ids) == Elements(ids[1..]);
    }
  }
}
