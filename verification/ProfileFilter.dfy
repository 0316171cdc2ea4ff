/** Comparing lists of entities by a key: dropping duplicates, pairing equal ones, and finding what only one side has.
    */
module ProfileFilter {

  // ----- the last entity of each key

  function LastByKey<E>(es: seq<E>, key: E -> string): map<string, E> {
    if es == [] then map[] else LastByKey(es[..|es| - 1], key)[key(es[|es| - 1]) := es[|es| - 1]]
  }

  predicate IsLastOf<E>(es: seq<E>, key: E -> string, i: int) {
    0 <= i < |es| && forall j :: i < j < |es| ==> key(es[j]) != key(es[i])
  }

  /** The map holds exactly the keys of the list, and under each of them the last entity that has it. */
  lemma {:induction false} LastByKeyIs<E>(es: seq<E>, key: E -> string, i: nat)
    requires i < |es|
    ensures key(es[i]) in LastByKey(es, key)
    ensures IsLastOf(es, key, i) ==> LastByKey(es, key)[key(es[i])] == es[i]
  {
    var n := |es| - 1;
    if i < n {
      LastByKeyIs(es[..n], key, i);
      if IsLastOf(es, key, i) {
        assert key(es[n]) != key(es[i]);
        assert IsLastOf(es[..n], key, i);
      }
    }
  }

  lemma {:induction false} LastByKeyHas<E>(es: seq<E>, key: E -> string, k: string) returns (i: nat)
    requires k in LastByKey(es, key)
    ensures i < |es| && key(es[i]) == k && IsLastOf(es, key, i) && LastByKey(es, key)[k] == es[i]
  {
    var n := |es| - 1;
    if key(es[n]) == k {
      i := n;
    } else {
      i := LastByKeyHas(es[..n], key, k);
      assert forall j :: i < j < n ==> es[..n][j] == es[j];
    }
  }

  // ----- filters

  function Having<E>(es: seq<E>, keys: set<string>, key: E -> string): (r: seq<E>)
    ensures forall e <- es :: key(e) in keys ==> e in r
    ensures forall e <- r :: e in es && key(e) in keys
  {
    if es == [] then []
    else
      var rest, last := Having(es[..|es| - 1], keys, key), es[|es| - 1];
      assert es == es[..|es| - 1] + [last];
      if key(last) in keys then rest + [last] else rest
  }

  function Lacking<E>(es: seq<E>, keys: set<string>, key: E -> string): (r: seq<E>)
    ensures forall e <- es :: key(e) !in keys ==> e in r
    ensures forall e <- r :: e in es && key(e) !in keys
  {
    if es == [] then []
    else
      var rest, last := Lacking(es[..|es| - 1], keys, key), es[|es| - 1];
      assert es == es[..|es| - 1] + [last];
      if key(last) !in keys then rest + [last] else rest
  }

  function Excluding<E(==)>(es: seq<E>, others: seq<E>): (r: seq<E>)
    ensures forall e <- r :: e in es && e !in others
  {
    if es == [] then []
    else
      var rest, last := Excluding(es[..|es| - 1], others), es[|es| - 1];
      if last !in others then rest + [last] else rest
  }

  /** For each entity of the second list whose key the first one has, in order, the entity and its last match. */
  method Common<E>(src: seq<E>, dst: seq<E>, key: E -> string) returns (outSrc: seq<E>, outDst: seq<E>)
    ensures outDst == Having(dst, LastByKey(src, key).Keys, key)
    ensures |outSrc| == |outDst|
    ensures forall i :: 0 <= i < |outDst| ==>
              key(outDst[i]) in LastByKey(src, key) && outSrc[i] == LastByKey(src, key)[key(outDst[i])]
  {
    var last: map<string, E> := map[];
    for k := 0 to |src|
      invariant last == LastByKey(src[..k], key)
    {
      assert src[..k + 1][..k] == src[..k];
      last := last[key(src[k]) := src[k]];
    }
    assert src[..|src|] == src;
    outSrc, outDst := [], [];
    for k := 0 to |dst|
      invariant outDst == Having(dst[..k], last.Keys, key)
      invariant |outSrc| == |outDst|
      invariant forall i :: 0 <= i < |outDst| ==> key(outDst[i]) in last && outSrc[i] == last[key(outDst[i])]
    {
      assert dst[..k + 1][..k] == dst[..k];
      if key(dst[k]) in last {
        outDst := outDst + [dst[k]];
        outSrc := outSrc + [last[key(dst[k])]];
      }
    }
    assert dst[..|dst|] == dst;
  }

  function KeysOf<E>(es: seq<E>, key: E -> string): set<string> {
    set i | 0 <= i < |es| :: key(es[i])
  }

  method OnlyInSrc<E>(src: seq<E>, dst: seq<E>, key: E -> string) returns (out: seq<E>)
    ensures out == Lacking(src, KeysOf(dst, key), key)
  {
    var keys: map<string, bool> := map[];
    for k := 0 to |dst|
      invariant keys.Keys == KeysOf(dst[..k], key)
    {
      assert dst[..k + 1] == dst[..k] + [dst[k]];
      KeysWithOneMore(dst[..k], dst[k], key);
      keys := keys[key(dst[k]) := true];
    }
    assert dst[..|dst|] == dst;
    out := [];
    for k := 0 to |src|
      invariant out == Lacking(src[..k], keys.Keys, key)
    {
      assert src[..k + 1][..k] == src[..k];
      if key(src[k]) !in keys {
        out := out + [src[k]];
      }
    }
    assert src[..|src|] == src;
  }

  lemma KeysWithOneMore<E>(es: seq<E>, e: E, key: E -> string)
    ensures KeysOf(es + [e], key) == KeysOf(es, key) + {key(e)}
  {
    var more := es + [e];
    assert more[|es|] == e;
    assert forall i :: 0 <= i < |es| ==> more[i] == es[i];
  }

  method OnlyInSrcByPointer<E(==)>(src: seq<E>, dst: seq<E>) returns (out: seq<E>)
    ensures out == Excluding(src, dst)
  {
    out := [];
    for k := 0 to |src|
      invariant out == Excluding(src[..k], dst)
    {
      assert src[..k + 1][..k] == src[..k];
      if src[k] !in dst {
        out := out + [src[k]];
      }
    }
    assert src[..|src|] == src;
  }

  // ----- duplicates

  /** The first entity of each key, in order. */
  function Firsts<E>(es: seq<E>, key: E -> string): (r: seq<E>)
    ensures OnePerKey(r, key) && KeysOf(r, key) == KeysOf(es, key)
  {
    if es == [] then []
    else
      var before, last := es[..|es| - 1], es[|es| - 1];
      var rest := Firsts(before, key);
      assert es == before + [last];
      KeysWithOneMore(before, last, key);
      KeysWithOneMore(rest, last, key);
      if key(last) in KeysOf(before, key) then rest else rest + [last]
  }

  predicate OnePerKey<E>(es: seq<E>, key: E -> string) {
    forall i, j :: 0 <= i < j < |es| ==> key(es[i]) != key(es[j])
  }

  /** The last entity of each key, in order. */
  function Lasts<E>(es: seq<E>, key: E -> string): (r: seq<E>)
    ensures KeysOf(r, key) == KeysOf(es, key)
  {
    if es == [] then []
    else
      var rest := Lasts(es[1..], key);
      FirstKey(es, key);
      FirstKey([es[0]] + rest, key);
      assert ([es[0]] + rest)[1..] == rest;
      if key(es[0]) in KeysOf(es[1..], key) then rest else [es[0]] + rest
  }

  lemma FirstKey<E>(es: seq<E>, key: E -> string)
    requires es != []
    ensures KeysOf(es, key) == {key(es[0])} + KeysOf(es[1..], key)
  {
    assert es == [es[0]] + es[1..];
    forall i | 0 <= i < |es|
      ensures key(es[i]) in {key(es[0])} + KeysOf(es[1..], key)
    {
      assert i > 0 ==> es[i] == es[1..][i - 1];
    }
    forall i | 0 <= i < |es[1..]|
      ensures key(es[1..][i]) in KeysOf(es, key)
    {
      assert es[1..][i] == es[i + 1];
    }
  }

  lemma LackingExtended<E>(es: seq<E>, e: E, keys: set<string>, key: E -> string)
    ensures Lacking(es + [e], keys, key) == Lacking(es, keys, key) + if key(e) in keys then [] else [e]
  {
    assert (es + [e])[..|es + [e]| - 1] == es;
  }

  lemma LackingOfOne<E>(e: E, keys: set<string>, key: E -> string)
    ensures Lacking([e], keys, key) == if key(e) in keys then [] else [e]
    ensures Lacking([], keys, key) == []
  {
    assert [] + [e] == [e];
    LackingExtended([], e, keys, key);
  }

  lemma {:induction false} LackingPrepended<E>(a: E, es: seq<E>, keys: set<string>, key: E -> string)
    ensures Lacking([a] + es, keys, key) == (if key(a) in keys then [] else [a]) + Lacking(es, keys, key)
  {
    hide *;
    if es == [] {
      assert [a] + es == [a];
      LackingOfOne(a, keys, key);
    } else {
      var before, last := es[..|es| - 1], es[|es| - 1];
      assert es == before + [last];
      assert [a] + es == ([a] + before) + [last];
      LackingPrepended(a, before, keys, key);
      LackingExtended([a] + before, last, keys, key);
      LackingExtended(before, last, keys, key);
    }
  }

  lemma {:induction false} LastsExtended<E>(es: seq<E>, e: E, key: E -> string)
    ensures Lasts(es + [e], key) == Lacking(Lasts(es, key), {key(e)}, key) + [e]
  {
    hide *;
    if es == [] {
      LastsOfNone(e, key);
      assert es + [e] == [e];
    } else {
      var a, t := es[0], es[1..];
      assert es == [a] + t;
      assert es + [e] == [a] + (t + [e]);
      LastsExtended(t, e, key);
      LastsPrepended(a, t + [e], key);
      LastsPrepended(a, t, key);
      KeysWithOneMore(t, e, key);
      LackingPrepended(a, Lasts(t, key), {key(e)}, key);
      assert [a] + (Lacking(Lasts(t, key), {key(e)}, key) + [e]) == [a] + Lacking(Lasts(t, key), {key(e)}, key) + [e];
    }
  }

  lemma LastsOfNone<E>(e: E, key: E -> string)
    ensures Lasts([e], key) == Lacking(Lasts([], key), {key(e)}, key) + [e]
  {
    assert Lasts([e][1..], key) == [];
    assert key(e) !in KeysOf([e][1..], key);
  }

  lemma LastsPrepended<E>(a: E, t: seq<E>, key: E -> string)
    ensures Lasts([a] + t, key) == if key(a) in KeysOf(t, key) then Lasts(t, key) else [a] + Lasts(t, key)
  {
    hide KeysOf;
    assert ([a] + t)[1..] == t;
  }

  lemma {:induction false} LastsHold<E>(es: seq<E>, key: E -> string)
    ensures OnePerKey(Lasts(es, key), key)
    ensures forall k <- LastByKey(es, key) :: LastByKey(es, key)[k] in Lasts(es, key) && key(LastByKey(es, key)[k]) == k
  {
    if es != [] {
      var n := |es| - 1;
      var before, e := es[..n], es[n];
      LastsHold(before, key);
      LastsExtended(before, e, key);
      assert es == before + [e];
      var kept := Lacking(Lasts(before, key), {key(e)}, key);
      LackingKeepsOne(Lasts(before, key), {key(e)}, key);
      assert forall i :: 0 <= i < |kept| ==> kept[i] in kept;
    }
  }

  lemma {:induction false} LackingKeepsOne<E>(es: seq<E>, keys: set<string>, key: E -> string)
    requires OnePerKey(es, key)
    ensures OnePerKey(Lacking(es, keys, key), key)
  {
    if es != [] {
      var before, last := es[..|es| - 1], es[|es| - 1];
      LackingKeepsOne(before, keys, key);
      var rest := Lacking(before, keys, key);
      forall i | 0 <= i < |rest|
        ensures key(rest[i]) != key(last)
      {
        assert rest[i] in before;
      }
    }
  }

  /** Taking out the one entity that has a key takes out all that have it. */
  lemma {:induction false} ExcludingOne<E>(es: seq<E>, e: E, key: E -> string)
    requires forall x <- es :: key(x) == key(e) ==> x == e
    ensures Excluding(es, [e]) == Lacking(es, {key(e)}, key)
  {
    if es != [] {
      var before, last := es[..|es| - 1], es[|es| - 1];
      assert es == before + [last];
      ExcludingOne(before, e, key);
      assert last in es;
    }
  }

  lemma FirstsExtended<E>(es: seq<E>, e: E, key: E -> string)
    ensures Firsts(es + [e], key) == if key(e) in KeysOf(es, key) then Firsts(es, key) else Firsts(es, key) + [e]
  {
    hide KeysOf;
    assert (es + [e])[..|es + [e]| - 1] == es;
  }

  lemma LastByKeyExtended<E>(es: seq<E>, e: E, key: E -> string)
    ensures LastByKey(es + [e], key) == LastByKey(es, key)[key(e) := e]
  {
    assert (es + [e])[..|es + [e]| - 1] == es;
  }

  /** What a further entity does to the last entities of each key. */
  lemma LastsStep<E>(es: seq<E>, e: E, key: E -> string)
    requires LastByKey(es, key).Keys == KeysOf(es, key)
    ensures var last := LastByKey(es, key);
            Lasts(es + [e], key)
            == (if key(e) in last then Excluding(Lasts(es, key), [last[key(e)]]) else Lasts(es, key)) + [e]
  {
    hide *;
    LastsExtended(es, e, key);
    if key(e) in LastByKey(es, key) {
      LastsHold(es, key);
      OneOfAKey(Lasts(es, key), LastByKey(es, key)[key(e)], key);
      ExcludingOne(Lasts(es, key), LastByKey(es, key)[key(e)], key);
    } else {
      NoneOfAKey(Lasts(es, key), key(e), key);
    }
  }

  /** Drops duplicates: of the entities with one key, the first stays, or the last. */
  method Uniq<E(==)>(src: seq<E>, key: E -> string, keepLast: bool) returns (out: seq<E>)
    ensures out == if keepLast then Lasts(src, key) else Firsts(src, key)
  {
    var seen: map<string, E> := map[];
    out := [];
    assert src[..0] == [];
    for k := 0 to |src|
      invariant HasSeen(src[..k], key, keepLast, seen, out)
    {
      hide *;
      assert src[..k + 1] == src[..k] + [src[k]];
      seen, out := See(src[..k], src[k], key, keepLast, seen, out);
    }
    assert src[..|src|] == src;
  }

  predicate HasSeen<E(==)>(es: seq<E>, key: E -> string, keepLast: bool, seen: map<string, E>, out: seq<E>) {
    && seen.Keys == KeysOf(es, key)
    && (keepLast ==> seen == LastByKey(es, key))
    && out == if keepLast then Lasts(es, key) else Firsts(es, key)
  }

  /** The body of the loop. */
  method See<E(==)>(ghost es: seq<E>, ent: E, key: E -> string, keepLast: bool, seen: map<string, E>, out: seq<E>)
    returns (seenAfter: map<string, E>, outAfter: seq<E>)
    requires HasSeen(es, key, keepLast, seen, out)
    ensures HasSeen(es + [ent], key, keepLast, seenAfter, outAfter)
  {
    hide KeysOf, LastByKey, Lasts, Firsts, Excluding;
    seenAfter, outAfter := seen, out;
    KeysWithOneMore(es, ent, key);
    FirstsExtended(es, ent, key);
    LastByKeyExtended(es, ent, key);
    if keepLast {
      LastsStep(es, ent, key);
    }
    if key(ent) in seen {
      if keepLast {
        outAfter := Excluding(out, [seen[key(ent)]]);
        seenAfter := seen[key(ent) := ent];
        outAfter := outAfter + [ent];
      }
    } else {
      seenAfter := seen[key(ent) := ent];
      outAfter := out + [ent];
    }
  }

  lemma OneOfAKey<E>(es: seq<E>, e: E, key: E -> string)
    requires OnePerKey(es, key) && e in es
    ensures forall x <- es :: key(x) == key(e) ==> x == e
  {
  }

  lemma {:induction false} NoneOfAKey<E>(es: seq<E>, k: string, key: E -> string)
    requires k !in KeysOf(es, key)
    ensures Lacking(es, {k}, key) == es
  {
    if es != [] {
      var before, last := es[..|es| - 1], es[|es| - 1];
      assert es == before + [last];
      KeysWithOneMore(before, last, key);
      NoneOfAKey(before, k, key);
    }
  }

  // ----- what is left is in its order

  /** The entities at these places, in ascending order. */
  predicate Picks<E(==)>(r: seq<E>, es: seq<E>, places: seq<nat>) {
    && |r| == |places|
    && (forall i :: 0 <= i < |places| ==> places[i] < |es| && r[i] == es[places[i]])
    && (forall i, j :: 0 <= i < j < |places| ==> places[i] < places[j])
  }

  lemma PicksWithOneMore<E>(r: seq<E>, es: seq<E>, places: seq<nat>, e: E)
    requires Picks(r, es, places)
    ensures Picks(r, es + [e], places) && Picks(r + [e], es + [e], places + [|es|])
    ensures |es| !in places
  {
  }

  /** Having keeps the entities whose key is asked for, and no others, in their order. */
  lemma {:induction false} HavingPicks<E>(es: seq<E>, keys: set<string>, key: E -> string) returns (places: seq<nat>)
    ensures Picks(Having(es, keys, key), es, places)
    ensures forall i: nat :: i in places <==> i < |es| && key(es[i]) in keys
  {
    places := [];
    if es != [] {
      var before, last := es[..|es| - 1], es[|es| - 1];
      assert es == before + [last];
      places := HavingPicks(before, keys, key);
      PicksWithOneMore(Having(before, keys, key), before, places, last);
      if key(last) in keys {
        places := places + [|before|];
      }
    }
  }

  lemma {:induction false} LackingPicks<E>(es: seq<E>, keys: set<string>, key: E -> string) returns (places: seq<nat>)
    ensures Picks(Lacking(es, keys, key), es, places)
    ensures forall i: nat :: i in places <==> i < |es| && key(es[i]) !in keys
  {
    places := [];
    if es != [] {
      var before, last := es[..|es| - 1], es[|es| - 1];
      assert es == before + [last];
      places := LackingPicks(before, keys, key);
      PicksWithOneMore(Lacking(before, keys, key), before, places, last);
      if key(last) !in keys {
        places := places + [|before|];
      }
    }
  }

  lemma {:induction false} ExcludingPicks<E>(es: seq<E>, others: seq<E>) returns (places: seq<nat>)
    ensures Picks(Excluding(es, others), es, places)
    ensures forall i: nat :: i in places <==> i < |es| && es[i] !in others
  {
    places := [];
    if es != [] {
      var before, last := es[..|es| - 1], es[|es| - 1];
      assert es == before + [last];
      places := ExcludingPicks(before, others);
      PicksWithOneMore(Excluding(before, others), before, places, last);
      if last !in others {
        places := places + [|before|];
      }
    }
  }

  predicate IsFirstOf<E>(es: seq<E>, key: E -> string, i: int) {
    0 <= i < |es| && forall j :: 0 <= j < i ==> key(es[j]) != key(es[i])
  }

  /** The first form keeps exactly the first entity of each key, in their order... */
  lemma {:induction false} FirstsPicks<E>(es: seq<E>, key: E -> string) returns (places: seq<nat>)
    ensures Picks(Firsts(es, key), es, places)
    ensures forall i: nat :: i in places <==> IsFirstOf(es, key, i)
  {
    places := [];
    if es != [] {
      var before, last := es[..|es| - 1], es[|es| - 1];
      assert es == before + [last];
      places := FirstsPicks(before, key);
      PicksWithOneMore(Firsts(before, key), before, places, last);
      forall i: nat | i < |before|
        ensures IsFirstOf(es, key, i) <==> IsFirstOf(before, key, i)
      {
      }
      if key(last) !in KeysOf(before, key) {
        places := places + [|before|];
      }
    }
  }

  function Later(places: seq<nat>): (r: seq<nat>)
    ensures |r| == |places| && forall i :: 0 <= i < |places| ==> r[i] == places[i] + 1
  {
    seq(|places|, i requires 0 <= i < |places| => places[i] + 1)
  }

  lemma PicksWithOneBefore<E>(r: seq<E>, es: seq<E>, places: seq<nat>, e: E)
    requires Picks(r, es, places)
    ensures Picks(r, [e] + es, Later(places)) && Picks([e] + r, [e] + es, [0] + Later(places))
    ensures forall i: nat :: i in Later(places) <==> i > 0 && i - 1 in places
  {
    forall i: nat
      ensures i in Later(places) <==> i > 0 && i - 1 in places
    {
      if i > 0 && i - 1 in places {
        var k :| 0 <= k < |places| && places[k] == i - 1;
        assert Later(places)[k] == i;
      }
    }
  }

  /** ... and the last form the last one. */
  lemma {:induction false} LastsPicks<E>(es: seq<E>, key: E -> string) returns (places: seq<nat>)
    ensures Picks(Lasts(es, key), es, places)
    ensures forall i: nat :: i in places <==> IsLastOf(es, key, i)
  {
    places := [];
    if es != [] {
      var first, after := es[0], es[1..];
      assert es == [first] + after;
      var inner := LastsPicks(after, key);
      PicksWithOneBefore(Lasts(after, key), after, inner, first);
      forall i: nat | 0 < i < |es|
        ensures IsLastOf(es, key, i) <==> IsLastOf(after, key, i - 1)
      {
        assert forall j :: i < j < |es| ==> es[j] == after[j - 1];
        assert forall j :: i - 1 < j < |after| ==> after[j] == es[j + 1];
      }
      FirstIsLast(first, after, key);
      places := if key(first) in KeysOf(after, key) then Later(inner) else [0] + Later(inner);
    }
  }

  lemma FirstIsLast<E>(first: E, after: seq<E>, key: E -> string)
    ensures IsLastOf([first] + after, key, 0) <==> key(first) !in KeysOf(after, key)
  {
    var es := [first] + after;
    assert forall j :: 0 < j < |es| ==> es[j] == after[j - 1];
    if key(first) in KeysOf(after, key) {
      var k :| 0 <= k < |after| && key(after[k]) == key(first);
      assert key(es[k + 1]) == key(es[0]);
    }
  }
}
