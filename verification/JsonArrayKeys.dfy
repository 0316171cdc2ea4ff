/** When an array under a marked key, `+t` or `t+`, of the source arrives at t: the exact condition, for all sources. */
module JsonArrayKeys {
  import opened JsonMerge
  import opened Orders

  // ----- what a key writes

  /** A marked key that holds an array, and that the destination does not have. */
  predicate ArrayKey(d: Object, src: Json, k: string) {
    src.Obj? && k in src.fields && src.fields[k].Arr? && Marked(k) && k !in d
  }

  lemma TargetIsShorter(k: string)
    requires Marked(k)
    ensures |Target(k)| < |k|
  {
  }

  lemma {:induction false} PrefixComesFirst(a: string, b: string)
    requires |a| < |b| && a == b[..|a|]
    ensures Before(a, b)
  {
    if a != "" {
      assert a[1..] == b[1..][..|a| - 1];
      PrefixComesFirst(a[1..], b[1..]);
    }
  }

  lemma {:induction false} BeforePlusIsPrefix(k: string)
    ensures |BeforePlus(k)| <= |k| && BeforePlus(k) == k[..|BeforePlus(k)|] && '+' !in BeforePlus(k)
  {
    if k != "" && k[0] != '+' {
      BeforePlusIsPrefix(k[1..]);
      assert k == [k[0]] + k[1..];
    }
  }

  /** The target of a key `t+` is visited before it. That of a key `+t` is, unless t begins with a character that comes
      after the plus sign, as letters and digits do. */
  lemma TargetComesFirst(k: string)
    requires Marked(k)
    ensures var t := Target(k);
            if !StartsWithPlus(k) then Before(t, k)
            else t == "" || t[0] == '+' || (Before(k, t) <==> t[0] > '+')
    ensures Target(k) == "" ==> Before(Target(k), k)
  {
    if !StartsWithPlus(k) {
      BeforePlusIsPrefix(k);
      PrefixComesFirst(Target(k), k);
    }
  }

  // ----- which array keys fire

  function Earlier(src: Json, k: string): set<string>
    requires src.Obj?
  {
    set j | j in src.fields && Before(j, k)
  }

  lemma EarlierShrinks(src: Json, j: string, k: string)
    requires src.Obj? && j in src.fields && Before(j, k)
    ensures Earlier(src, j) < Earlier(src, k)
  {
    BeforeIsTotal(j, j);
    forall i | i in Earlier(src, j)
      ensures i in Earlier(src, k)
    {
      BeforeIsTransitive(i, j, k);
    }
    assert j in Earlier(src, k) && j !in Earlier(src, j);
  }

  /** An array key is written to its target unless the destination has the key itself by then: from the start, or as the
      target of an array key visited earlier. */
  ghost predicate Fires(d: Object, src: Json, k: string)
    requires src.Obj?
    decreases Earlier(src, k)
  {
    && ArrayKey(d, src, k)
    && forall j :: j in Earlier(src, k) && Target(j) == k ==> (EarlierShrinks(src, j, k); !Fires(d, src, j))
  }

  /** One of the keys is written to x. */
  ghost predicate FiresAt(d: Object, src: Json, ks: seq<string>, x: string)
    requires src.Obj?
  {
    exists j :: j in ks && Fires(d, src, j) && Target(j) == x
  }

  lemma EarlierIs(src: Json, n: nat)
    requires src.Obj? && n < |Keys(src.fields)|
    ensures forall j :: j in Earlier(src, Keys(src.fields)[n]) <==> j in Keys(src.fields)[..n]
  {
    hide Keys, Before;
    KeysAreAscending(src.fields);
    var ks := Keys(src.fields);
    forall j
      ensures j in Earlier(src, ks[n]) <==> j in ks[..n]
    {
      if j in src.fields {
        assert j in ks;
        var i :| 0 <= i < |ks| && ks[i] == j;
        BeforeIsTotal(j, ks[n]);
        if i < n {
          assert ks[..n][i] == j;
        }
      }
      if j in ks[..n] {
        var i :| 0 <= i < n && ks[..n][i] == j;
        assert ks[i] in ks;
      }
    }
  }

  lemma FiresMeans(d: Object, src: Json, n: nat)
    requires src.Obj? && n < |Keys(src.fields)|
    ensures var ks := Keys(src.fields);
            Fires(d, src, ks[n]) <==> ArrayKey(d, src, ks[n]) && !FiresAt(d, src, ks[..n], ks[n])
  {
    hide Keys, Before, Target, Marked;
    EarlierIs(src, n);
    var ks := Keys(src.fields);
    var k := ks[n];
    if ArrayKey(d, src, k) && !Fires(d, src, k) {
      var j :| j in Earlier(src, k) && Target(j) == k && Fires(d, src, j);
      assert j in ks[..n];
    }
  }

  /** Which keys that are not visited yet the destination has after n visits. */
  lemma {:induction false} UnvisitedAre(d: Object, src: Json, n: nat, x: string)
    requires src.Obj? && n <= |Keys(src.fields)| && x !in Keys(src.fields)[..n]
    ensures var ks := Keys(src.fields);
            && (forall i :: 0 <= i < n ==> ks[..n][i] in src.fields)
            && (x in MergeKeys(d, src, ks[..n]) <==> x in d || FiresAt(d, src, ks[..n], x))
    decreases n
  {
    hide Keys, Target, Marked, Merged, Extended, Fires;
    var ks := Keys(src.fields);
    if n > 0 {
      var k, before := ks[n - 1], ks[..n - 1];
      assert ks[..n] == before + [k] && ks[..n][..n - 1] == before;
      UnvisitedAre(d, src, n - 1, x);
      SplitAt(ks, n - 1);
      UnvisitedAre(d, src, n - 1, k);
      FiresMeans(d, src, n - 1);
      FiresAtOneMore(d, src, before, k, x);
    }
  }

  lemma FiresAtOneMore(d: Object, src: Json, ks: seq<string>, k: string, x: string)
    requires src.Obj?
    ensures FiresAt(d, src, ks + [k], x) <==> FiresAt(d, src, ks, x) || (Fires(d, src, k) && Target(k) == x)
  {
    hide Fires, Target;
    assert k in ks + [k];
  }

  lemma SplitAt(ks: seq<string>, i: nat)
    requires i < |ks| && Distinct(ks)
    ensures ks == ks[..i] + [ks[i]] + ks[i + 1..]
    ensures ks[i] !in ks[..i] && ks[i] !in ks[i + 1..]
  {
  }

  /** At its visit, an array key is written to its target exactly when it fires. */
  lemma VisitIs(d: Object, src: Json, n: nat)
    requires src.Obj? && n < |Keys(src.fields)|
    requires var k := Keys(src.fields)[n]; k in src.fields && src.fields[k].Arr? && Marked(k)
    ensures var ks := Keys(src.fields);
            && (forall i :: 0 <= i < n ==> ks[..n][i] in src.fields)
            && (ks[n] in MergeKeys(d, src, ks[..n]) <==> !Fires(d, src, ks[n]))
  {
    hide Keys, Target, Marked, Merged, MergeKeys, Fires;
    SplitAt(Keys(src.fields), n);
    UnvisitedAre(d, src, n, Keys(src.fields)[n]);
    FiresMeans(d, src, n);
  }

  /** The visits before key n, that to it, and those after it. */
  lemma ThreeParts(d: Object, src: Json, ks: seq<string>, n: nat)
    requires src.Obj? && n < |ks| && forall i :: 0 <= i < |ks| ==> ks[i] in src.fields
    ensures (forall i :: 0 <= i < n ==> ks[..n][i] in src.fields)
    ensures var rest := ks[n + 1..]; forall i :: 0 <= i < |rest| ==> rest[i] in src.fields
    ensures MergeKeys(d, src, ks) == MergeKeys(MergeOne(MergeKeys(d, src, ks[..n]), src, ks[n]), src, ks[n + 1..])
  {
    hide MergeKeys, MergeOne;
    var front := ks[..n];
    assert front + [ks[n]] + ks[n + 1..] == ks;
    MergeKeysJoins(d, src, front, [ks[n]]);
    MergeKeysJoins(d, src, front + [ks[n]], ks[n + 1..]);
    MergeSingle(MergeKeys(d, src, front), src, ks[n]);
  }

  // ----- arriving

  /** The source with another array under k. */
  function With(src: Json, k: string, items: seq<Json>): (r: Json)
    requires src.Obj?
    ensures r.Obj?
  {
    Obj(src.fields[k := Arr(items)])
  }

  /** An array stands under t, and the items stand in it one after the other. */
  ghost predicate Arrives(r: Object, t: string, items: seq<Json>) {
    t in r && r[t].Arr? && exists a, b :: r[t].items == a + items + b
  }

  lemma ArrivesByFiring(d: Object, src: Json, k: string)
    requires ArrayKey(d, src, k)
    ensures Arrives(MergeOne(d, src, k), Target(k), src.fields[k].items)
  {
    hide Target, Merged, Marked;
    var present, more := ItemsAt(d, Target(k)), src.fields[k].items;
    assert more + present == [] + more + present && present + more == present + more + [];
  }

  /** Only a visit to t itself can make what has arrived go. */
  lemma OneMoreKeeps(d: Object, src: Json, j: string, t: string, items: seq<Json>)
    requires src.Obj? && j in src.fields && j != t && Arrives(d, t, items)
    ensures Arrives(MergeOne(d, src, j), t, items)
  {
    hide Target, Merged, Marked, Extended;
    if j !in d && src.fields[j].Arr? && Marked(j) && Target(j) == t {
      ExtendingKeeps(d, j, t, src.fields[j].items, items);
    } else {
      assert MergeOne(d, src, j)[t] == d[t];
      ArrivedStays(d, MergeOne(d, src, j), t, items);
    }
  }

  lemma ArrivedStays(d: Object, e: Object, t: string, items: seq<Json>)
    requires Arrives(d, t, items) && t in e && e[t] == d[t]
    ensures Arrives(e, t, items)
  {
  }

  lemma ExtendingKeeps(d: Object, j: string, t: string, more: seq<Json>, items: seq<Json>)
    requires Arrives(d, t, items)
    ensures Arrives(d[t := Arr(Extended(j, ItemsAt(d, t), more))], t, items)
  {
    var present := d[t].items;
    var a, b :| present == a + items + b;
    assert more + present == (more + a) + items + b;
    assert present + more == a + items + (b + more);
  }

  lemma {:induction false} RestKeeps(d: Object, src: Json, ks: seq<string>, t: string, items: seq<Json>)
    requires src.Obj? && (forall i :: 0 <= i < |ks| ==> ks[i] in src.fields) && t !in ks && Arrives(d, t, items)
    ensures Arrives(MergeKeys(d, src, ks), t, items)
    decreases |ks|
  {
    if ks != [] {
      hide MergeOne, Arrives;
      var n := |ks| - 1;
      RestKeeps(d, src, ks[..n], t, items);
      OneMoreKeeps(MergeKeys(d, src, ks[..n]), src, ks[n], t, items);
    }
  }

  /** The array is written to its target, and the target is not visited later. */
  ghost predicate FiresLast(d: Object, src: Json, k: string)
    requires src.Obj?
  {
    Fires(d, src, k) && !(Target(k) in src.fields && Before(k, Target(k)))
  }

  lemma LaterKeys(src: Json, n: nat)
    requires src.Obj? && n < |Keys(src.fields)|
    ensures var ks := Keys(src.fields); forall x :: x in ks[n + 1..] <==> x in src.fields && Before(ks[n], x)
  {
    hide Keys, Before;
    KeysAreAscending(src.fields);
    var ks := Keys(src.fields);
    forall x
      ensures x in ks[n + 1..] <==> x in src.fields && Before(ks[n], x)
    {
      BeforeIsTotal(ks[n], x);
      if x in src.fields && Before(ks[n], x) {
        assert x in ks;
        var i :| 0 <= i < |ks| && ks[i] == x;
        assert n < i && ks[n + 1..][i - n - 1] == x;
      }
      if x in ks[n + 1..] {
        var i :| 0 <= i < |ks| - n - 1 && ks[n + 1..][i] == x;
        assert ks[n + 1 + i] == x && x in ks;
      }
    }
  }

  lemma FiringLastArrives(d: Object, src: Json, k: string)
    requires src.Obj? && FiresLast(d, src, k)
    ensures Arrives(Merged(d, src), Target(k), src.fields[k].items)
  {
    hide Keys, Target, Before, Marked, MergeOne, MergeKeys, Arrives, Merged;
    MergedIs(d, src);
    KeysAreAscending(src.fields);
    var ks := Keys(src.fields);
    assert k in ks;
    var n :| 0 <= n < |ks| && ks[n] == k;
    var t, front, rest := Target(k), ks[..n], ks[n + 1..];
    ThreeParts(d, src, ks, n);
    VisitIs(d, src, n);
    TargetIsShorter(k);
    ArrivesByFiring(MergeKeys(d, src, front), src, k);
    LaterKeys(src, n);
    RestKeeps(MergeOne(MergeKeys(d, src, front), src, k), src, rest, t, src.fields[k].items);
  }

  // ----- not arriving: what stands under the target does not depend on the array

  ghost predicate SameBut(d: Object, e: Object, others: set<string>) {
    d.Keys == e.Keys && forall x :: x in d && x !in others ==> d[x] == e[x]
  }

  /** Two sources that differ in an array under k at most. */
  predicate Twins(a: Json, b: Json, k: string) {
    && a.Obj? && b.Obj? && a.fields.Keys == b.fields.Keys
    && (forall j :: j in a.fields && j != k ==> a.fields[j] == b.fields[j])
    && k in a.fields && a.fields[k].Arr? && b.fields[k].Arr?
  }

  lemma OneMoreSame(d: Object, e: Object, a: Json, b: Json, k: string, j: string, others: set<string>)
    requires Twins(a, b, k) && j in a.fields && j in b.fields && SameBut(d, e, others) && k in others
    requires j == k ==> k in d || Target(k) in others
    ensures SameBut(MergeOne(d, a, j), MergeOne(e, b, j), others)
  {
    hide Target, Merged, Marked, Extended;
  }

  lemma {:induction false} RestSame(d: Object, e: Object, a: Json, b: Json, k: string, ks: seq<string>,
      others: set<string>)
    requires Twins(a, b, k) && (forall i :: 0 <= i < |ks| ==> ks[i] in a.fields && ks[i] in b.fields)
    requires SameBut(d, e, others) && k in others && k !in ks
    ensures SameBut(MergeKeys(d, a, ks), MergeKeys(e, b, ks), others)
    decreases |ks|
  {
    if ks != [] {
      hide MergeOne, SameBut, Twins;
      var n := |ks| - 1;
      RestSame(d, e, a, b, k, ks[..n], others);
      OneMoreSame(MergeKeys(d, a, ks[..n]), MergeKeys(e, b, ks[..n]), a, b, k, ks[n], others);
    }
  }

  /** An array key that does not fire goes to its own place. */
  lemma NotFiringIsSame(d: Object, a: Json, b: Json, k: string)
    requires Twins(a, b, k) && Marked(k) && !Fires(d, a, k) && !Fires(d, b, k)
    ensures SameBut(Merged(d, a), Merged(d, b), {k})
  {
    hide Keys, Before, Marked, MergeOne, MergeKeys, Merged, Fires, SameBut;
    SameKeys(a.fields, b.fields);
    var ks := Keys(a.fields);
    KeysAreAscending(a.fields);
    assert k in ks;
    var n :| 0 <= n < |ks| && ks[n] == k;
    InParts(d, a, n);
    InParts(d, b, n);
    VisitIs(d, a, n);
    VisitIs(d, b, n);
    var x, y := MergeKeys(d, a, ks[..n]), MergeKeys(d, b, ks[..n]);
    SplitAt(ks, n);
    SameStart(d, {k});
    RestSame(d, d, a, b, k, ks[..n], {k});
    OneMoreSame(x, y, a, b, k, k, {k});
    RestSame(MergeOne(x, a, k), MergeOne(y, b, k), a, b, k, ks[n + 1..], {k});
  }

  lemma SameKeys(a: Object, b: Object)
    requires a.Keys == b.Keys
    ensures Keys(a) == Keys(b)
  {
  }

  lemma SameStart(d: Object, others: set<string>)
    ensures SameBut(d, d, others)
  {
  }

  lemma InParts(d: Object, src: Json, n: nat)
    requires src.Obj? && n < |Keys(src.fields)|
    ensures var ks := Keys(src.fields);
            && (forall i :: 0 <= i < |ks| ==> ks[i] in src.fields)
            && (forall i :: 0 <= i < n ==> ks[..n][i] in src.fields)
            && (var rest := ks[n + 1..]; forall i :: 0 <= i < |rest| ==> rest[i] in src.fields)
            && Merged(d, src)
               == MergeKeys(MergeOne(MergeKeys(d, src, ks[..n]), src, ks[n]), src, ks[n + 1..])
  {
    hide MergeKeys, MergeOne, Merged, Keys;
    MergedIs(d, src);
    ThreeParts(d, src, Keys(src.fields), n);
  }

  /** A visit to the target replaces the array there. */
  lemma VisitToTargetReplaces(d: Object, e: Object, a: Json, b: Json, k: string, t: string)
    requires Twins(a, b, k) && t in a.fields && t != k && SameBut(d, e, {k, t})
    requires t in d && t in e && d[t].Arr? && e[t].Arr?
    ensures SameBut(MergeOne(d, a, t), MergeOne(e, b, t), {k})
  {
    hide Target, Merged, Marked, Extended;
    assert MergeOne(d, a, t) == d[t := a.fields[t]] && MergeOne(e, b, t) == e[t := a.fields[t]];
  }

  /** From the visit to an array key on, when its target is visited later. */
  lemma RestReplaces(d: Object, e: Object, a: Json, b: Json, k: string, t: string, rest: seq<string>)
    requires Twins(a, b, k) && t != k && Distinct(rest) && t in rest && k !in rest
    requires forall i :: 0 <= i < |rest| ==> rest[i] in a.fields && rest[i] in b.fields
    requires SameBut(d, e, {k, t}) && Arrives(d, t, []) && Arrives(e, t, [])
    ensures SameBut(MergeKeys(d, a, rest), MergeKeys(e, b, rest), {k})
  {
    hide MergeOne, MergeKeys, SameBut;
    var m :| 0 <= m < |rest| && rest[m] == t;
    SplitAt(rest, m);
    ThreeParts(d, a, rest, m);
    ThreeParts(e, b, rest, m);
    var front := rest[..m];
    RestSame(d, e, a, b, k, front, {k, t});
    RestKeeps(d, a, front, t, []);
    RestKeeps(e, b, front, t, []);
    var x, y := MergeKeys(d, a, front), MergeKeys(e, b, front);
    VisitToTargetReplaces(x, y, a, b, k, t);
    RestSame(MergeOne(x, a, t), MergeOne(y, b, t), a, b, k, rest[m + 1..], {k});
  }

  lemma ArrivesEmpty(r: Object, t: string, items: seq<Json>)
    requires Arrives(r, t, items)
    ensures Arrives(r, t, [])
  {
    var a, b :| r[t].items == a + items + b;
    assert r[t].items == [] + [] + r[t].items;
  }

  /** The destination after the visit to an array key that fires. */
  lemma VisitFires(d: Object, src: Json, n: nat)
    requires src.Obj? && n < |Keys(src.fields)| && Fires(d, src, Keys(src.fields)[n])
    ensures var ks := Keys(src.fields);
            && (forall i :: 0 <= i < n ==> ks[..n][i] in src.fields)
            && Arrives(MergeOne(MergeKeys(d, src, ks[..n]), src, ks[n]), Target(ks[n]), [])
  {
    hide Keys, Target, MergeOne, MergeKeys, Arrives, Fires;
    var ks := Keys(src.fields);
    FiresMeans(d, src, n);
    VisitIs(d, src, n);
    var x := MergeKeys(d, src, ks[..n]);
    ArrivesByFiring(x, src, ks[n]);
    ArrivesEmpty(MergeOne(x, src, ks[n]), Target(ks[n]), src.fields[ks[n]].items);
  }

  /** An array key that fires before its target is visited. */
  lemma ReplacedIsSame(d: Object, a: Json, b: Json, k: string)
    requires Twins(a, b, k) && Marked(k) && Fires(d, a, k) && Fires(d, b, k)
    requires Target(k) in a.fields && Before(k, Target(k))
    ensures SameBut(Merged(d, a), Merged(d, b), {k})
  {
    hide Keys, Before, Marked, Target, MergeOne, MergeKeys, Merged, Fires, SameBut, Arrives, Distinct;
    SameKeys(a.fields, b.fields);
    var ks, t := Keys(a.fields), Target(k);
    KeysAreAscending(a.fields);
    assert k in ks;
    var n :| 0 <= n < |ks| && ks[n] == k;
    InParts(d, a, n);
    InParts(d, b, n);
    VisitFires(d, a, n);
    VisitFires(d, b, n);
    LaterKeys(a, n);
    TargetIsShorter(k);
    SplitAt(ks, n);
    var x, y := MergeKeys(d, a, ks[..n]), MergeKeys(d, b, ks[..n]);
    SameStart(d, {k, t});
    RestSame(d, d, a, b, k, ks[..n], {k, t});
    OneMoreSame(x, y, a, b, k, k, {k, t});
    DistinctRest(ks, n);
    RestReplaces(MergeOne(x, a, k), MergeOne(y, b, k), a, b, k, t, ks[n + 1..]);
  }

  lemma DistinctRest(ks: seq<string>, n: nat)
    requires n < |ks| && Distinct(ks)
    ensures Distinct(ks[n + 1..])
  {
  }

  // ----- the main result

  lemma {:induction false} FiresWith(d: Object, a: Json, b: Json, k: string, j: string)
    requires Twins(a, b, k)
    ensures Fires(d, a, j) <==> Fires(d, b, j)
    decreases Earlier(a, j)
  {
    assert Earlier(a, j) == Earlier(b, j);
    forall i | i in Earlier(a, j)
      ensures Fires(d, a, i) <==> Fires(d, b, i)
    {
      EarlierShrinks(a, i, j);
      FiresWith(d, a, b, k, i);
    }
  }

  /** An array under a marked key arrives at its target, whatever is in it, if and only if the key fires and its target
      is not visited later. Otherwise what stands under the target afterwards does not depend on the array at all. */
  lemma ArrayKeyArrives(d: Object, src: Json, k: string)
    requires src.Obj? && k in src.fields && src.fields[k].Arr? && Marked(k)
    ensures (forall items: seq<Json> :: Arrives(Merged(d, With(src, k, items)), Target(k), items)) <==>
            FiresLast(d, src, k)
    ensures !FiresLast(d, src, k) ==>
              forall items: seq<Json> :: SameEntry(Merged(d, With(src, k, items)), Merged(d, src), Target(k))
  {
    hide Keys, Before, Marked, Target, Merged, Arrives, FiresLast, With;
    if FiresLast(d, src, k) {
      forall items: seq<Json>
        ensures Arrives(Merged(d, With(src, k, items)), Target(k), items)
      {
        WithArrives(d, src, k, items);
      }
    } else {
      forall items: seq<Json>
        ensures SameEntry(Merged(d, With(src, k, items)), Merged(d, src), Target(k))
      {
        WithIsSame(d, src, k, items);
      }
      var long := TooLong(Merged(d, src), Target(k));
      assert SameEntry(Merged(d, With(src, k, long)), Merged(d, src), Target(k));
      TooLongToArrive(Merged(d, src), Merged(d, With(src, k, long)), Target(k));
    }
  }

  lemma TwinsWith(src: Json, k: string, items: seq<Json>)
    requires src.Obj? && k in src.fields && src.fields[k].Arr?
    ensures Twins(src, With(src, k, items), k) && With(src, k, items).fields[k] == Arr(items)
  {
  }

  lemma WithArrives(d: Object, src: Json, k: string, items: seq<Json>)
    requires src.Obj? && FiresLast(d, src, k)
    ensures Arrives(Merged(d, With(src, k, items)), Target(k), items)
  {
    hide Before, Target, Merged, Arrives, With;
    TwinsWith(src, k, items);
    FiresWith(d, src, With(src, k, items), k, k);
    FiringLastArrives(d, With(src, k, items), k);
  }

  lemma WithIsSame(d: Object, src: Json, k: string, items: seq<Json>)
    requires src.Obj? && k in src.fields && src.fields[k].Arr? && Marked(k) && !FiresLast(d, src, k)
    ensures SameEntry(Merged(d, With(src, k, items)), Merged(d, src), Target(k))
  {
    hide Before, Target, Merged, With, Fires;
    var other := With(src, k, items);
    TwinsWith(src, k, items);
    FiresWith(d, src, other, k, k);
    TargetIsShorter(k);
    if Fires(d, src, k) {
      ReplacedIsSame(d, src, other, k);
    } else {
      NotFiringIsSame(d, src, other, k);
    }
  }

  /** More items than stand under t. */
  function TooLong(r: Object, t: string): seq<Json> {
    ItemsAt(r, t) + [Null]
  }

  lemma TooLongToArrive(r: Object, s: Object, t: string)
    requires SameEntry(s, r, t)
    ensures !Arrives(s, t, TooLong(r, t))
  {
  }
}
