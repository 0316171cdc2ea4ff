/** What stands under t after a merge with arrays under `+t`, under `t+`, or under both, and an entry under t or none.
    */
module JsonArrayValues {
  import opened JsonArrayKeys
  import opened JsonMerge
  import opened Orders

  // ----- keys that write neither an array key nor its target

  /** A source key that writes neither the key k nor its target. */
  predicate Spares(src: Json, j: string, k: string)
    requires src.Obj? && j in src.fields
  {
    !MayWrite(src, j, k) && !MayWrite(src, j, Target(k))
  }

  lemma SplitAtTwo(ks: seq<string>, i: nat, j: nat)
    requires i < j < |ks| && Distinct(ks)
    ensures ks == ks[..i] + [ks[i]] + ks[i + 1..j] + [ks[j]] + ks[j + 1..]
    ensures forall k :: k in ks[..i] || k in ks[i + 1..j] || k in ks[j + 1..] ==> k in ks && k != ks[i] && k != ks[j]
  {
  }

  lemma ArrayKeyAmong(d: Object, src: Json, a: seq<string>, k: string, b: seq<string>)
    requires src.Obj? && ArrayKey(d, src, k)
    requires forall j :: j in a || j in b ==> j in src.fields && Spares(src, j, k)
    ensures (forall i :: 0 <= i < |a + [k] + b| ==> (a + [k] + b)[i] in src.fields)
    ensures var r := MergeKeys(d, src, a + [k] + b); var t := Target(k);
            t in r && r[t] == Arr(Extended(k, ItemsAt(d, t), src.fields[k].items))
  {
    hide MergeKeys, Merged, Marked, MayWrite, Target, Extended;
    var t := Target(k);
    MergeKeysJoins(d, src, a, [k]);
    MergeKeysJoins(d, src, a + [k], b);
    var before := MergeKeys(d, src, a);
    UnwrittenKeysStay(d, src, a, k);
    UnwrittenKeysStay(d, src, a, t);
    MergeSingle(before, src, k);
    UnwrittenKeysStay(MergeKeys(d, src, a + [k]), src, b, t);
  }

  /** What stands under t, as far as it is an array, once the source's own entry there, if any, has been visited. */
  function Standing(d: Object, src: Json, t: string): seq<Json>
    requires src.Obj?
  {
    if t !in src.fields then ItemsAt(d, t)
    else if t !in d && src.fields[t].Arr? && Marked(t) then []
    else ItemsAt(src.fields, t)
  }

  /** The visit to t among keys that do not write there. */
  lemma TargetAmong(d: Object, src: Json, p: seq<string>, t: string, q: seq<string>)
    requires src.Obj? && t in src.fields
    requires forall j :: j in p || j in q ==> j in src.fields && !MayWrite(src, j, t)
    ensures (forall i :: 0 <= i < |p + [t] + q| ==> (p + [t] + q)[i] in src.fields)
    ensures var e := MergeKeys(d, src, p + [t] + q);
            && ItemsAt(e, t) == Standing(d, src, t)
            && (t in d && d[t].Arr? ==> t in e && e[t] == src.fields[t])
  {
    hide MergeKeys, Marked, MayWrite, Merged;
    MergeKeysJoins(d, src, p, [t]);
    MergeKeysJoins(d, src, p + [t], q);
    UnwrittenKeysStay(d, src, p, t);
    MergeSingle(MergeKeys(d, src, p), src, t);
    TargetVisited(MergeKeys(d, src, p), src, t);
    UnwrittenKeysStay(MergeKeys(d, src, p + [t]), src, q, t);
  }

  lemma TargetVisited(d: Object, src: Json, t: string)
    requires src.Obj? && t in src.fields
    ensures ItemsAt(MergeOne(d, src, t), t) == Standing(d, src, t)
    ensures t in d && d[t].Arr? ==> t in MergeOne(d, src, t) && MergeOne(d, src, t)[t] == src.fields[t]
  {
    hide Target, Merged, Extended;
    if t !in d && src.fields[t].Arr? && Marked(t) {
      TargetIsShorter(t);
    }
  }

  /** The array under a marked key is put before (`+t`) or after (`t+`) the one that stands under t; but when the source
      has an entry under t that is visited later, that entry is all that is left. */
  lemma ArrayKeysExtend(d: Object, src: Json, k: string)
    requires src.Obj? && ArrayKey(d, src, k)
    requires forall j :: j in src.fields && j != k && j != Target(k) ==> Spares(src, j, k)
    ensures var r, t := Merged(d, src), Target(k);
            && t in r
            && r[t] == if t in src.fields && Before(k, t) then src.fields[t]
                       else Arr(Extended(k, Standing(d, src, t), src.fields[k].items))
  {
    hide Keys, Before, MergeKeys, Merged, Standing, Extended, Target, MayWrite, Spares;
    MergedIs(d, src);
    TargetIsShorter(k);
    var ks, t := Keys(src.fields), Target(k);
    var i := PlaceOf(src.fields, k);
    if t in src.fields {
      var m := PlaceOf(src.fields, t);
      PlacesInOrder(src.fields, i, m);
      if i < m {
        SplitAtTwo(ks, i, m);
        ReplacedAmong(d, src, ks[..i], k, ks[i + 1..m], ks[m + 1..]);
      } else {
        SplitAtTwo(ks, m, i);
        ExtendedAmong(d, src, ks[..m], k, ks[m + 1..i], ks[i + 1..]);
      }
    } else {
      SplitAt(ks, i);
      StandingWithout(d, src, t);
      ArrayKeyAmong(d, src, ks[..i], k, ks[i + 1..]);
    }
  }

  lemma PlaceOf(o: Object, k: string) returns (i: nat)
    requires k in o
    ensures i < |Keys(o)| && Keys(o)[i] == k && forall x :: x in Keys(o) ==> x in o
  {
    hide Keys, Before;
    KeysAreAscending(o);
    assert k in Keys(o);
    i :| 0 <= i < |Keys(o)| && Keys(o)[i] == k;
  }

  lemma PlacesInOrder(o: Object, i: nat, m: nat)
    requires i < |Keys(o)| && m < |Keys(o)| && i != m
    ensures Before(Keys(o)[i], Keys(o)[m]) <==> i < m
  {
    hide Keys, Before;
    KeysAreAscending(o);
    BeforeIsTotal(Keys(o)[i], Keys(o)[m]);
  }

  lemma StandingWithout(d: Object, src: Json, t: string)
    requires src.Obj? && t !in src.fields
    ensures Standing(d, src, t) == ItemsAt(d, t)
  {
  }

  /** A target writes no key that is longer. */
  lemma TargetSparesKey(src: Json, t: string, k: string)
    requires src.Obj? && t in src.fields && |t| < |k|
    ensures !MayWrite(src, t, k)
  {
    if Marked(t) {
      TargetIsShorter(t);
    }
  }

  lemma ReplacedAmong(d: Object, src: Json, p: seq<string>, k: string, q: seq<string>, r: seq<string>)
    requires src.Obj? && ArrayKey(d, src, k) && Target(k) in src.fields
    requires forall j :: j in p || j in q || j in r ==> j in src.fields && Spares(src, j, k)
    ensures var t := Target(k);
            && (forall i :: 0 <= i < |p + [k] + q + [t] + r| ==> (p + [k] + q + [t] + r)[i] in src.fields)
            && var e := MergeKeys(d, src, p + [k] + q + [t] + r);
               t in e && e[t] == src.fields[t]
  {
    hide MergeKeys, Marked, MayWrite, Merged, Target, Extended;
    var front, t := p + [k] + q, Target(k);
    ArrayKeyAmong(d, src, p, k, q);
    TargetAmong(MergeKeys(d, src, front), src, [], t, r);
    assert [] + [t] + r == [t] + r;
    MergeKeysJoins(d, src, front, [t] + r);
    assert front + ([t] + r) == front + [t] + r;
  }

  lemma ExtendedAmong(d: Object, src: Json, p: seq<string>, k: string, q: seq<string>, r: seq<string>)
    requires src.Obj? && ArrayKey(d, src, k) && Target(k) in src.fields && |Target(k)| < |k|
    requires forall j :: j in p || j in q || j in r ==> j in src.fields && Spares(src, j, k)
    ensures var t := Target(k);
            && (forall i :: 0 <= i < |p + [t] + q + [k] + r| ==> (p + [t] + q + [k] + r)[i] in src.fields)
            && var e := MergeKeys(d, src, p + [t] + q + [k] + r);
               t in e && e[t] == Arr(Extended(k, Standing(d, src, t), src.fields[k].items))
  {
    hide MergeKeys, Marked, MayWrite, Merged, Target, Extended, Standing;
    var t := Target(k);
    var front := p + [t] + q;
    TargetAmong(d, src, p, t, q);
    TargetSparesKey(src, t, k);
    UnwrittenKeysStay(d, src, front, k);
    ArrayKeyAmong(MergeKeys(d, src, front), src, [], k, r);
    assert [] + [k] + r == [k] + r;
    MergeKeysJoins(d, src, front, [k] + r);
    assert front + ([k] + r) == front + [k] + r;
  }

  lemma ExtendedBoth(before: string, after: string, present: seq<Json>, a: seq<Json>, b: seq<Json>)
    requires StartsWithPlus(before) && !StartsWithPlus(after)
    ensures before != after
    ensures Extended(after, Extended(before, present, a), b) == a + present + b
    ensures Extended(before, Extended(after, present, b), a) == a + present + b
  {
    assert a + (present + b) == a + present + b;
  }

  lemma ArrayKeyPair(d: Object, src: Json, p: seq<string>, x: string, q: seq<string>, y: string, r: seq<string>)
    requires src.Obj? && x != y && ArrayKey(d, src, x) && ArrayKey(d, src, y) && Target(x) == Target(y)
    requires |Target(x)| < |x| && |Target(x)| < |y|
    requires forall j :: j in p || j in q || j in r ==> j in src.fields && Spares(src, j, x) && Spares(src, j, y)
    ensures (forall i :: 0 <= i < |p + [x] + q + [y] + r| ==> (p + [x] + q + [y] + r)[i] in src.fields)
    ensures var m, t := MergeKeys(d, src, p + [x] + q + [y] + r), Target(x);
            t in m && m[t] == Arr(Extended(y, Extended(x, ItemsAt(d, t), src.fields[x].items), src.fields[y].items))
  {
    hide MergeKeys, Merged, Marked, Target, Extended;
    var first := p + [x] + q;
    ArrayKeyAmong(d, src, p, x, q);
    var e := MergeKeys(d, src, first);
    UnwrittenKeysStay(d, src, first, y);
    ArrayKeyAmong(e, src, [], y, r);
    assert [] + [y] + r == [y] + r;
    MergeKeysJoins(d, src, first, [y] + r);
    assert first + ([y] + r) == first + [y] + r;
  }

  lemma ArrayKeysAt(d: Object, src: Json, ks: seq<string>, i: nat, j: nat)
    requires i < j < |ks| && Distinct(ks) && src.Obj? && forall n :: 0 <= n < |ks| ==> ks[n] in src.fields
    requires ArrayKey(d, src, ks[i]) && ArrayKey(d, src, ks[j]) && Target(ks[i]) == Target(ks[j])
    requires forall k :: k in ks && k != ks[i] && k != ks[j] ==> Spares(src, k, ks[i]) && Spares(src, k, ks[j])
    ensures var m, t := MergeKeys(d, src, ks), Target(ks[i]);
            t in m && m[t] == Arr(Extended(ks[j], Extended(ks[i], ItemsAt(d, t), src.fields[ks[i]].items),
                                           src.fields[ks[j]].items))
  {
    hide MergeKeys, Spares, Target, Extended;
    TargetIsShorter(ks[i]);
    TargetIsShorter(ks[j]);
    SplitAtTwo(ks, i, j);
    ArrayKeyPair(d, src, ks[..i], ks[i], ks[i + 1..j], ks[j], ks[j + 1..]);
  }

  /** What both array keys of t leave under t when they are among these keys, and t itself is not. */
  lemma BothAmong(d: Object, src: Json, ks: seq<string>, before: string, after: string)
    requires src.Obj? && Distinct(ks) && before in ks && after in ks
    requires forall n :: 0 <= n < |ks| ==> ks[n] in src.fields
    requires StartsWithPlus(before) && !StartsWithPlus(after)
    requires ArrayKey(d, src, before) && ArrayKey(d, src, after) && Target(before) == Target(after)
    requires forall k :: k in ks && k != before && k != after ==> Spares(src, k, before) && Spares(src, k, after)
    ensures var m, t := MergeKeys(d, src, ks), Target(before);
            t in m && m[t] == Arr(src.fields[before].items + ItemsAt(d, t) + src.fields[after].items)
  {
    hide MergeKeys, Target, Spares, Extended, Distinct;
    var i :| 0 <= i < |ks| && ks[i] == before;
    var j :| 0 <= j < |ks| && ks[j] == after;
    ExtendedBoth(before, after, ItemsAt(d, Target(before)), src.fields[before].items, src.fields[after].items);
    if i < j {
      ArrayKeysAt(d, src, ks, i, j);
    } else {
      ArrayKeysAt(d, src, ks, j, i);
    }
  }

  /** The keys up to m and those after it. */
  lemma TwoParts(d: Object, src: Json, ks: seq<string>, m: nat)
    requires src.Obj? && m < |ks| && Distinct(ks) && forall i :: 0 <= i < |ks| ==> ks[i] in src.fields
    ensures var front, rest := ks[..m + 1], ks[m + 1..];
            && (forall i :: 0 <= i < |front| ==> front[i] in src.fields)
            && (forall i :: 0 <= i < |rest| ==> rest[i] in src.fields)
            && MergeKeys(d, src, ks) == MergeKeys(MergeKeys(d, src, front), src, rest)
            && Distinct(rest) && front == ks[..m] + [ks[m]] + []
  {
    hide MergeKeys;
    assert ks[..m + 1] + ks[m + 1..] == ks;
    MergeKeysJoins(d, src, ks[..m + 1], ks[m + 1..]);
  }

  lemma ReplacedFront(d: Object, src: Json, ks: seq<string>, i: nat, m: nat)
    requires src.Obj? && Distinct(ks) && i < m < |ks| && forall n :: 0 <= n < |ks| ==> ks[n] in src.fields
    requires ArrayKey(d, src, ks[i]) && Target(ks[i]) == ks[m]
    requires forall k :: k in ks[..m] && k != ks[i] ==> Spares(src, k, ks[i])
    ensures var front := ks[..m + 1];
            && (forall n :: 0 <= n < |front| ==> front[n] in src.fields)
            && var e := MergeKeys(d, src, front); ks[m] in e && e[ks[m]] == src.fields[ks[m]]
  {
    hide MergeKeys, Target, MayWrite, Marked, Spares;
    SplitAtTwo(ks, i, m);
    FrontOf(ks, i, m);
    ReplacedAmong(d, src, ks[..i], ks[i], ks[i + 1..m], []);
  }

  /** The keys up to the target write no array key of it that is visited later. */
  lemma FrontSpares(src: Json, ks: seq<string>, m: nat, k: string)
    requires src.Obj? && m < |ks| && (forall n :: 0 <= n < |ks| ==> ks[n] in src.fields) && |ks[m]| < |k|
    requires forall j :: j in ks[..m] ==> j in src.fields && !MayWrite(src, j, k)
    ensures var front := ks[..m + 1];
            forall n :: 0 <= n < |front| ==> front[n] in src.fields && !MayWrite(src, front[n], k)
  {
    hide MayWrite;
    TargetSparesKey(src, ks[m], k);
    var front := ks[..m + 1];
    forall n | 0 <= n < |front|
      ensures front[n] in src.fields && !MayWrite(src, front[n], k)
    {
      assert n < m ==> front[n] == ks[..m][n];
    }
  }

  lemma FrontIsApart(ks: seq<string>, m: nat)
    requires m < |ks| && Distinct(ks)
    ensures forall x :: x in ks[..m] ==> x in ks && x != ks[m] && x !in ks[m + 1..]
    ensures forall x :: x in ks[m + 1..] ==> x in ks && x != ks[m]
  {
  }

  lemma MeetReplaced(d: Object, src: Json, ks: seq<string>, i: nat, m: nat, j: nat)
    requires src.Obj? && Distinct(ks) && i < m < j < |ks| && forall n :: 0 <= n < |ks| ==> ks[n] in src.fields
    requires ArrayKey(d, src, ks[i]) && ArrayKey(d, src, ks[j]) && Target(ks[i]) == Target(ks[j]) == ks[m]
    requires !StartsWithPlus(ks[j])
    requires forall k :: k in ks && k != ks[i] && k != ks[m] && k != ks[j] ==>
               Spares(src, k, ks[i]) && Spares(src, k, ks[j])
    ensures var r, t := MergeKeys(d, src, ks), ks[m];
            t in r && r[t] == Arr(ItemsAt(src.fields, t) + src.fields[ks[j]].items)
  {
    hide MergeKeys, Target, Extended, MayWrite, Marked, StartsWithPlus;
    var t, after, rest := ks[m], ks[j], ks[m + 1..];
    TargetIsShorter(after);
    TwoParts(d, src, ks, m);
    FrontIsApart(ks, m);
    assert rest[j - m - 1] == after;
    ReplacedFront(d, src, ks, i, m);
    KeySparesKey(src, ks[i], after);
    FrontSpares(src, ks, m, after);
    var e := MergeKeys(d, src, ks[..m + 1]);
    UnwrittenKeysStay(d, src, ks[..m + 1], after);
    AfterAmong(e, src, rest, j - m - 1);
  }

  lemma AfterAmong(e: Object, src: Json, rest: seq<string>, j: nat)
    requires src.Obj? && Distinct(rest) && j < |rest| && forall n :: 0 <= n < |rest| ==> rest[n] in src.fields
    requires ArrayKey(e, src, rest[j]) && !StartsWithPlus(rest[j])
    requires forall k :: k in rest && k != rest[j] ==> Spares(src, k, rest[j])
    ensures var r, t := MergeKeys(e, src, rest), Target(rest[j]);
            t in r && r[t] == Arr(ItemsAt(e, t) + src.fields[rest[j]].items)
  {
    hide MergeKeys, Target, Spares;
    SplitAt(rest, j);
    ArrayKeyAmong(e, src, rest[..j], rest[j], rest[j + 1..]);
  }

  lemma FrontOf(ks: seq<string>, i: nat, m: nat)
    requires i < m < |ks|
    ensures ks[..m + 1] == ks[..i] + [ks[i]] + ks[i + 1..m] + [ks[m]] + []
  {
  }

  /** One array key of a target does not write another. */
  lemma KeySparesKey(src: Json, x: string, y: string)
    requires src.Obj? && x in src.fields && x != y && Target(x) == Target(y) && |Target(y)| < |y|
    ensures !MayWrite(src, x, y)
  {
    hide Target;
  }

  lemma MeetAfter(d: Object, src: Json, ks: seq<string>, m: nat, before: string, after: string)
    requires src.Obj? && Distinct(ks) && m < |ks| && forall n :: 0 <= n < |ks| ==> ks[n] in src.fields
    requires StartsWithPlus(before) && !StartsWithPlus(after) && before in ks[m + 1..] && after in ks[m + 1..]
    requires ArrayKey(d, src, before) && ArrayKey(d, src, after) && Target(before) == Target(after) == ks[m]
    requires forall k :: k in ks && k != before && k != ks[m] && k != after ==>
               Spares(src, k, before) && Spares(src, k, after)
    ensures var r, t := MergeKeys(d, src, ks), ks[m];
            t in r && r[t] == Arr(src.fields[before].items + ItemsAt(src.fields, t) + src.fields[after].items)
  {
    hide MergeKeys, Target, Extended, MayWrite, Marked, StartsWithPlus;
    var t, front, rest := ks[m], ks[..m + 1], ks[m + 1..];
    TargetIsShorter(before);
    TargetIsShorter(after);
    TwoParts(d, src, ks, m);
    FrontIsApart(ks, m);
    TargetAmong(d, src, ks[..m], t, []);
    var e := MergeKeys(d, src, front);
    FrontSpares(src, ks, m, before);
    FrontSpares(src, ks, m, after);
    UnwrittenKeysStay(d, src, front, before);
    UnwrittenKeysStay(d, src, front, after);
    BothAmong(e, src, rest, before, after);
    TargetIsUnmarked(after);
  }

  lemma TargetIsUnmarked(k: string)
    requires !StartsWithPlus(k)
    ensures !Marked(Target(k))
  {
    BeforePlusIsPrefix(k);
  }

  /** With an array under `+t` and one under `t+`, the one that stands under t comes to stand between them; but when the
      source has an entry under t that is visited after `+t`, the array under `+t` is lost. */
  lemma ArrayKeysMeet(d: Object, src: Json, before: string, after: string)
    requires src.Obj? && StartsWithPlus(before) && !StartsWithPlus(after)
    requires ArrayKey(d, src, before) && ArrayKey(d, src, after) && Target(before) == Target(after)
    requires forall j :: j in src.fields && j != before && j != after && j != Target(before) ==>
               Spares(src, j, before) && Spares(src, j, after)
    ensures var r, t := Merged(d, src), Target(before);
            && t in r
            && r[t] == Arr((if t in src.fields && Before(before, t) then [] else src.fields[before].items)
                           + ItemsAt(if t in src.fields then src.fields else d, t) + src.fields[after].items)
  {
    hide Keys, Before, MergeKeys, Merged, Target, MayWrite, Spares, StartsWithPlus;
    MergedIs(d, src);
    var ks, t := Keys(src.fields), Target(before);
    var i := PlaceOf(src.fields, before);
    var j := PlaceOf(src.fields, after);
    if t in src.fields {
      var m := PlaceOf(src.fields, t);
      TargetIsShorter(before);
      TargetIsShorter(after);
      TargetComesFirst(after);
      PlacesInOrder(src.fields, m, j);
      PlacesInOrder(src.fields, i, m);
      if i < m {
        MeetReplaced(d, src, ks, i, m, j);
      } else {
        MeetAfter(d, src, ks, m, before, after);
      }
    } else {
      BothAmong(d, src, ks, before, after);
    }
  }

  // ----- an array that is lost

  const OLD := map["a" := Arr([])]
  const CUSTOM := Obj(map["+a" := Arr([Null]), "a" := Arr([Bool(true)])])

  lemma PlusA()
    ensures StartsWithPlus("+a") && Marked("+a") && Target("+a") == "a" && Before("+a", "a")
  {
    var k := "+a";
    assert BeforePlus(k) == "" && AfterPlus(k) == k[1..];
    assert k[1..] == "a";
  }

  /** A source with arrays under `+a` and `a`: the first is written to a before the second replaces it. */
  lemma BeforeKeyIsLost()
    ensures Target("+a") == "a" && ArrayKey(OLD, CUSTOM, "+a") && !FiresLast(OLD, CUSTOM, "+a")
    ensures var r := Merged(OLD, CUSTOM); "a" in r && r["a"] == Arr([Bool(true)])
  {
    hide Target, Marked, Before, Merged, Standing, Extended, StartsWithPlus;
    PlusA();
    assert "+a" != "a" by {
      assert |"+a"| != |"a"|;
    }
    ArrayKeysExtend(OLD, CUSTOM, "+a");
  }
}
