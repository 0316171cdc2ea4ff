/** Merging a custom JSON object into a generated one: nested objects merge, `+key` and `key+` extend arrays, and
    everything else is replaced. Keys are visited in the order in which JSON objects list them. */
module JsonMerge {
  import opened Orders

  datatype Json = Null | Bool(b: bool) | Num(n: real) | Str(s: string) | Arr(items: seq<Json>) | Obj(fields: Object)

  type Object = map<string, Json>

  // ----- keys in order

  predicate Before(a: string, b: string) {
    b != "" && (a == "" || a[0] < b[0] || (a[0] == b[0] && Before(a[1..], b[1..])))
  }

  lemma {:induction false} BeforeIsTotal(a: string, b: string)
    ensures Before(a, b) || a == b || Before(b, a)
    ensures !(Before(a, b) && Before(b, a))
  {
    if a != "" && b != "" && a[0] == b[0] {
      BeforeIsTotal(a[1..], b[1..]);
      assert a == [a[0]] + a[1..] && b == [b[0]] + b[1..];
    }
  }

  lemma {:induction false} BeforeIsTransitive(a: string, b: string, c: string)
    requires Before(a, b) && Before(b, c)
    ensures Before(a, c)
  {
    if a != "" && a[0] == b[0] == c[0] {
      BeforeIsTransitive(a[1..], b[1..], c[1..]);
    }
  }

  lemma BeforeIsLinear()
    ensures Linear(Before)
  {
    forall a, b
      ensures (Before(a, b) || a == b || Before(b, a)) && !(Before(a, b) && Before(b, a))
    {
      BeforeIsTotal(a, b);
    }
    forall a, b, c | Before(a, b) && Before(b, c)
      ensures Before(a, c)
    {
      BeforeIsTransitive(a, b, c);
    }
  }

  /** The keys of a set, each once, in ascending order. */
  function KeyList(ks: set<string>): (list: seq<string>)
    ensures |list| == |ks| && Distinct(list)
    ensures forall k :: k in list <==> k in ks
    ensures forall i, j :: 0 <= i < j < |list| ==> Before(list[i], list[j])
  {
    if ks == {} then []
    else
      assert Linear(Before) by {
        BeforeIsLinear();
      }
      assert exists k :: IsLeast(Before, k, ks) by {
        var l := LeastExists(Before, ks);
      }
      assert forall a, b :: IsLeast(Before, a, ks) && IsLeast(Before, b, ks) ==> a == b by {
        forall a, b | IsLeast(Before, a, ks) && IsLeast(Before, b, ks)
          ensures a == b
        {
          LeastIsUnique(Before, ks, a, b);
        }
      }
      var k :| IsLeast(Before, k, ks);
      [k] + KeyList(ks - {k})
  }

  /** The keys of an object, in the order in which it lists them. */
  function Keys(o: Object): (list: seq<string>)
    ensures Distinct(list)
    ensures forall i :: 0 <= i < |list| ==> list[i] in o
    ensures o == map[] ==> list == []
  {
    KeyList(o.Keys)
  }

  lemma KeysAreAll(o: Object)
    ensures (set k | k in Keys(o)) == o.Keys
  {
  }

  lemma KeysAreAscending(o: Object)
    ensures forall k :: k in Keys(o) <==> k in o
    ensures forall i, j :: 0 <= i < j < |Keys(o)| ==> Before(Keys(o)[i], Keys(o)[j])
  {
  }

  // ----- array keys

  predicate StartsWithPlus(k: string) {
    k != "" && k[0] == '+'
  }

  predicate EndsWithPlus(k: string) {
    k != "" && k[|k| - 1] == '+'
  }

  /** The part of a key before its first plus sign. */
  function BeforePlus(k: string): (r: string)
    ensures |r| <= |k| && (EndsWithPlus(k) ==> |r| < |k|)
  {
    if k == "" || k[0] == '+' then "" else [k[0]] + BeforePlus(k[1..])
  }

  /** The part of a key after its first plus sign, or the key when it has none. */
  function AfterPlus(k: string): string {
    if |BeforePlus(k)| == |k| then k else k[|BeforePlus(k)| + 1..]
  }

  predicate Marked(k: string) {
    StartsWithPlus(k) || EndsWithPlus(k)
  }

  /** The key that an array under a marked key extends. */
  function Target(k: string): string {
    if StartsWithPlus(k) then AfterPlus(k) else BeforePlus(k)
  }

  function ItemsAt(d: Object, k: string): seq<Json> {
    if k in d && d[k].Arr? then d[k].items else []
  }

  function Extended(k: string, present: seq<Json>, more: seq<Json>): seq<Json> {
    if StartsWithPlus(k) then more + present else present + more
  }

  // ----- the merge

  function MergeOne(d: Object, src: Json, k: string): Object
    requires src.Obj? && k in src.fields
    decreases src, 0
  {
    var v := src.fields[k];
    if k in d then
      if v.Obj? && d[k].Obj? then d[k := Obj(Merged(d[k].fields, v))] else d[k := v]
    else if v.Arr? && Marked(k) then d[Target(k) := Arr(Extended(k, ItemsAt(d, Target(k)), v.items))]
    else d[k := v]
  }

  function MergeKeys(d: Object, src: Json, ks: seq<string>): Object
    requires src.Obj? && forall i :: 0 <= i < |ks| ==> ks[i] in src.fields
    decreases src, |ks|
  {
    if ks == [] then d else MergeOne(MergeKeys(d, src, ks[..|ks| - 1]), src, ks[|ks| - 1])
  }

  function Merged(d: Object, src: Json): Object
    requires src.Obj?
    decreases src, |src.fields| + 1
  {
    MergeKeys(d, src, Keys(src.fields))
  }

  method MergeJson(dst: Object, src: Json) returns (merged: Object)
    requires src.Obj?
    ensures merged == Merged(dst, src)
    decreases src, 1
  {
    hide MergeOne, Keys;
    merged := dst;
    if src.fields == map[] {
      return;
    }
    var keys := Keys(src.fields);
    for i := 0 to |keys|
      invariant merged == MergeKeys(dst, src, keys[..i])
    {
      assert keys[..i + 1][..i] == keys[..i];
      merged := MergeEntry(merged, src, keys[i]);
    }
    assert keys[..|keys|] == keys;
  }

  /** The body of the loop over the source's keys. */
  method MergeEntry(dst: Object, src: Json, key: string) returns (merged: Object)
    requires src.Obj? && key in src.fields
    ensures merged == MergeOne(dst, src, key)
    decreases src, 0
  {
    hide Merged, BeforePlus, AfterPlus;
    var vSrc := src.fields[key];
    if key in dst {
      var vDst := dst[key];
      if vSrc.Obj? && vDst.Obj? {
        var inner := MergeJson(vDst.fields, vSrc);
        merged := dst[key := Obj(inner)];
      } else {
        merged := dst[key := vSrc];
      }
    } else if vSrc.Arr? {
      if StartsWithPlus(key) {
        var key2 := AfterPlus(key);
        merged := dst[key2 := Arr(vSrc.items + ItemsAt(dst, key2))];
      } else if EndsWithPlus(key) {
        var key2 := BeforePlus(key);
        merged := dst[key2 := Arr(ItemsAt(dst, key2) + vSrc.items)];
      } else {
        merged := dst[key := vSrc];
      }
    } else {
      merged := dst[key := vSrc];
    }
  }

  // ----- objects without array keys

  /** No array stands under a marked key, here or in any nested object. */
  predicate Plain(src: Json) {
    src.Obj? ==> forall k :: k in src.fields ==> !(src.fields[k].Arr? && Marked(k)) && Plain(src.fields[k])
  }

  /** What a plain merge puts under a key of the source. */
  function Entry(d: Object, src: Json, k: string): Json
    requires src.Obj? && k in src.fields
  {
    var v := src.fields[k];
    if v.Obj? && k in d && d[k].Obj? then Obj(Merged(d[k].fields, v)) else v
  }

  lemma PlainMergeOne(d: Object, e: Object, src: Json, k: string)
    requires src.Obj? && Plain(src) && k in src.fields && SameEntry(d, e, k)
    ensures MergeOne(e, src, k) == e[k := Entry(d, src, k)]
  {
    hide Merged, Plain;
    PlainAt(src, k);
  }

  lemma {:induction false} PlainMergeKeys(d: Object, src: Json, ks: seq<string>)
    requires src.Obj? && Plain(src) && Distinct(ks) && forall i :: 0 <= i < |ks| ==> ks[i] in src.fields
    ensures MergeKeys(d, src, ks).Keys == d.Keys + set k | k in ks
    ensures forall k :: k in ks ==> MergeKeys(d, src, ks)[k] == Entry(d, src, k)
    ensures forall k :: k in d && k !in ks ==> MergeKeys(d, src, ks)[k] == d[k]
    decreases |ks|
  {
    if ks != [] {
      hide Merged, Plain, MergeOne, Entry, Distinct;
      var n := |ks| - 1;
      LastIsApart(ks);
      PlainMergeKeys(d, src, ks[..n]);
      PlainMergeOne(d, MergeKeys(d, src, ks[..n]), src, ks[n]);
    }
  }

  lemma LastIsApart(ks: seq<string>)
    requires ks != [] && Distinct(ks)
    ensures Distinct(ks[..|ks| - 1]) && ks[|ks| - 1] !in ks[..|ks| - 1]
    ensures forall k :: k in ks <==> k in ks[..|ks| - 1] || k == ks[|ks| - 1]
  {
    assert ks == ks[..|ks| - 1] + [ks[|ks| - 1]];
  }

  lemma PlainAt(src: Json, k: string)
    requires src.Obj? && Plain(src) && k in src.fields
    ensures !(src.fields[k].Arr? && Marked(k)) && Plain(src.fields[k])
  {
  }

  /** A plain merge key by key, whatever order the keys are visited in. */
  lemma PlainMerge(d: Object, src: Json)
    requires src.Obj? && Plain(src)
    ensures Merged(d, src).Keys == d.Keys + src.fields.Keys
    ensures forall k :: k in src.fields ==> Merged(d, src)[k] == Entry(d, src, k)
    ensures forall k :: k in d && k !in src.fields ==> Merged(d, src)[k] == d[k]
  {
    MergedIs(d, src);
    hide *;
    var ks := Keys(src.fields);
    PlainMergeKeys(d, src, ks);
    KeysAreAll(src.fields);
  }

  datatype Found = Found(value: Json) | Missing

  function Lookup(j: Json, path: seq<string>): Found {
    if path == [] then Found(j)
    else if j.Obj? && path[0] in j.fields then Lookup(j.fields[path[0]], path[1..])
    else Missing
  }

  /** Every leaf of the source is found at its path in the result. */
  lemma {:induction false} LeavesArrive(d: Object, src: Json, path: seq<string>)
    requires src.Obj? && Plain(src) && Lookup(src, path).Found? && !Lookup(src, path).value.Obj?
    ensures Lookup(Obj(Merged(d, src)), path) == Lookup(src, path)
    decreases |path|
  {
    hide Merged, Plain;
    PlainMerge(d, src);
    PlainAt(src, path[0]);
    var v := src.fields[path[0]];
    if v.Obj? && path[0] in d && d[path[0]].Obj? {
      LeavesArrive(d[path[0]].fields, v, path[1..]);
    }
  }

  /** The source reaches the path nowhere: it leaves it through an object that lacks the next key. */
  predicate Untouched(src: Json, path: seq<string>) {
    path != [] && src.Obj? && (path[0] !in src.fields || Untouched(src.fields[path[0]], path[1..]))
  }

  lemma {:induction false} UntouchedIsMissing(src: Json, path: seq<string>)
    requires Untouched(src, path)
    ensures Lookup(src, path) == Missing
  {
    if path[0] in src.fields {
      UntouchedIsMissing(src.fields[path[0]], path[1..]);
    }
  }

  /** What the source does not reach is as it was, and what was missing there still is. */
  lemma {:induction false} RestIsKept(d: Object, src: Json, path: seq<string>)
    requires src.Obj? && Plain(src) && Untouched(src, path)
    ensures Lookup(Obj(Merged(d, src)), path) == Lookup(Obj(d), path)
    decreases |path|
  {
    hide Merged, Plain;
    PlainMerge(d, src);
    if path[0] in src.fields {
      var v := src.fields[path[0]];
      PlainAt(src, path[0]);
      UntouchedIsMissing(v, path[1..]);
      if path[0] in d && d[path[0]].Obj? {
        RestIsKept(d[path[0]].fields, v, path[1..]);
      }
    }
  }

  lemma {:induction false} MergingWithItself(src: Json)
    requires src.Obj? && Plain(src)
    ensures Merged(src.fields, src) == src.fields
  {
    hide Merged, Plain;
    PlainMerge(src.fields, src);
    forall k | k in src.fields
      ensures Merged(src.fields, src)[k] == src.fields[k]
    {
      PlainAt(src, k);
      if src.fields[k].Obj? {
        MergingWithItself(src.fields[k]);
      }
    }
  }

  /** Merging the same plain source twice is merging it once. */
  lemma {:induction false} MergingIsIdempotent(d: Object, src: Json)
    requires src.Obj? && Plain(src)
    ensures Merged(Merged(d, src), src) == Merged(d, src)
    decreases src
  {
    hide Merged, Plain;
    var once := Merged(d, src);
    PlainMerge(d, src);
    PlainMerge(once, src);
    forall k | k in src.fields
      ensures Entry(once, src, k) == once[k]
    {
      PlainAt(src, k);
      var v := src.fields[k];
      if v.Obj? {
        if k in d && d[k].Obj? {
          MergingIsIdempotent(d[k].fields, v);
        } else {
          MergingWithItself(v);
        }
      }
    }
  }

  // ----- merging in parts

  ghost predicate SameEntry(d: Object, e: Object, k: string) {
    (k in d <==> k in e) && (k in d ==> d[k] == e[k])
  }

  /** The keys of the result that a source key may write. */
  predicate MayWrite(src: Json, k: string, written: string)
    requires src.Obj? && k in src.fields
  {
    written == k || (src.fields[k].Arr? && Marked(k) && written == Target(k))
  }

  lemma {:induction false} UnwrittenKeysStay(d: Object, src: Json, ks: seq<string>, written: string)
    requires src.Obj? && forall i :: 0 <= i < |ks| ==> ks[i] in src.fields && !MayWrite(src, ks[i], written)
    ensures SameEntry(MergeKeys(d, src, ks), d, written)
    decreases |ks|
  {
    if ks != [] {
      hide Merged;
      UnwrittenKeysStay(d, src, ks[..|ks| - 1], written);
    }
  }

  lemma {:induction false} MergeKeysJoins(d: Object, src: Json, a: seq<string>, b: seq<string>)
    requires src.Obj? && (forall i :: 0 <= i < |a| ==> a[i] in src.fields)
    requires forall i :: 0 <= i < |b| ==> b[i] in src.fields
    ensures (forall i :: 0 <= i < |a + b| ==> (a + b)[i] in src.fields)
    ensures MergeKeys(d, src, a + b) == MergeKeys(MergeKeys(d, src, a), src, b)
    decreases |b|
  {
    if b == [] {
      assert a + b == a;
    } else {
      hide MergeOne;
      var n := |b| - 1;
      MergeKeysJoins(d, src, a, b[..n]);
      assert (a + b)[..|a + b| - 1] == a + b[..n];
    }
  }

  lemma MergeSingle(d: Object, src: Json, k: string)
    requires src.Obj? && k in src.fields
    ensures MergeKeys(d, src, [k]) == MergeOne(d, src, k)
  {
    hide MergeOne;
    assert [k][..0] == [];
    assert MergeKeys(d, src, [k][..0]) == d;
  }

  lemma MergedIs(d: Object, src: Json)
    requires src.Obj?
    ensures Merged(d, src) == MergeKeys(d, src, Keys(src.fields))
  {
  }
}
