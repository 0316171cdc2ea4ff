/** The outbounds of one chain form one path: it starts at the tag handed back and visits every proxy, in list order. */
module ProxyPath {
  import opened JsonMerge
  import opened Options
  import opened Orders
  import opened ProxyChain

  // ----- following a finished configuration, without reference to how it was built

  function OutboundAt(outbounds: seq<Object>, tag: string): Option<Object> {
    if outbounds == [] then None
    else if "tag" in outbounds[0] && outbounds[0]["tag"] == Str(tag) then Some(outbounds[0])
    else OutboundAt(outbounds[1..], tag)
  }

  function RuleFor(rules: seq<Rule>, inbound: string): Option<string> {
    if rules == [] then None
    else if rules[0].inbound == inbound then Some(rules[0].outbound)
    else RuleFor(rules[1..], inbound)
  }

  /** Where traffic goes after the outbound with a tag: to its detour, else where its mapping inbound is routed to. */
  function Next(b: Build, tag: string): Option<string> {
    var o := OutboundAt(b.outbounds, tag);
    if o.Some? && "detour" in o.value && o.value["detour"].Str? then Some(o.value["detour"].s)
    else RuleFor(b.rules, tag + "-mapping")
  }

  /** The tags met from a tag on, at most `hops` steps away. */
  function Walk(b: Build, tag: string, hops: nat): seq<string>
    decreases hops
  {
    if hops == 0 || Next(b, tag).None? then [tag] else [tag] + Walk(b, Next(b, tag).value, hops - 1)
  }

  predicate HasInbound(b: Build, tag: string) {
    exists i :: 0 <= i < |b.inbounds| && b.inbounds[i].tag == tag
  }

  // ----- the names of a chain

  function TagAt(ents: seq<Entity>, k: nat): string
    requires k < |ents|
  {
    TagFor(0, ents[k].id, k, k + 1 == |ents|)
  }

  function StatAt(ents: seq<Entity>, k: nat): int
    requires k < |ents|
  {
    External(ents[k], k + 1 == |ents|)
  }

  /** Where a proxy hands its traffic: to the next, and the last one out. */
  function After(ents: seq<Entity>, k: nat): string
    requires k < |ents|
  {
    if k + 1 < |ents| then TagAt(ents, k + 1) else "direct"
  }

  function Tags(ents: seq<Entity>): seq<string> {
    seq(|ents|, k requires 0 <= k < |ents| => TagAt(ents, k))
  }

  predicate MiddleIdsDiffer(ents: seq<Entity>) {
    forall i, j :: 0 < i < j < |ents| - 1 ==> ents[i].id != ents[j].id
  }

  lemma TagsDifferFor(ents: seq<Entity>, i: nat, j: nat)
    requires i < j < |ents| && TagAt(ents, i) == TagAt(ents, j)
    ensures 0 < i && j + 1 < |ents| && ents[i].id == ents[j].id
  {
    var a, b := TagAt(ents, i), TagAt(ents, j);
    assert a[0] == if i == 0 then 'p' else 'c';
    assert b[0] == if j + 1 == |ents| then 'g' else 'c';
    var prefix := "c-" + Decimal(0) + "-";
    assert a[|prefix|..] == Decimal(ents[i].id) && b[|prefix|..] == Decimal(ents[j].id);
    DecimalIsInjective(ents[i].id, ents[j].id);
  }

  /** The tags of a chain are unique exactly when the proxies strictly inside it have different ids. */
  lemma TagsAreUnique(ents: seq<Entity>)
    ensures Distinct(Tags(ents)) <==> MiddleIdsDiffer(ents)
  {
    hide TagFor;
    var tags := Tags(ents);
    if MiddleIdsDiffer(ents) {
      forall i, j | 0 <= i < j < |tags|
        ensures tags[i] != tags[j]
      {
        if tags[i] == tags[j] {
          TagsDifferFor(ents, i, j);
        }
      }
    }
    if Distinct(tags) {
      forall i, j | 0 < i < j < |ents| - 1
        ensures ents[i].id != ents[j].id
      {
        assert tags[i] != tags[j];
        SameIdSameTag(ents, i, j);
      }
    }
  }

  lemma SameIdSameTag(ents: seq<Entity>, i: nat, j: nat)
    requires 0 < i < j < |ents| - 1
    ensures ents[i].id == ents[j].id ==> TagAt(ents, i) == TagAt(ents, j)
  {
  }

  // ----- what a custom outbound may not touch

  predicate Writes(custom: Json, written: string)
    requires custom.Obj?
  {
    exists k :: k in custom.fields && MayWrite(custom, k, written)
  }

  /** Neither the core object nor the custom fields of the proxy interfere with the links of the chain. */
  predicate LeavesLinks(e: Entity) {
    "detour" !in e.core && !Writes(CustomFields(e), "tag") && !Writes(CustomFields(e), "detour")
  }

  lemma UnwrittenInMerge(d: Object, custom: Json, key: string)
    requires custom.Obj? && !Writes(custom, key)
    ensures SameEntry(Merged(d, custom), d, key)
  {
    hide MayWrite, MergeKeys, SameEntry;
    var ks := Keys(custom.fields);
    assert forall i :: 0 <= i < |ks| ==> ks[i] in custom.fields && !MayWrite(custom, ks[i], key);
    UnwrittenKeysStay(d, custom, ks, key);
    MergedIs(d, custom);
  }

  lemma OutboundLinks(e: Entity, tagOut: string, isFirst: bool, muxApplied: bool, settings: Settings)
    requires LeavesLinks(e)
    ensures var o := Outbound(e, tagOut, isFirst, muxApplied, settings);
            "tag" in o && o["tag"] == Str(tagOut) && "detour" !in o
  {
    hide Merged, Writes;
    var raw := if External(e, isFirst) > 0 then SocksOutbound(e.socksPort) else e.core;
    var tagged := raw["tag" := Str(tagOut)]["domain_strategy" := settings.domainStrategy];
    var muxed := if !muxApplied && e.wantsMux then tagged["multiplex" := settings.mux] else tagged;
    UnwrittenInMerge(muxed, CustomFields(e), "tag");
    UnwrittenInMerge(muxed, CustomFields(e), "detour");
  }

  // ----- the build, proxy by proxy

  /** The outbound of proxy j when k proxies are in place. */
  predicate OutboundIsLinked(o: Object, ents: seq<Entity>, j: nat, k: nat)
    requires j < k <= |ents|
  {
    && "tag" in o && o["tag"] == Str(TagAt(ents, j))
    && (if j + 1 < k && StatAt(ents, j) == 0 then "detour" in o && o["detour"] == Str(TagAt(ents, j + 1))
        else "detour" !in o)
  }

  /** A rule of the chain: it leads on from a proxy that has a mapping inbound, or from a proxy that connects by
      itself in the middle of the chain. */
  predicate RuleFrom(r: Rule, ents: seq<Entity>, j: nat)
    requires j < |ents|
  {
    && r == Rule(TagAt(ents, j) + "-mapping", After(ents, j))
    && StatAt(ents, j) > 0 && (j + 1 == |ents| ==> StatAt(ents, j) == 1)
  }

  predicate IsChainRule(r: Rule, ents: seq<Entity>, k: nat)
    requires k <= |ents|
  {
    exists j :: 0 <= j < k && RuleFrom(r, ents, j)
  }

  predicate RulesAreThere(b: Build, ents: seq<Entity>, k: nat)
    requires k <= |ents|
  {
    && (forall j :: 0 <= j < k - 1 && StatAt(ents, j) > 0 ==>
          Rule(TagAt(ents, j) + "-mapping", After(ents, j)) in b.rules)
    && (0 < k == |ents| && StatAt(ents, k - 1) == 1 ==>
          Rule(TagAt(ents, k - 1) + "-mapping", After(ents, k - 1)) in b.rules)
  }

  predicate Carried(b: Build, ents: seq<Entity>, k: nat)
    requires k <= |ents|
  {
    && b.index == k && b.error == NoError
    && (k > 0 ==> b.chainTagOut == TagAt(ents, 0) && b.pastTag == TagAt(ents, k - 1)
                  && b.pastExternal == StatAt(ents, k - 1) >= 0)
  }

  predicate OutboundsAreLinked(b: Build, ents: seq<Entity>, k: nat)
    requires k <= |ents|
  {
    |b.outbounds| == k && forall j :: 0 <= j < k ==> OutboundIsLinked(b.outbounds[j], ents, j, k)
  }

  predicate RulesAreOfTheChain(b: Build, ents: seq<Entity>, k: nat)
    requires k <= |ents|
  {
    forall i :: 0 <= i < |b.rules| ==> IsChainRule(b.rules[i], ents, k)
  }

  predicate MappingsAreThere(b: Build, ents: seq<Entity>, k: nat)
    requires k <= |ents|
  {
    forall j :: 0 <= j < k && StatAt(ents, j) == 1 ==> HasInbound(b, TagAt(ents, j) + "-mapping")
  }

  predicate StatsAreKnown(ents: seq<Entity>, k: nat)
    requires k <= |ents|
  {
    forall j :: 0 <= j < k ==> StatAt(ents, j) >= 0
  }

  predicate Progress(b: Build, ents: seq<Entity>, k: nat)
    requires k <= |ents|
  {
    && Carried(b, ents, k) && OutboundsAreLinked(b, ents, k) && StatsAreKnown(ents, k)
    && RulesAreOfTheChain(b, ents, k) && RulesAreThere(b, ents, k) && MappingsAreThere(b, ents, k)
  }

  /** The outbound before leads to proxy k, which is not yet in place. */
  predicate LinkedUp(b: Build, ents: seq<Entity>, k: nat)
    requires k < |ents|
  {
    && |b.outbounds| == k && (forall j :: 0 <= j < k ==> OutboundIsLinked(b.outbounds[j], ents, j, k + 1))
    && RulesAreOfTheChain(b, ents, k)
    && (forall j :: 0 <= j < k && StatAt(ents, j) > 0 ==> Rule(TagAt(ents, j) + "-mapping", After(ents, j)) in b.rules)
  }

  lemma ChainRuleStays(r: Rule, ents: seq<Entity>, k: nat)
    requires k < |ents| && IsChainRule(r, ents, k)
    ensures IsChainRule(r, ents, k + 1)
  {
  }

  lemma RulesAfter(before: Build, b: Build, ents: seq<Entity>, k: nat, r: Rule)
    requires k < |ents| && RulesAreOfTheChain(before, ents, k)
    requires b.rules == before.rules || (b.rules == before.rules + [r] && IsChainRule(r, ents, k + 1))
    ensures RulesAreOfTheChain(b, ents, k + 1)
  {
    hide IsChainRule;
    forall i | 0 <= i < |b.rules|
      ensures IsChainRule(b.rules[i], ents, k + 1)
    {
      if i < |before.rules| {
        ChainRuleStays(before.rules[i], ents, k);
      }
    }
  }

  lemma LinkStep(before: Build, ents: seq<Entity>, k: nat)
    requires k < |ents| && Growing(before) && Progress(before, ents, k)
    ensures LinkedUp(Linked(before, TagAt(ents, k)), ents, k)
  {
    hide TagAt, StatAt, HasInbound, IsChainRule;
    var c := Linked(before, TagAt(ents, k));
    if k > 0 {
      assert OutboundIsLinked(before.outbounds[k - 1], ents, k - 1, k);
      if before.pastExternal != 0 {
        var r := Rule(TagAt(ents, k - 1) + "-mapping", After(ents, k - 1));
        assert RuleFrom(r, ents, k - 1);
        RuleIsOfTheChain(r, ents, k - 1, k);
        assert c.rules == before.rules + [r];
      }
    }
  }

  lemma RuleIsOfTheChain(r: Rule, ents: seq<Entity>, j: nat, k: nat)
    requires j < k <= |ents| && RuleFrom(r, ents, j)
    ensures IsChainRule(r, ents, k)
  {
  }

  lemma PlaceOutbounds(c: Build, ents: seq<Entity>, k: nat, settings: Settings)
    requires k < |ents| && Growing(c) && LinkedUp(c, ents, k) && LeavesLinks(ents[k]) && c.error == NoError
    requires Placed(c, ents[k], TagAt(ents, k), k + 1 == |ents|, settings).error == NoError
    ensures OutboundsAreLinked(Placed(c, ents[k], TagAt(ents, k), k + 1 == |ents|, settings), ents, k + 1)
    ensures StatAt(ents, k) >= 0
  {
    hide Outbound, TagAt, LeavesLinks, RulesAreOfTheChain, Growing;
    OutboundLinks(ents[k], TagAt(ents, k), k + 1 == |ents|, c.muxApplied, settings);
  }

  lemma PlaceRules(c: Build, ents: seq<Entity>, k: nat, settings: Settings)
    requires k < |ents| && Growing(c) && LinkedUp(c, ents, k) && c.error == NoError
    requires Placed(c, ents[k], TagAt(ents, k), k + 1 == |ents|, settings).error == NoError
    ensures var p := Placed(c, ents[k], TagAt(ents, k), k + 1 == |ents|, settings);
            RulesAreOfTheChain(p, ents, k + 1) && RulesAreThere(p, ents, k + 1)
  {
    hide Outbound, TagAt, Growing, RulesAreOfTheChain, IsChainRule, OutboundIsLinked;
    var p := Placed(c, ents[k], TagAt(ents, k), k + 1 == |ents|, settings);
    var r := Rule(TagAt(ents, k) + "-mapping", "direct");
    if k + 1 == |ents| && StatAt(ents, k) == 1 {
      assert RuleFrom(r, ents, k);
      RuleIsOfTheChain(r, ents, k, k + 1);
      assert p.rules == c.rules + [r];
    }
    RulesAfter(c, p, ents, k, r);
  }

  lemma PlaceMappings(c: Build, ents: seq<Entity>, k: nat, settings: Settings)
    requires k < |ents| && Growing(c) && MappingsAreThere(c, ents, k) && c.error == NoError
    requires Placed(c, ents[k], TagAt(ents, k), k + 1 == |ents|, settings).error == NoError
    ensures MappingsAreThere(Placed(c, ents[k], TagAt(ents, k), k + 1 == |ents|, settings), ents, k + 1)
  {
    hide Outbound, OutboundError, TagAt, Growing;
    var p := Placed(c, ents[k], TagAt(ents, k), k + 1 == |ents|, settings);
    assert c.inbounds <= p.inbounds;
    if StatAt(ents, k) == 1 {
      assert p.inbounds[|c.inbounds|].tag == TagAt(ents, k) + "-mapping";
    }
  }

  lemma SameInbounds(b: Build, c: Build, ents: seq<Entity>, k: nat)
    requires k <= |ents| && MappingsAreThere(b, ents, k) && c.inbounds == b.inbounds
    ensures MappingsAreThere(c, ents, k)
  {
    hide TagAt, StatAt;
  }

  lemma ListsDoNotMatter(b: Build, c: Build, ents: seq<Entity>, k: nat)
    requires k <= |ents| && Progress(b, ents, k) && c == b.(ignored := c.ignored, globals := c.globals)
    ensures Progress(c, ents, k)
  {
    hide TagAt, StatAt, IsChainRule, OutboundIsLinked;
  }

  lemma PlaceCarried(c: Build, ents: seq<Entity>, k: nat, settings: Settings)
    requires k < |ents| && Growing(c) && c.error == NoError && c.index == k && c.chainTagOut == TagAt(ents, 0)
    requires Placed(c, ents[k], TagAt(ents, k), k + 1 == |ents|, settings).error == NoError
    ensures var p := Placed(c, ents[k], TagAt(ents, k), k + 1 == |ents|, settings);
            Carried(p, ents, k + 1) && p.globals == c.globals
  {
    hide TagAt, Growing, Mapped, Outbound, OutboundError;
  }

  lemma ChainStep(before: Build, ents: seq<Entity>, k: nat, settings: Settings)
    requires k < |ents| && Growing(before) && Progress(before, ents, k) && LeavesLinks(ents[k]) && before.globals == []
    requires Added(before, ents[k], |ents|, 0, settings).error == NoError
    ensures Progress(Added(before, ents[k], |ents|, 0, settings), ents, k + 1)
    ensures k + 1 < |ents| ==> Added(before, ents[k], |ents|, 0, settings).globals == []
  {
    hide LeavesLinks, TagFor, External, OutboundsAreLinked, RulesAreOfTheChain, RulesAreThere, MappingsAreThere,
      LinkedUp, Placed;
    var isFirst := k + 1 == |ents|;
    var tagOut := TagAt(ents, k);
    var c := if before.index != 0 then before.(ignored := before.ignored + [tagOut]) else before;
    var d := if NeedsGlobal(0, k, isFirst) then c.(globals := c.globals + [ents[k].id]) else c;
    ListsDoNotMatter(before, d, ents, k);
    var e := Linked(d, tagOut);
    LinkStep(d, ents, k);
    SameInbounds(d, e, ents, k);
    PlaceCarried(e, ents, k, settings);
    PlaceOutbounds(e, ents, k, settings);
    PlaceRules(e, ents, k, settings);
    PlaceMappings(e, ents, k, settings);
  }

  // ----- the whole chain

  predicate AllLeaveLinks(ents: seq<Entity>) {
    forall k :: 0 <= k < |ents| ==> LeavesLinks(ents[k])
  }

  /** The status when the chain is built: only inbounds and the list of ignored tags may be there already. */
  function Fresh(inbounds: seq<Inbound>, ignored: seq<string>, keepVpnOff: bool): Build {
    Begun([], inbounds, [], [], ignored, keepVpnOff)
  }

  lemma NothingYet(b: Build, ents: seq<Entity>)
    requires b == Fresh(b.inbounds, b.ignored, b.keepVpnOff)
    ensures Progress(b, ents, 0)
  {
    hide TagAt, StatAt;
  }

  lemma {:induction false} ChainProgress(b: Build, ents: seq<Entity>, k: nat, settings: Settings)
    requires k <= |ents| && AllLeaveLinks(ents) && b == Fresh(b.inbounds, b.ignored, b.keepVpnOff)
    requires Chained(b, ents, k, 0, settings).error == NoError
    ensures Progress(Chained(b, ents, k, 0, settings), ents, k)
    ensures k < |ents| ==> Chained(b, ents, k, 0, settings).globals == []
  {
    hide Added, LeavesLinks, Progress;
    if k == 0 {
      NothingYet(b, ents);
    } else {
      ChainProgress(b, ents, k - 1, settings);
      ChainStep(Chained(b, ents, k - 1, 0, settings), ents, k - 1, settings);
    }
  }

  lemma {:induction false} OutboundAtIndex(outbounds: seq<Object>, i: nat, tag: string)
    requires i < |outbounds| && "tag" in outbounds[i] && outbounds[i]["tag"] == Str(tag)
    requires forall j :: 0 <= j < i ==> "tag" in outbounds[j] && outbounds[j]["tag"] != Str(tag)
    ensures OutboundAt(outbounds, tag) == Some(outbounds[i])
  {
    if i > 0 {
      OutboundAtIndex(outbounds[1..], i - 1, tag);
    }
  }

  lemma {:induction false} RuleForIs(rules: seq<Rule>, inbound: string, outbound: string)
    requires forall i :: 0 <= i < |rules| && rules[i].inbound == inbound ==> rules[i].outbound == outbound
    ensures RuleFor(rules, inbound) == if Rule(inbound, outbound) in rules then Some(outbound) else None
  {
    if rules != [] {
      assert rules == [rules[0]] + rules[1..];
      RuleForIs(rules[1..], inbound, outbound);
    }
  }

  lemma SuffixIsInjective(a: string, b: string)
    requires a + "-mapping" == b + "-mapping"
    ensures a == b
  {
    assert (a + "-mapping")[..|a + "-mapping"| - 8] == a;
    assert (b + "-mapping")[..|b + "-mapping"| - 8] == b;
  }

  lemma RulesOfOne(b: Build, ents: seq<Entity>, j: nat)
    requires j < |ents| && MiddleIdsDiffer(ents) && Progress(b, ents, |ents|)
    ensures RuleFor(b.rules, TagAt(ents, j) + "-mapping")
            == if StatAt(ents, j) > 0 && (j + 1 == |ents| ==> StatAt(ents, j) == 1) then Some(After(ents, j)) else None
  {
    hide TagFor, External, OutboundIsLinked, MappingsAreThere, MiddleIdsDiffer;
    var inbound := TagAt(ents, j) + "-mapping";
    forall i | 0 <= i < |b.rules| && b.rules[i].inbound == inbound
      ensures RuleFrom(b.rules[i], ents, j)
    {
      assert IsChainRule(b.rules[i], ents, |ents|);
      var m :| 0 <= m < |ents| && RuleFrom(b.rules[i], ents, m);
      SuffixIsInjective(TagAt(ents, m), TagAt(ents, j));
      TagsAreUnique(ents);
      assert Tags(ents)[m] == Tags(ents)[j];
    }
    RuleForIs(b.rules, inbound, After(ents, j));
  }

  lemma OutboundOfOne(b: Build, ents: seq<Entity>, j: nat)
    requires j < |ents| && MiddleIdsDiffer(ents) && Progress(b, ents, |ents|)
    ensures OutboundAt(b.outbounds, TagAt(ents, j)) == Some(b.outbounds[j])
    ensures OutboundIsLinked(b.outbounds[j], ents, j, |ents|)
  {
    hide TagFor, External, MiddleIdsDiffer, RulesAreOfTheChain, RulesAreThere, MappingsAreThere, StatsAreKnown;
    TagsAreUnique(ents);
    forall i | 0 <= i < j
      ensures "tag" in b.outbounds[i] && b.outbounds[i]["tag"] != Str(TagAt(ents, j))
    {
      assert OutboundIsLinked(b.outbounds[i], ents, i, |ents|);
      assert Tags(ents)[i] != Tags(ents)[j];
    }
    OutboundAtIndex(b.outbounds, j, TagAt(ents, j));
  }

  lemma NextOfOne(b: Build, ents: seq<Entity>, j: nat)
    requires j < |ents| && MiddleIdsDiffer(ents) && Progress(b, ents, |ents|)
    ensures Next(b, TagAt(ents, j))
            == if j + 1 < |ents| || StatAt(ents, j) == 1 then Some(After(ents, j)) else None
  {
    hide TagAt, StatAt, MiddleIdsDiffer, OutboundAt, RuleFor;
    OutboundOfOne(b, ents, j);
    RulesOfOne(b, ents, j);
    assert StatAt(ents, j) >= 0;
  }

  function WayOut(ents: seq<Entity>): seq<string>
    requires ents != []
  {
    if StatAt(ents, |ents| - 1) == 1 then ["direct"] else []
  }

  lemma {:induction false} WalkFrom(b: Build, ents: seq<Entity>, j: nat)
    requires j < |ents| && MiddleIdsDiffer(ents) && Progress(b, ents, |ents|)
    ensures Walk(b, TagAt(ents, j), |ents| - j) == Tags(ents)[j..] + WayOut(ents)
    decreases |ents| - j
  {
    hide TagAt, StatAt, MiddleIdsDiffer, Next, Progress;
    NextOfOne(b, ents, j);
    assert Tags(ents)[j..] == [TagAt(ents, j)] + Tags(ents)[j + 1..];
    if j + 1 < |ents| {
      WalkFrom(b, ents, j + 1);
    } else {
      assert Walk(b, "direct", 0) == ["direct"];
    }
  }

  lemma RulesHaveInbounds(b: Build, ents: seq<Entity>, i: nat)
    requires i < |b.rules| && Progress(b, ents, |ents|)
    requires forall k :: 0 <= k < |ents| ==> ents[k].externalOther != 2
    ensures HasInbound(b, b.rules[i].inbound)
  {
    hide TagAt, HasInbound, OutboundIsLinked, RulesAreThere, Carried;
    assert IsChainRule(b.rules[i], ents, |ents|);
    var j :| 0 <= j < |ents| && RuleFrom(b.rules[i], ents, j);
    assert StatAt(ents, j) == 1;
  }

  /** The main result. The chain is built without an error on a status that has no outbounds and no rules yet. When
      the ids inside the chain differ, custom fields leave the links alone and no proxy inside the chain connects by
      itself, following the finished configuration from the tag handed back visits every proxy once, in list order;
      an external program at the end then leaves to "direct". Every rule names an inbound that exists. */
  lemma ChainIsOnePath(b: Build, ents: seq<Entity>, settings: Settings)
    requires ents != [] && AllLeaveLinks(ents) && MiddleIdsDiffer(ents)
    requires b == Fresh(b.inbounds, b.ignored, b.keepVpnOff)
    requires Chained(b, ents, |ents|, 0, settings).error == NoError
    ensures var r := Chained(b, ents, |ents|, 0, settings);
            && r.chainTagOut == "proxy"
            && |r.outbounds| == |ents| && Distinct(Tags(ents))
            && (forall k :: 0 <= k < |ents| ==> OutboundAt(r.outbounds, TagAt(ents, k)) == Some(r.outbounds[k]))
            && Walk(r, r.chainTagOut, |ents|) == Tags(ents) + WayOut(ents)
            && ((forall k :: 0 <= k < |ents| ==> ents[k].externalOther != 2) ==>
                  forall i :: 0 <= i < |r.rules| ==> HasInbound(r, r.rules[i].inbound))
  {
    hide Next, OutboundAt, Walk, HasInbound, Chained, External, MiddleIdsDiffer, LeavesLinks, OutboundIsLinked,
      RulesAreOfTheChain, RulesAreThere, MappingsAreThere;
    var r := Chained(b, ents, |ents|, 0, settings);
    ChainProgress(b, ents, |ents|, settings);
    TagsAreUnique(ents);
    WalkFrom(r, ents, 0);
    assert Tags(ents)[0..] == Tags(ents);
    forall k | 0 <= k < |ents|
      ensures OutboundAt(r.outbounds, TagAt(ents, k)) == Some(r.outbounds[k])
    {
      OutboundOfOne(r, ents, k);
    }
    if forall k :: 0 <= k < |ents| ==> ents[k].externalOther != 2 {
      forall i | 0 <= i < |r.rules|
        ensures HasInbound(r, r.rules[i].inbound)
      {
        RulesHaveInbounds(r, ents, i);
      }
    }
  }
}
