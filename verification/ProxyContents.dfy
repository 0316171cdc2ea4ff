/** What the finished chain holds, proxy by proxy: outbounds, mapping inbounds, tags to ignore, and the first error. */
module ProxyContents {
  import opened JsonMerge
  import opened ProxyChain
  import opened ProxyPath

  // ----- names

  /** The number that a string of digits stands for. */
  function ReadNat(s: string): nat {
    if s == "" then 0
    else 10 * ReadNat(s[..|s| - 1]) + (if '0' <= s[|s| - 1] <= '9' then s[|s| - 1] as int - '0' as int else 0)
  }

  /** Numbers are written with the digits 0 to 9, without leading zeros. */
  lemma {:induction false} DecimalReads(n: nat)
    ensures ReadNat(DecimalNat(n)) == n && forall i :: 0 <= i < |DecimalNat(n)| ==> '0' <= DecimalNat(n)[i] <= '9'
    ensures DecimalNat(n)[0] == '0' ==> n == 0
  {
    if n >= 10 {
      DecimalReads(n / 10);
      assert DecimalNat(n)[..|DecimalNat(n)| - 1] == DecimalNat(n / 10);
    } else {
      assert DecimalNat(n)[..0] == "";
    }
  }

  lemma TagNames(ents: seq<Entity>, k: nat)
    requires k < |ents|
    ensures TagAt(ents, k)
         == if k == 0 then "proxy"
            else if k == |ents| - 1 then "g-" + Decimal(ents[k].id)
            else "c-0-" + Decimal(ents[k].id)
    ensures ents[k].id >= 0 ==> Decimal(ents[k].id) == DecimalNat(ents[k].id)
    ensures ents[k].id < 0 ==> Decimal(ents[k].id) == "-" + DecimalNat(-ents[k].id)
  {
    assert DecimalNat(0) == "0";
    assert "c-" + "0" + "-" == "c-0-";
    assert "c-" + "0" + "-" + Decimal(ents[k].id) == "c-0-" + Decimal(ents[k].id);
  }

  // ----- one outbound

  /** Only the first proxy that wants to multiplex does. */
  predicate Multiplexes(ents: seq<Entity>, k: nat)
    requires k < |ents|
  {
    ents[k].wantsMux && forall i :: 0 <= i < k ==> !ents[i].wantsMux
  }

  /** The entry of an outbound that hands over to an external program on this machine. */
  predicate SocksEntry(o: Object, port: int, key: string) {
    if key == "type" then key in o && o[key] == Str("socks")
    else if key == "server" then key in o && o[key] == Str("127.0.0.1")
    else if key == "server_port" then key in o && o[key] == Num(port as real)
    else key !in o
  }

  /** What an outbound holds before its custom fields: its tag, the strategy of the settings, for one proxy of the chain
      the multiplex object, and for all other keys what the core object of the proxy holds, or what connects to its
      external program. */
  ghost predicate BaseEntry(o: Object, ents: seq<Entity>, k: nat, settings: Settings, key: string)
    requires k < |ents|
  {
    if key == "tag" then key in o && o[key] == Str(TagAt(ents, k))
    else if key == "domain_strategy" then key in o && o[key] == settings.domainStrategy
    else if key == "multiplex" && Multiplexes(ents, k) then key in o && o[key] == settings.mux
    else if StatAt(ents, k) > 0 then SocksEntry(o, ents[k].socksPort, key)
    else SameEntry(o, ents[k].core, key)
  }

  ghost predicate IsBase(o: Object, ents: seq<Entity>, k: nat, settings: Settings)
    requires k < |ents|
  {
    forall key :: BaseEntry(o, ents, k, settings, key)
  }

  /** The outbound of proxy j when k proxies are in place: custom fields are merged into the base, then a proxy inside
      the core gets the next one as its detour. */
  ghost predicate OutboundIs(o: Object, base: Object, ents: seq<Entity>, j: nat, k: nat, settings: Settings)
    requires j < k <= |ents|
  {
    && IsBase(base, ents, j, settings)
    && o == if j + 1 < k && StatAt(ents, j) == 0
            then Merged(base, CustomFields(ents[j]))["detour" := Str(TagAt(ents, j + 1))]
            else Merged(base, CustomFields(ents[j]))
  }

  ghost predicate HasOutbound(o: Object, ents: seq<Entity>, j: nat, k: nat, settings: Settings)
    requires j < k <= |ents|
  {
    exists base :: OutboundIs(o, base, ents, j, k, settings)
  }

  // ----- the build, proxy by proxy

  /** The mapping inbound of an external program that needs one: it has the program's mapping port, and leads to the
      address and port of the proxy. */
  function OwnMapping(ents: seq<Entity>, k: nat): seq<Inbound>
    requires k < |ents|
  {
    var e := ents[k];
    if StatAt(ents, k) == 1 then [Inbound(TagAt(ents, k) + "-mapping", e.mappingPort, e.address, e.port)] else []
  }

  /** The mapping inbounds of the first k proxies. */
  function Mappings(ents: seq<Entity>, k: nat): seq<Inbound>
    requires k <= |ents|
  {
    if k == 0 then [] else Mappings(ents, k - 1) + OwnMapping(ents, k - 1)
  }

  predicate SomeWantsMux(ents: seq<Entity>, k: nat)
    requires k <= |ents|
  {
    exists i :: 0 <= i < k && ents[i].wantsMux
  }

  predicate SomeConnectsAlone(ents: seq<Entity>, k: nat)
    requires k <= |ents|
  {
    exists i :: 0 <= i < k && StatAt(ents, i) == 2
  }

  predicate ListsAre(b: Build, r: Build, ents: seq<Entity>, k: nat)
    requires k <= |ents|
  {
    && r.inbounds == b.inbounds + Mappings(ents, k)
    && r.ignored == b.ignored + (if k == 0 then [] else Tags(ents)[1..k])
    && (r.keepVpnOff <==> b.keepVpnOff || SomeConnectsAlone(ents, k))
  }

  predicate CarriedIs(r: Build, ents: seq<Entity>, k: nat)
    requires k <= |ents|
  {
    && r.index == k == |r.outbounds| && r.error == NoError && (r.muxApplied <==> SomeWantsMux(ents, k))
    && (k > 0 ==> r.pastExternal == StatAt(ents, k - 1)) && (k < |ents| ==> r.globals == [])
  }

  ghost predicate OutboundsAre(outbounds: seq<Object>, ents: seq<Entity>, k: nat, settings: Settings)
    requires k <= |ents|
  {
    |outbounds| == k && forall j :: 0 <= j < k ==> HasOutbound(outbounds[j], ents, j, k, settings)
  }

  lemma OutboundHas(ents: seq<Entity>, k: nat, settings: Settings)
    requires k < |ents| && StatAt(ents, k) >= 0
    ensures var o := Outbound(ents[k], TagAt(ents, k), k + 1 == |ents|, SomeWantsMux(ents, k), settings);
            HasOutbound(o, ents, k, k + 1, settings)
  {
    hide TagAt, Merged;
    var e := ents[k];
    var raw := if StatAt(ents, k) > 0 then SocksOutbound(e.socksPort) else e.core;
    var tagged := raw["tag" := Str(TagAt(ents, k))]["domain_strategy" := settings.domainStrategy];
    var base := if !SomeWantsMux(ents, k) && e.wantsMux then tagged["multiplex" := settings.mux] else tagged;
    assert IsBase(base, ents, k, settings);
    var o := Outbound(e, TagAt(ents, k), k + 1 == |ents|, SomeWantsMux(ents, k), settings);
    assert o == Merged(base, CustomFields(e));
    assert OutboundIs(o, base, ents, k, k + 1, settings);
  }

  lemma LinkedOutbound(o: Object, ents: seq<Entity>, j: nat, settings: Settings)
    requires j + 1 < |ents| && HasOutbound(o, ents, j, j + 1, settings)
    ensures var linked := if StatAt(ents, j) == 0 then o["detour" := Str(TagAt(ents, j + 1))] else o;
            HasOutbound(linked, ents, j, j + 2, settings)
  {
    hide TagAt, StatAt, IsBase, Merged;
    var base :| OutboundIs(o, base, ents, j, j + 1, settings);
    var linked := if StatAt(ents, j) == 0 then o["detour" := Str(TagAt(ents, j + 1))] else o;
    assert OutboundIs(linked, base, ents, j, j + 2, settings);
  }

  lemma OutboundStays(o: Object, ents: seq<Entity>, j: nat, k: nat, settings: Settings)
    requires j + 1 < k < |ents| && HasOutbound(o, ents, j, k, settings)
    ensures HasOutbound(o, ents, j, k + 1, settings)
  {
    hide TagAt, StatAt, IsBase, Merged;
    var base :| OutboundIs(o, base, ents, j, k, settings);
    assert OutboundIs(o, base, ents, j, k + 1, settings);
  }

  lemma LinkKeepsOutbounds(before: Build, ents: seq<Entity>, k: nat, settings: Settings)
    requires k < |ents| && Growing(before) && before.index == k
    requires k > 0 ==> before.pastExternal == StatAt(ents, k - 1)
    requires OutboundsAre(before.outbounds, ents, k, settings)
    ensures var c := Linked(before, TagAt(ents, k));
            |c.outbounds| == k && forall j :: 0 <= j < k ==> HasOutbound(c.outbounds[j], ents, j, k + 1, settings)
  {
    hide TagAt, StatAt, HasOutbound, SomeWantsMux;
    var c := Linked(before, TagAt(ents, k));
    forall j | 0 <= j < k
      ensures HasOutbound(c.outbounds[j], ents, j, k + 1, settings)
    {
      if j + 1 < k {
        OutboundStays(before.outbounds[j], ents, j, k, settings);
      } else {
        LinkedOutbound(before.outbounds[j], ents, j, settings);
      }
    }
  }

  /** Why a proxy cannot be part of the chain, if so: it refuses to be set up, its program or its core object is
      missing, or setting up one of these failed. */
  predicate FailsWith(ents: seq<Entity>, k: nat, error: Error)
    requires k < |ents|
  {
    var e := ents[k];
    match error
    case NotAutomatic => StatAt(ents, k) == -1
    case CoreNotFound => StatAt(ents, k) > 0 && e.program == ""
    case Unsupported => StatAt(ents, k) == 0 && e.core == map[]
    case Rejected(message) =>
      message != "" && ((StatAt(ents, k) > 0 && e.program != "" && message == e.externalError)
                        || (StatAt(ents, k) == 0 && e.core != map[] && message == e.coreError))
    case _ => false
  }

  predicate Fails(ents: seq<Entity>, k: nat)
    requires k < |ents|
  {
    || StatAt(ents, k) == -1
    || (StatAt(ents, k) > 0 && (ents[k].program == "" || ents[k].externalError != ""))
    || (StatAt(ents, k) == 0 && (ents[k].core == map[] || ents[k].coreError != ""))
  }

  /** What the builder does before it comes to the proxy itself: lists are kept, and the proxy before is linked to it.
      */
  function Approached(before: Build, ents: seq<Entity>, k: nat): (e: Build)
    requires k < |ents| && Growing(before)
    ensures Growing(e)
  {
    var c := if before.index != 0 then before.(ignored := before.ignored + [TagAt(ents, k)]) else before;
    var d := if NeedsGlobal(0, k, k + 1 == |ents|) then c.(globals := c.globals + [ents[k].id]) else c;
    Linked(d, TagAt(ents, k))
  }

  lemma AddedIs(before: Build, ents: seq<Entity>, k: nat, settings: Settings)
    requires k < |ents| && Growing(before) && CarriedIs(before, ents, k)
    ensures Added(before, ents[k], |ents|, 0, settings)
         == Placed(Approached(before, ents, k), ents[k], TagAt(ents, k), k + 1 == |ents|, settings)
    ensures var e := Approached(before, ents, k);
            && e.index == k && e.error == NoError && e.muxApplied == before.muxApplied
            && e.inbounds == before.inbounds && e.keepVpnOff == before.keepVpnOff
            && e.ignored == before.ignored + (if k == 0 then [] else [TagAt(ents, k)])
            && (k + 1 < |ents| ==> e.globals == [])
  {
    hide TagFor, Placed, SomeWantsMux, External;
  }

  lemma ApproachKeepsOutbounds(before: Build, ents: seq<Entity>, k: nat, settings: Settings)
    requires k < |ents| && Growing(before) && CarriedIs(before, ents, k)
    requires OutboundsAre(before.outbounds, ents, k, settings)
    ensures var c := Approached(before, ents, k);
            |c.outbounds| == k && forall j :: 0 <= j < k ==> HasOutbound(c.outbounds[j], ents, j, k + 1, settings)
  {
    hide TagFor, External, HasOutbound, SomeWantsMux, Linked;
    var c := if before.index != 0 then before.(ignored := before.ignored + [TagAt(ents, k)]) else before;
    var d := if NeedsGlobal(0, k, k + 1 == |ents|) then c.(globals := c.globals + [ents[k].id]) else c;
    LinkKeepsOutbounds(d, ents, k, settings);
  }

  /** What becomes of the proxy itself. */
  lemma PlacedIs(e: Build, ents: seq<Entity>, k: nat, settings: Settings)
    requires k < |ents| && Growing(e) && e.index == k && e.error == NoError
    ensures var r := Placed(e, ents[k], TagAt(ents, k), k + 1 == |ents|, settings);
            && r.globals == e.globals && r.ignored == e.ignored
            && if Fails(ents, k) then FailsWith(ents, k, r.error)
               else && r.error == NoError && r.index == k + 1 && r.pastExternal == StatAt(ents, k)
                    && (r.muxApplied <==> e.muxApplied || ents[k].wantsMux)
                    && r.outbounds
                       == e.outbounds
                          + [Outbound(ents[k], TagAt(ents, k), k + 1 == |ents|, e.muxApplied, settings)]
                    && r.inbounds == e.inbounds + OwnMapping(ents, k)
                    && (r.keepVpnOff <==> e.keepVpnOff || StatAt(ents, k) == 2)
  {
    hide TagFor, External, Outbound;
  }

  /** One more proxy: it fails for the reason it has, or takes its place. */
  lemma OneMoreProxy(b: Build, before: Build, ents: seq<Entity>, k: nat, settings: Settings)
    requires k < |ents| && Growing(before) && CarriedIs(before, ents, k) && ListsAre(b, before, ents, k)
    requires OutboundsAre(before.outbounds, ents, k, settings)
    ensures var r := Added(before, ents[k], |ents|, 0, settings);
            if Fails(ents, k) then FailsWith(ents, k, r.error)
            else CarriedIs(r, ents, k + 1) && OutboundsAre(r.outbounds, ents, k + 1, settings)
                 && ListsAre(b, r, ents, k + 1)
  {
    hide TagAt, StatAt, OutboundsAre, Outbound, HasOutbound, ListsAre, Approached, Placed, Added, FailsWith, Fails;
    AddedIs(before, ents, k, settings);
    var e := Approached(before, ents, k);
    PlacedIs(e, ents, k, settings);
    if !Fails(ents, k) {
      var r := Added(before, ents[k], |ents|, 0, settings);
      ApproachKeepsOutbounds(before, ents, k, settings);
      NotRefused(ents, k);
      OutboundHas(ents, k, settings);
      PlacedOutbounds(e, r, ents, k, settings);
      ListsGrow(b, before, e, r, ents, k);
    }
  }

  lemma NotRefused(ents: seq<Entity>, k: nat)
    requires k < |ents| && !Fails(ents, k)
    ensures StatAt(ents, k) >= 0
  {
  }

  lemma ListsGrow(b: Build, before: Build, e: Build, r: Build, ents: seq<Entity>, k: nat)
    requires k < |ents| && ListsAre(b, before, ents, k)
    requires e.inbounds == before.inbounds && e.keepVpnOff == before.keepVpnOff
    requires e.ignored == before.ignored + (if k == 0 then [] else [TagAt(ents, k)]) && r.ignored == e.ignored
    requires r.inbounds == e.inbounds + OwnMapping(ents, k)
    requires r.keepVpnOff <==> e.keepVpnOff || StatAt(ents, k) == 2
    ensures ListsAre(b, r, ents, k + 1)
  {
    hide TagAt, StatAt, OwnMapping;
    assert b.inbounds + Mappings(ents, k) + OwnMapping(ents, k) == b.inbounds + Mappings(ents, k + 1);
    assert k > 0 ==> Tags(ents)[1..k] + [TagAt(ents, k)] == Tags(ents)[1..k + 1];
    assert Tags(ents)[1..1] == [];
  }

  lemma PlacedOutbounds(c: Build, r: Build, ents: seq<Entity>, k: nat, settings: Settings)
    requires k < |ents| && |c.outbounds| == k && |r.outbounds| == k + 1 && c.outbounds == r.outbounds[..k]
    requires forall j :: 0 <= j < k ==> HasOutbound(c.outbounds[j], ents, j, k + 1, settings)
    requires HasOutbound(r.outbounds[k], ents, k, k + 1, settings)
    ensures OutboundsAre(r.outbounds, ents, k + 1, settings)
  {
    hide HasOutbound;
  }

  // ----- the whole chain

  /** The first of the first k proxies that fails gives the error. */
  ghost predicate StoppedBy(r: Build, ents: seq<Entity>, k: nat)
    requires k <= |ents|
  {
    exists j :: 0 <= j < k && Fails(ents, j) && FailsWith(ents, j, r.error) &&
      forall i :: 0 <= i < j ==> !Fails(ents, i)
  }

  lemma {:induction false} ChainContentsTo(b: Build, ents: seq<Entity>, k: nat, settings: Settings)
    requires k <= |ents| && b == Fresh(b.inbounds, b.ignored, b.keepVpnOff)
    ensures var r := Chained(b, ents, k, 0, settings);
            if r.error != NoError then StoppedBy(r, ents, k)
            else && (forall j :: 0 <= j < k ==> !Fails(ents, j)) && CarriedIs(r, ents, k)
                 && OutboundsAre(r.outbounds, ents, k, settings) && ListsAre(b, r, ents, k)
  {
    hide Fails, FailsWith, Added, HasOutbound, TagAt, StatAt;
    if k > 0 {
      hide ListsAre, CarriedIs, OutboundsAre;
      ChainContentsTo(b, ents, k - 1, settings);
      var before := Chained(b, ents, k - 1, 0, settings);
      if before.error == NoError {
        OneMoreProxy(b, before, ents, k - 1, settings);
        if Fails(ents, k - 1) {
          FailureIsAnError(ents, k - 1, Chained(b, ents, k, 0, settings).error);
        } else {
          NoErrorCarried(Chained(b, ents, k, 0, settings), ents, k);
        }
      }
    }
  }

  lemma FailureIsAnError(ents: seq<Entity>, k: nat, error: Error)
    requires k < |ents| && FailsWith(ents, k, error)
    ensures error != NoError
  {
  }

  lemma NoErrorCarried(r: Build, ents: seq<Entity>, k: nat)
    requires k <= |ents| && CarriedIs(r, ents, k)
    ensures r.error == NoError
  {
  }

  /** The finished chain, begun on a status without outbounds and rules: it has no error if and only if no proxy fails,
      and otherwise that of the first one that does. Without one, each outbound and each list is what the proxies call
      for. */
  lemma ChainContents(b: Build, ents: seq<Entity>, settings: Settings)
    requires b == Fresh(b.inbounds, b.ignored, b.keepVpnOff)
    ensures var r := Chained(b, ents, |ents|, 0, settings);
            && (r.error == NoError <==> forall k :: 0 <= k < |ents| ==> !Fails(ents, k))
            && (r.error != NoError ==> StoppedBy(r, ents, |ents|))
            && (r.error == NoError ==>
                  OutboundsAre(r.outbounds, ents, |ents|, settings) && ListsAre(b, r, ents, |ents|))
  {
    hide Fails, FailsWith, Chained, OutboundsAre, ListsAre;
    ChainContentsTo(b, ents, |ents|, settings);
  }

  /** In the finished chain, what custom fields do not write stands as it should: the tag, the strategy, on the first
      proxy that wants it the multiplex object, and else what the core object holds, or what connects to the external
      program; and a proxy inside the core that is not the last one has the next as its detour. */
  lemma EntriesArrive(b: Build, ents: seq<Entity>, settings: Settings, k: nat, key: string)
    requires b == Fresh(b.inbounds, b.ignored, b.keepVpnOff) && k < |ents|
    requires Chained(b, ents, |ents|, 0, settings).error == NoError
    ensures var r := Chained(b, ents, |ents|, 0, settings);
            && |r.outbounds| == |ents|
            && (key != "detour" && !Writes(CustomFields(ents[k]), key) ==>
                  BaseEntry(r.outbounds[k], ents, k, settings, key))
            && (k + 1 < |ents| && StatAt(ents, k) == 0 ==>
                  "detour" in r.outbounds[k] && r.outbounds[k]["detour"] == Str(TagAt(ents, k + 1)))
  {
    hide Fails, FailsWith, Chained, ListsAre, TagAt, StatAt, Merged, Writes;
    ChainContents(b, ents, settings);
    var o := Chained(b, ents, |ents|, 0, settings).outbounds[k];
    assert HasOutbound(o, ents, k, |ents|, settings);
    var base :| OutboundIs(o, base, ents, k, |ents|, settings);
    if key != "detour" && !Writes(CustomFields(ents[k]), key) {
      UnwrittenInMerge(base, CustomFields(ents[k]), key);
      assert BaseEntry(base, ents, k, settings, key);
      SameEntries(o, base, ents, k, settings, key);
    }
  }

  lemma SameEntries(o: Object, base: Object, ents: seq<Entity>, k: nat, settings: Settings, key: string)
    requires k < |ents| && SameEntry(o, base, key) && BaseEntry(base, ents, k, settings, key)
    ensures BaseEntry(o, ents, k, settings, key)
  {
    hide TagAt, StatAt;
  }

  // ----- which errors a list of ids has

  predicate Missing(profiles: map<int, Profile>, id: int) {
    id !in profiles
  }

  predicate IsList(profiles: map<int, Profile>, id: int) {
    id in profiles && profiles[id].Listed?
  }

  /** The error of a list is that of the last id in it that names no profile, or another list. */
  lemma {:induction false} ErrorIsOfTheLast(profiles: map<int, Profile>, ids: seq<int>, k: nat)
    requires k < |ids| && (Missing(profiles, ids[k]) || IsList(profiles, ids[k]))
    requires forall j :: k < j < |ids| ==> !Missing(profiles, ids[j]) && !IsList(profiles, ids[j])
    ensures FirstError(profiles, ids)
         == if Missing(profiles, ids[k]) then MissingInChain(ids[k]) else ChainInChain(ids[k])
  {
    if k < |ids| - 1 {
      ErrorIsOfTheLast(profiles, ids[..|ids| - 1], k);
    }
  }

  predicate Usable(profiles: map<int, Profile>, profile: Profile) {
    profile.Listed? ==>
      forall k :: 0 <= k < |profile.ids| ==> !Missing(profiles, profile.ids[k]) && !IsList(profiles, profile.ids[k])
  }

  /** A chain is built if and only if the profile is in a group, its list names single profiles only, and the front
      proxy, when one is set, exists and does so, too; the first of these that is not so gives the error. */
  lemma WhenChainsResolve(profiles: map<int, Profile>, profile: Profile, inGroup: bool, front: int)
    ensures ResolveError(profiles, profile, inGroup, front) == NoError <==>
            && inGroup && Usable(profiles, profile)
            && (front >= 0 ==> front in profiles && Usable(profiles, profiles[front]))
    ensures !inGroup ==> ResolveError(profiles, profile, inGroup, front) == NoGroup
    ensures inGroup && !Usable(profiles, profile) ==>
              profile.Listed? && ResolveError(profiles, profile, inGroup, front) == FirstError(profiles, profile.ids)
    ensures inGroup && Usable(profiles, profile) && front >= 0 ==>
              if front !in profiles then ResolveError(profiles, profile, inGroup, front) == NoFrontProxy
              else !Usable(profiles, profiles[front]) ==>
                     profiles[front].Listed?
                     && ResolveError(profiles, profile, inGroup, front) == FirstError(profiles, profiles[front].ids)
  {
    hide FirstError;
    UsableMeans(profiles, profile);
    if front in profiles {
      UsableMeans(profiles, profiles[front]);
    }
  }

  lemma UsableMeans(profiles: map<int, Profile>, profile: Profile)
    ensures Usable(profiles, profile) <==> profile.Single? || FirstError(profiles, profile.ids) == NoError
  {
    if profile.Listed? {
      NoErrorInChain(profiles, profile.ids);
    }
  }
}
