/** Turning a list of proxies, exit first, into outbounds that hand traffic on from one to the next: inside the core
    by `detour`, through an external program by a mapping inbound and a routing rule. */
module ProxyChain {
  import opened JsonMerge

  // ----- decimal numbers in tags

  function Digit(d: nat): char
    requires d < 10
  {
    '0' + d as char
  }

  function DecimalNat(n: nat): (s: string)
    ensures s != "" && forall i :: 0 <= i < |s| ==> s[i] != '-'
  {
    if n < 10 then [Digit(n)] else DecimalNat(n / 10) + [Digit(n % 10)]
  }

  function Decimal(n: int): string {
    if n < 0 then "-" + DecimalNat(-n) else DecimalNat(n)
  }

  lemma {:induction false} DecimalNatIsInjective(m: nat, n: nat)
    requires DecimalNat(m) == DecimalNat(n)
    ensures m == n
  {
    var a, b := DecimalNat(m), DecimalNat(n);
    assert a[|a| - 1] == Digit(m % 10) && b[|b| - 1] == Digit(n % 10);
    assert |a| == 1 <==> m < 10;
    assert |b| == 1 <==> n < 10;
    if m >= 10 {
      assert a[..|a| - 1] == DecimalNat(m / 10) && b[..|b| - 1] == DecimalNat(n / 10);
      DecimalNatIsInjective(m / 10, n / 10);
    }
  }

  lemma DecimalIsInjective(m: int, n: int)
    requires Decimal(m) == Decimal(n)
    ensures m == n
  {
    assert Decimal(m)[0] == '-' <==> m < 0;
    assert Decimal(n)[0] == '-' <==> n < 0;
    if m < 0 {
      assert Decimal(m)[1..] == DecimalNat(-m) && Decimal(n)[1..] == DecimalNat(-n);
      DecimalNatIsInjective(-m, -n);
    } else {
      DecimalNatIsInjective(m, n);
    }
  }

  // ----- the inputs and the state of the build

  /** The answer to "do you need an external program": -1 for a refusal, 0 for no, 1 for a program behind a mapping
      inbound, 2 for a program that connects by itself. */
  type Need = n: int | -1 <= n <= 2

  /** A proxy as the builder sees it; the first profile of a chain is the one nearest to the network. */
  datatype Entity = Entity(id: int, externalFirst: Need, externalOther: Need, address: string, port: int,
                           mappingPort: int, socksPort: int, program: string, externalError: string,
                           core: Object, coreError: string, wantsMux: bool, custom: Json)

  function External(e: Entity, isFirst: bool): Need {
    if isFirst then e.externalFirst else e.externalOther
  }

  datatype Inbound = Inbound(tag: string, listenPort: int, overrideAddress: string, overridePort: int)
  datatype Rule = Rule(inbound: string, outbound: string)
  datatype Error = NoError | NotAutomatic | CoreNotFound | Rejected(message: string) | Unsupported
    | NoGroup | MissingInChain(id: int) | ChainInChain(id: int) | NoFrontProxy

  /** Settings of the whole configuration. */
  datatype Settings = Settings(domainStrategy: Json, mux: Json)

  /** What is built so far, and what the loop carries from one proxy to the next. */
  datatype Build = Build(outbounds: seq<Object>, inbounds: seq<Inbound>, rules: seq<Rule>, globals: seq<int>,
                         ignored: seq<string>, keepVpnOff: bool, error: Error, chainTagOut: string, pastTag: string,
                         pastExternal: int, index: nat, muxApplied: bool)

  function TagFor(chainId: int, id: int, index: nat, isFirst: bool): string {
    if chainId == 0 && index == 0 then "proxy"
    else if isFirst then "g-" + Decimal(id)
    else "c-" + Decimal(chainId) + "-" + Decimal(id)
  }

  predicate Growing(b: Build) {
    b.index > 0 ==> b.outbounds != []
  }

  predicate NeedsGlobal(chainId: int, index: nat, isFirst: bool) {
    isFirst && !(chainId == 0 && index == 0)
  }

  /** Ties the proxy before to this one. */
  function Linked(b: Build, tagOut: string): (r: Build)
    requires Growing(b)
    ensures Growing(r) && r == b.(outbounds := r.outbounds, rules := r.rules, chainTagOut := r.chainTagOut)
  {
    if b.index == 0 then b.(chainTagOut := tagOut)
    else if b.pastExternal == 0 then
      var last := b.outbounds[|b.outbounds| - 1];
      b.(outbounds := b.outbounds[..|b.outbounds| - 1] + [last["detour" := Str(tagOut)]])
    else b.(rules := b.rules + [Rule(b.pastTag + "-mapping", tagOut)])
  }

  /** The mapping inbound of an external program, and for the first profile of the chain its way out. */
  function Mapped(b: Build, e: Entity, tagOut: string, isFirst: bool): (r: Build)
    ensures r == b.(inbounds := r.inbounds, rules := r.rules)
  {
    if External(e, isFirst) != 1 then b
    else
      var c := b.(inbounds := b.inbounds + [Inbound(tagOut + "-mapping", e.mappingPort, e.address, e.port)]);
      if isFirst then c.(rules := c.rules + [Rule(tagOut + "-mapping", "direct")]) else c
  }

  function OutboundError(e: Entity, isFirst: bool): Error {
    if External(e, isFirst) > 0 then
      if e.program == "" then CoreNotFound else if e.externalError != "" then Rejected(e.externalError) else NoError
    else if e.core == map[] then Unsupported
    else if e.coreError != "" then Rejected(e.coreError)
    else NoError
  }

  function SocksOutbound(port: int): Object {
    map["type" := Str("socks"), "server" := Str("127.0.0.1"), "server_port" := Num(port as real)]
  }

  function CustomFields(e: Entity): Json {
    if e.custom.Obj? then e.custom else Obj(map[])
  }

  function Outbound(e: Entity, tagOut: string, isFirst: bool, muxApplied: bool, settings: Settings): Object {
    var raw := if External(e, isFirst) > 0 then SocksOutbound(e.socksPort) else e.core;
    var tagged := raw["tag" := Str(tagOut)]["domain_strategy" := settings.domainStrategy];
    var muxed := if !muxApplied && e.wantsMux then tagged["multiplex" := settings.mux] else tagged;
    Merged(muxed, CustomFields(e))
  }

  /** The proxy itself, once the one before leads to it. */
  function Placed(b: Build, e: Entity, tagOut: string, isFirst: bool, settings: Settings): (r: Build)
    requires Growing(b)
    ensures Growing(r)
    ensures b.error == NoError == r.error ==>
              r.index == b.index + 1 && r.pastTag == tagOut && r.muxApplied == (b.muxApplied || e.wantsMux)
    ensures r.chainTagOut == b.chainTagOut
  {
    var external := External(e, isFirst);
    if external < 0 then b.(error := NotAutomatic)
    else
      var c := Mapped(if external == 2 then b.(keepVpnOff := true) else b, e, tagOut, isFirst);
      if OutboundError(e, isFirst) != NoError then c.(error := OutboundError(e, isFirst))
      else c.(outbounds := c.outbounds + [Outbound(e, tagOut, isFirst, c.muxApplied, settings)],
              muxApplied := c.muxApplied || e.wantsMux, pastTag := tagOut, pastExternal := external,
              index := c.index + 1)
  }

  /** One proxy of the chain; `n` is the length of the chain. */
  function Added(b: Build, e: Entity, n: nat, chainId: int, settings: Settings): (r: Build)
    requires Growing(b)
    ensures Growing(r)
  {
    var isFirst := b.index + 1 == n;
    var tagOut := TagFor(chainId, e.id, b.index, isFirst);
    var needGlobal := NeedsGlobal(chainId, b.index, isFirst);
    var c := if b.index != 0 then b.(ignored := b.ignored + [tagOut]) else b;
    if needGlobal && e.id in b.globals then c
    else
      var d := if needGlobal then c.(globals := c.globals + [e.id]) else c;
      Placed(Linked(d, tagOut), e, tagOut, isFirst, settings)
  }

  /** The first k proxies; an error stops the build. */
  function Chained(b: Build, ents: seq<Entity>, k: nat, chainId: int, settings: Settings): (r: Build)
    requires k <= |ents| && Growing(b)
    ensures Growing(r)
  {
    if k == 0 then b
    else
      var before := Chained(b, ents, k - 1, chainId, settings);
      if before.error != NoError then before else Added(before, ents[k - 1], |ents|, chainId, settings)
  }

  lemma ErrorStops(b: Build, ents: seq<Entity>, k: nat, chainId: int, settings: Settings)
    requires k < |ents| && Growing(b) && Chained(b, ents, k, chainId, settings).error != NoError
    ensures Chained(b, ents, k + 1, chainId, settings) == Chained(b, ents, k, chainId, settings)
  {
    hide Added;
  }

  lemma {:induction false} ErrorsStop(b: Build, ents: seq<Entity>, j: nat, k: nat, chainId: int, settings: Settings)
    requires j <= k <= |ents| && Growing(b) && Chained(b, ents, j, chainId, settings).error != NoError
    ensures Chained(b, ents, k, chainId, settings) == Chained(b, ents, j, chainId, settings)
  {
    hide Chained;
    if j < k {
      ErrorsStop(b, ents, j, k - 1, chainId, settings);
      ErrorStops(b, ents, k - 1, chainId, settings);
    }
  }

  /** What the configuration under construction holds when a chain is begun. */
  function Begun(outbounds: seq<Object>, inbounds: seq<Inbound>, rules: seq<Rule>, globals: seq<int>,
      ignored: seq<string>, keepVpnOff: bool): Build
  {
    Build(outbounds, inbounds, rules, globals, ignored, keepVpnOff, NoError, "", "", 0, 0, false)
  }

  // ----- which proxies the chain consists of

  /** A stored profile: one proxy, or a list of the ids of others. */
  datatype Profile = Single(proxy: Entity) | Listed(ids: seq<int>)

  datatype Resolved = Resolved(ents: seq<Entity>, error: Error)

  function FirstError(profiles: map<int, Profile>, ids: seq<int>): Error {
    if ids == [] then NoError
    else
      var id := ids[|ids| - 1];
      if id !in profiles then MissingInChain(id)
      else if profiles[id].Listed? then ChainInChain(id)
      else FirstError(profiles, ids[..|ids| - 1])
  }

  /** A list of ids is a chain exactly when each of them is a single proxy. */
  lemma {:induction false} NoErrorInChain(profiles: map<int, Profile>, ids: seq<int>)
    ensures FirstError(profiles, ids) == NoError <==>
            forall k :: 0 <= k < |ids| ==> ids[k] in profiles && profiles[ids[k]].Single?
  {
    if ids != [] {
      var shorter := ids[..|ids| - 1];
      NoErrorInChain(profiles, shorter);
      assert forall k :: 0 <= k < |shorter| ==> shorter[k] == ids[k];
    }
  }

  predicate IsSingle(profiles: map<int, Profile>, id: int, e: Entity) {
    id in profiles && profiles[id] == Single(e)
  }

  /** The entities a profile stands for: the list from its end, or the proxy itself. */
  ghost predicate StandsFor(profiles: map<int, Profile>, profile: Profile, ents: seq<Entity>) {
    match profile
    case Single(proxy) => ents == [proxy]
    case Listed(ids) =>
      |ents| == |ids| && forall k :: 0 <= k < |ents| ==> IsSingle(profiles, ids[|ids| - 1 - k], ents[k])
  }

  method ResolveChain(profiles: map<int, Profile>, profile: Profile) returns (r: Resolved)
    ensures r.error == if profile.Listed? then FirstError(profiles, profile.ids) else NoError
    ensures r.error == NoError ==> StandsFor(profiles, profile, r.ents)
  {
    if profile.Single? {
      return Resolved([profile.proxy], NoError);
    }
    var ids := profile.ids;
    var ents: seq<Entity> := [];
    var n := |ids|;
    assert ids[..n] == ids;
    while n > 0
      invariant 0 <= n <= |ids| && |ents| == |ids| - n
      invariant FirstError(profiles, ids) == FirstError(profiles, ids[..n])
      invariant forall k :: 0 <= k < |ents| ==> IsSingle(profiles, ids[|ids| - 1 - k], ents[k])
    {
      var id := ids[n - 1];
      assert ids[..n][..n - 1] == ids[..n - 1];
      if id !in profiles {
        return Resolved([], MissingInChain(id));
      }
      if profiles[id].Listed? {
        return Resolved([], ChainInChain(id));
      }
      ents := ents + [profiles[id].proxy];
      n := n - 1;
    }
    r := Resolved(ents, NoError);
  }

  /** What keeps a chain from being built at all; `front` is the id of the front proxy of the group, when that is
      set, and absent when the profile is in no group. */
  function ResolveError(profiles: map<int, Profile>, profile: Profile, inGroup: bool, front: int): Error {
    var own := if profile.Listed? then FirstError(profiles, profile.ids) else NoError;
    if !inGroup then NoGroup
    else if own != NoError then own
    else if front < 0 then NoError
    else if front !in profiles then NoFrontProxy
    else if profiles[front].Listed? then FirstError(profiles, profiles[front].ids)
    else NoError
  }

  /** The whole chain: the profile, then the front proxy of its group. */
  ghost predicate IsChainOf(profiles: map<int, Profile>, profile: Profile, front: int, ents: seq<Entity>) {
    exists own: seq<Entity>, more: seq<Entity> :: ents == own + more && StandsFor(profiles, profile, own) &&
      if front < 0 then more == [] else front in profiles && StandsFor(profiles, profiles[front], more)
  }

  class BuildStatus {
    var outbounds: seq<Object>
    var inbounds: seq<Inbound>
    var rules: seq<Rule>
    var globalProfiles: seq<int>
    var ignoreConnTag: seq<string>
    var needKeepVpnOff: bool
    var error: Error

    constructor ()
      ensures Value("", "", 0, 0, false) == Begun([], [], [], [], [], false)
    {
      outbounds, inbounds, rules, globalProfiles, ignoreConnTag := [], [], [], [], [];
      needKeepVpnOff, error := false, NoError;
    }

    /** The status together with what the loop carries. */
    ghost function Value(chainTagOut: string, pastTag: string, pastExternal: int, index: nat, muxApplied: bool): Build
      reads this
    {
      Build(outbounds, inbounds, rules, globalProfiles, ignoreConnTag, needKeepVpnOff, error, chainTagOut, pastTag,
            pastExternal, index, muxApplied)
    }

    ghost predicate Holds(b: Build)
      reads this
    {
      Value(b.chainTagOut, b.pastTag, b.pastExternal, b.index, b.muxApplied) == b
    }

    static method ChooseTag(chainId: int, id: int, index: nat, isFirstProfile: bool)
      returns (tagOut: string, needGlobal: bool)
      ensures tagOut == TagFor(chainId, id, index, isFirstProfile)
      ensures needGlobal == NeedsGlobal(chainId, index, isFirstProfile)
    {
      tagOut := "c-" + Decimal(chainId) + "-" + Decimal(id);
      needGlobal := false;
      if isFirstProfile {
        needGlobal := true;
        tagOut := "g-" + Decimal(id);
      }
      if chainId == 0 && index == 0 {
        needGlobal := false;
        tagOut := "proxy";
      }
    }

    method LinkPast(index: nat, pastExternal: int, pastTag: string, tagOut: string, chainTagOut: string,
        muxApplied: bool)
      returns (chainTag: string)
      requires index > 0 ==> outbounds != []
      modifies this
      ensures var r := Linked(old(Value(chainTagOut, pastTag, pastExternal, index, muxApplied)), tagOut);
              Holds(r) && chainTag == r.chainTagOut
    {
      chainTag := chainTagOut;
      if index > 0 {
        if pastExternal == 0 {
          var replaced := outbounds[|outbounds| - 1]["detour" := Str(tagOut)];
          outbounds := outbounds[..|outbounds| - 1];
          outbounds := outbounds + [replaced];
        } else {
          rules := rules + [Rule(pastTag + "-mapping", tagOut)];
        }
      } else {
        chainTag := tagOut;
      }
    }

    method AddMapping(ghost before: Build, ent: Entity, tagOut: string, isFirstProfile: bool)
      requires Holds(before)
      modifies this
      ensures Holds(Mapped(before, ent, tagOut, isFirstProfile))
    {
      if External(ent, isFirstProfile) == 1 {
        inbounds := inbounds + [Inbound(tagOut + "-mapping", ent.mappingPort, ent.address, ent.port)];
        if isFirstProfile {
          rules := rules + [Rule(tagOut + "-mapping", "direct")];
        }
      }
    }

    static method BuildOutbound(ent: Entity, tagOut: string, isFirstProfile: bool, muxApplied: bool, settings: Settings)
      returns (failure: Error, outbound: Object)
      ensures failure == OutboundError(ent, isFirstProfile)
      ensures failure == NoError ==> outbound == Outbound(ent, tagOut, isFirstProfile, muxApplied, settings)
    {
      hide Merged;
      outbound := map[];
      if External(ent, isFirstProfile) > 0 {
        if ent.program == "" {
          return CoreNotFound, outbound;
        }
        if ent.externalError != "" {
          return Rejected(ent.externalError), outbound;
        }
        outbound := SocksOutbound(ent.socksPort);
      } else {
        if ent.core == map[] {
          return Unsupported, outbound;
        }
        if ent.coreError != "" {
          return Rejected(ent.coreError), outbound;
        }
        outbound := ent.core;
      }
      outbound := outbound["tag" := Str(tagOut)];
      outbound := outbound["domain_strategy" := settings.domainStrategy];
      if !muxApplied && ent.wantsMux {
        outbound := outbound["multiplex" := settings.mux];
      }
      outbound := MergeJson(outbound, CustomFields(ent));
      failure := NoError;
    }

    method PlaceProxy(ghost before: Build, ent: Entity, tagOut: string, isFirstProfile: bool, muxApplied: bool,
        settings: Settings) returns (ok: bool, thisExternal: int)
      requires Holds(before) && Growing(before) && before.error == NoError && before.muxApplied == muxApplied
      modifies this
      ensures var r := Placed(before, ent, tagOut, isFirstProfile, settings);
              Holds(r) && ok == (r.error == NoError) && (ok ==> thisExternal == r.pastExternal)
    {
      hide Outbound, OutboundError, Mapped, External;
      thisExternal := External(ent, isFirstProfile);
      if thisExternal < 0 {
        error := NotAutomatic;
        return false, thisExternal;
      }
      if thisExternal == 2 {
        needKeepVpnOff := true;
      }
      AddMapping(if thisExternal == 2 then before.(keepVpnOff := true) else before, ent, tagOut, isFirstProfile);
      var failure, outbound := BuildOutbound(ent, tagOut, isFirstProfile, muxApplied, settings);
      if failure != NoError {
        error := failure;
        return false, thisExternal;
      }
      outbounds := outbounds + [outbound];
      ok := true;
    }

    /** One turn of the loop; hands back what the loop carries on. */
    method AddProxy(ghost before: Build, ent: Entity, n: nat, chainId: int, settings: Settings, chainTagOut: string,
        pastTag: string, pastExternal: int, index: nat, muxApplied: bool)
      returns (chainTagAfter: string, pastTagAfter: string, pastExternalAfter: int, indexAfter: nat, muxAfter: bool)
      requires before == Value(chainTagOut, pastTag, pastExternal, index, muxApplied)
      requires Growing(before) && error == NoError
      modifies this
      ensures Holds(Added(before, ent, n, chainId, settings))
      ensures error == NoError ==>
                Added(before, ent, n, chainId, settings)
                == Value(chainTagAfter, pastTagAfter, pastExternalAfter, indexAfter, muxAfter)
    {
      hide Linked, Placed, TagFor, NeedsGlobal;
      chainTagAfter, pastTagAfter, pastExternalAfter := chainTagOut, pastTag, pastExternal;
      indexAfter, muxAfter := index, muxApplied;
      var isFirstProfile := index == n - 1;
      var tagOut, needGlobal := ChooseTag(chainId, ent.id, index, isFirstProfile);
      if index != 0 {
        ignoreConnTag := ignoreConnTag + [tagOut];
      }
      if needGlobal {
        if ent.id in globalProfiles {
          return;
        }
        globalProfiles := globalProfiles + [ent.id];
      }
      chainTagAfter := LinkPast(index, pastExternal, pastTag, tagOut, chainTagOut, muxApplied);
      var ok, thisExternal := PlaceProxy(Value(chainTagAfter, pastTag, pastExternal, index, muxApplied), ent, tagOut,
                                         isFirstProfile, muxApplied, settings);
      if ok {
        muxAfter := muxApplied || ent.wantsMux;
        pastTagAfter := tagOut;
        pastExternalAfter := thisExternal;
        indexAfter := index + 1;
      }
    }

    method BuildChainInternal(chainId: int, ents: seq<Entity>, settings: Settings) returns (tag: string)
      requires error == NoError
      modifies this
      ensures var r := Chained(old(Value("", "", 0, 0, false)), ents, |ents|, chainId, settings);
              Holds(r) && tag == (if r.error == NoError then r.chainTagOut else "")
    {
      hide Added;
      ghost var start := Value("", "", 0, 0, false);
      var chainTagOut, pastTag := "", "";
      var pastExternal, index: nat, muxApplied := 0, 0, false;
      for k := 0 to |ents|
        invariant error == NoError
        invariant Value(chainTagOut, pastTag, pastExternal, index, muxApplied)
               == Chained(start, ents, k, chainId, settings)
      {
        ghost var before := Value(chainTagOut, pastTag, pastExternal, index, muxApplied);
        chainTagOut, pastTag, pastExternal, index, muxApplied :=
          AddProxy(before, ents[k], |ents|, chainId, settings, chainTagOut, pastTag, pastExternal, index, muxApplied);
        if error != NoError {
          ErrorsStop(start, ents, k + 1, |ents|, chainId, settings);
          return "";
        }
      }
      tag := chainTagOut;
    }

    method BuildChain(profiles: map<int, Profile>, profile: Profile, inGroup: bool, front: int, settings: Settings)
      returns (tag: string, ghost ents: seq<Entity>)
      requires error == NoError
      modifies this
      ensures var failure := ResolveError(profiles, profile, inGroup, front);
              if failure != NoError then tag == "" && error == failure
              else IsChainOf(profiles, profile, front, ents) &&
                   var r := Chained(old(Value("", "", 0, 0, false)), ents, |ents|, 0, settings);
                   Holds(r) && tag == (if r.error == NoError then r.chainTagOut else "")
    {
      hide Chained, StandsFor, FirstError;
      if !inGroup {
        error := NoGroup;
        return "", [];
      }
      var own := ResolveChain(profiles, profile);
      if own.error != NoError {
        error := own.error;
        return "", [];
      }
      var list := own.ents;
      ghost var more: seq<Entity> := [];
      if front >= 0 {
        if front !in profiles {
          error := NoFrontProxy;
          return "", [];
        }
        var fronts := ResolveChain(profiles, profiles[front]);
        if fronts.error != NoError {
          error := fronts.error;
          return "", [];
        }
        list := list + fronts.ents;
        more := fronts.ents;
      }
      ents := list;
      assert ents == own.ents + more;
      tag := BuildChainInternal(0, list, settings);
    }
  }
}
