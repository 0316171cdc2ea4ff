/** The results of a subscription update, in terms of the profiles a group has before and after. */
module SubscriptionResults {
  import opened IdLists
  import opened ProfileStore
  import opened ProfileStoreRuns
  import opened SubscriptionUpdate
  import opened SubscriptionMerge
  import PF = ProfileFilter

  function GroupKeys(profiles: map<int, Profile>, gid: int, key: Content -> string): set<string> {
    set id | id in Members(profiles, gid) :: key(profiles[id].content)
  }

  /** Of the profiles of the group with a key, the one with the greatest id. */
  predicate IsLatest(profiles: map<int, Profile>, gid: int, id: int, k: string, key: Content -> string) {
    && id in Members(profiles, gid) && key(profiles[id].content) == k
    && forall other :: other in Members(profiles, gid) && key(profiles[other].content) == k ==> other <= id
  }

  lemma MemberInGroup(s: Store, gid: int, id: int) returns (i: nat)
    requires Consistent(s) && gid >= 0 && id in Members(s.profiles, gid)
    ensures i < |GroupProfiles(s, gid)| && i < |Sorted(Members(s.profiles, gid))|
    ensures Sorted(Members(s.profiles, gid))[i] == id && GroupProfiles(s, gid)[i] == s.profiles[id]
  {
    hide Consistent, GroupProfiles, Sorted;
    GroupProfilesAre(s, gid);
    var ids := Sorted(Members(s.profiles, gid));
    assert id in ids;
    i :| 0 <= i < |ids| && ids[i] == id;
  }

  lemma InGroup(s: Store, gid: int, i: nat)
    requires Consistent(s) && gid >= 0 && i < |GroupProfiles(s, gid)|
    ensures var p := GroupProfiles(s, gid)[i];
            && p.id in Members(s.profiles, gid) && s.profiles[p.id] == p
            && i < |Sorted(Members(s.profiles, gid))| && p.id == Sorted(Members(s.profiles, gid))[i]
  {
    hide Consistent, GroupProfiles, Sorted;
    GroupProfilesAre(s, gid);
    var id := Sorted(Members(s.profiles, gid))[i];
    assert id in Sorted(Members(s.profiles, gid));
  }

  lemma LatestHeld(s: Store, gid: int, k: string, key: Content -> string)
    requires Consistent(s) && gid >= 0
    ensures var last := PF.LastByKey(GroupProfiles(s, gid), EntityKey(key));
            && (k in last <==> k in GroupKeys(s.profiles, gid, key))
            && (k in last ==> IsLatest(s.profiles, gid, last[k].id, k, key) && s.profiles[last[k].id] == last[k])
  {
    hide Consistent, GroupProfiles, Sorted, PF.LastByKey;
    var held := GroupProfiles(s, gid);
    var last := PF.LastByKey(held, EntityKey(key));
    if k in GroupKeys(s.profiles, gid, key) {
      var id :| id in Members(s.profiles, gid) && key(s.profiles[id].content) == k;
      var i := MemberInGroup(s, gid, id);
      PF.LastByKeyIs(held, EntityKey(key), i);
    }
    if k in last {
      var i := PF.LastByKeyHas(held, EntityKey(key), k);
      InGroup(s, gid, i);
      forall other | other in Members(s.profiles, gid) && key(s.profiles[other].content) == k
        ensures other <= held[i].id
      {
        var j := MemberInGroup(s, gid, other);
        assert EntityKey(key)(held[j]) == k;
      }
    }
  }

  // ----- where each fetched profile ends up

  /** The ids that the fetched profiles get before they are merged. */
  function NewIds(s: Store, n: nat): set<int> {
    Elements(From(NewProfileId(s), n))
  }

  /** Fetched contents end up in the group under an id: that of the latest old profile with the same key, which is
      left as it was, or a new one. */
  predicate MergedAt(s: Store, u: Store, gid: int, id: int, content: Content, key: Content -> string) {
    && id in Members(u.profiles, gid) && key(u.profiles[id].content) == key(content)
    && (if key(content) in GroupKeys(s.profiles, gid, key)
        then IsLatest(s.profiles, gid, id, key(content), key) && u.profiles[id] == s.profiles[id]
        else id !in s.profiles && u.profiles[id].content == content)
  }

  /** The profiles of other groups are the same. */
  predicate OthersStay(s: Store, u: Store, gid: int) {
    && (forall id :: id in s.profiles && s.profiles[id].gid != gid ==>
          id in u.profiles && u.profiles[id] == s.profiles[id])
    && (forall id :: id in u.profiles && u.profiles[id].gid != gid ==> id in s.profiles)
  }

  /** A profile that stays is not changed, and its id is given to no other. */
  predicate OldAreUnchanged(s: Store, u: Store) {
    forall id :: id in s.profiles && id in u.profiles ==> u.profiles[id] == s.profiles[id]
  }

  /** Two entries are fetched under one key that the group has already. */
  predicate ShareHeld(s: Store, gid: int, contents: seq<Content>, key: Content -> string, i: int, j: int)
    requires 0 <= i < |contents| && 0 <= j < |contents|
  {
    key(contents[i]) == key(contents[j]) && key(contents[i]) in GroupKeys(s.profiles, gid, key)
  }

  /** The order lists one id for two fetched entries exactly when they share a key that the group had. */
  predicate SharesIds(s: Store, gid: int, contents: seq<Content>, key: Content -> string, order: seq<int>)
    requires |order| == |contents|
  {
    forall i, j :: 0 <= i < j < |contents| ==> (order[i] == order[j] <==> ShareHeld(s, gid, contents, key, i, j))
  }

  lemma OrderHolds(held: seq<Profile>, news: seq<Profile>, key: Content -> string, k: nat)
    requires k < |news|
    ensures |MergedOrder(held, news, key)| == |news| && MergedOrder(held, news, key)[k] == MergedId(held, news[k], key)
    ensures MergedId(held, news[k], key) in MergedOrder(held, news, key)
  {
    assert MergedOrder(held, news, key)[k] in MergedOrder(held, news, key);
  }

  lemma Stays(profiles: map<int, Profile>, looked: seq<int>, order: seq<int>, startedId: int, id: int)
    requires id in profiles && id in order
    ensures var left := Remaining(profiles, looked, order, startedId);
            id in left && left[id] == profiles[id]
  {
  }

  lemma EachIsMerged(s: Store, t: Store, u: Store, gid: int, contents: seq<Content>, news: seq<Profile>,
      key: Content -> string, k: nat)
    requires Consistent(s) && gid in s.groups && k < |contents|
    requires UpdatedRightly(s, t, u, gid, contents, news, key)
    ensures |u.groups[gid].order| == |contents| && MergedAt(s, u, gid, u.groups[gid].order[k], contents[k], key)
  {
    hide Consistent, GroupProfiles, NewProfileId, PF.LastByKey, Remaining, GroupKeys, MergedOrder;
    GroupsAreNatural(s, gid);
    var held := GroupProfiles(s, gid);
    LatestHeld(s, gid, key(contents[k]), key);
    OrderHolds(held, news, key, k);
    var id := MergedId(held, news[k], key);
    assert id in t.profiles;
    Stays(t.profiles, Ids(held + news), u.groups[gid].order, s.startedId, id);
  }

  lemma PairIsMerged(s: Store, t: Store, u: Store, gid: int, contents: seq<Content>, news: seq<Profile>,
      key: Content -> string, i: nat, j: nat)
    requires Consistent(s) && gid in s.groups && i < j < |contents|
    requires UpdatedRightly(s, t, u, gid, contents, news, key)
    ensures |u.groups[gid].order| == |contents|
    ensures u.groups[gid].order[i] == u.groups[gid].order[j] <==> ShareHeld(s, gid, contents, key, i, j)
  {
    hide Consistent, GroupProfiles, NewProfileId, PF.LastByKey, Remaining, GroupKeys, MergedOrder;
    GroupsAreNatural(s, gid);
    var held := GroupProfiles(s, gid);
    LatestHeld(s, gid, key(contents[i]), key);
    LatestHeld(s, gid, key(contents[j]), key);
    OrderHolds(held, news, key, i);
    OrderHolds(held, news, key, j);
  }

  /** The profiles an update looks at are those of the group, before and new. */
  lemma LookedAt(s: Store, news: seq<Profile>, gid: int, t: Store, contents: seq<Content>, id: int)
    requires Consistent(s) && gid >= 0 && HasAdded(s.profiles, t.profiles, news, NewProfileId(s), gid, contents)
    ensures id in Ids(GroupProfiles(s, gid) + news) <==> id in Members(s.profiles, gid) + NewIds(s, |contents|)
  {
    hide Consistent, GroupProfiles, NewProfileId, Members, Sorted;
    var held := GroupProfiles(s, gid);
    var all := held + news;
    FromHas(NewProfileId(s), |contents|, id);
    if id in Ids(all) {
      var i :| 0 <= i < |all| && Ids(all)[i] == id;
      if i < |held| {
        InGroup(s, gid, i);
      } else {
        assert all[i] == news[i - |held|];
      }
    }
    if id in Members(s.profiles, gid) {
      var i := MemberInGroup(s, gid, id);
      assert s.profiles[id].id == id by {
        NamedById(s, gid, id);
      }
      assert Ids(all)[i] == id;
    }
    if id in NewIds(s, |contents|) {
      assert Ids(all)[|held| + id - NewProfileId(s)] == id;
    }
  }

  lemma NamedById(s: Store, gid: int, id: int)
    requires Consistent(s) && id in Members(s.profiles, gid)
    ensures id in s.profiles && s.profiles[id].id == id
  {
  }

  // ----- what is left of the group

  /** The running profile when the update would have deleted it: it stays. */
  function Spared(s: Store, gid: int, n: nat): set<int> {
    {s.startedId} * (Members(s.profiles, gid) + NewIds(s, n))
  }

  lemma MembersAfter(s: Store, t: Store, u: Store, gid: int, contents: seq<Content>, news: seq<Profile>,
      key: Content -> string)
    requires Consistent(s) && gid in s.groups && UpdatedRightly(s, t, u, gid, contents, news, key)
    ensures Members(u.profiles, gid) == Elements(u.groups[gid].order) + Spared(s, gid, |contents|)
  {
    hide Consistent, GroupProfiles, NewProfileId, MergedAt, MergedOrder, NewIds, From;
    GroupsAreNatural(s, gid);
    var order := u.groups[gid].order;
    forall id
      ensures id in Members(u.profiles, gid) <==> id in Elements(order) + Spared(s, gid, |contents|)
    {
      LookedAt(s, news, gid, t, contents, id);
      MembersAfterAdding(s.profiles, t.profiles, news, NewProfileId(s), gid, contents, id);
      FromHas(NewProfileId(s), |contents|, id);
      assert id in NewIds(s, |contents|) <==> NewProfileId(s) <= id < NewProfileId(s) + |contents| by {
        IsNewId(s, |contents|, id);
      }
      if id in order {
        OrderIsInGroup(s, t, u, gid, contents, news, key, id);
      }
    }
  }

  lemma IsNewId(s: Store, n: nat, id: int)
    ensures id in NewIds(s, n) <==> NewProfileId(s) <= id < NewProfileId(s) + n
  {
    FromHas(NewProfileId(s), n, id);
  }

  lemma OrderIsInGroup(s: Store, t: Store, u: Store, gid: int, contents: seq<Content>, news: seq<Profile>,
      key: Content -> string, id: int)
    requires Consistent(s) && gid in s.groups && UpdatedRightly(s, t, u, gid, contents, news, key)
    requires id in u.groups[gid].order
    ensures id in Members(u.profiles, gid)
  {
    hide Consistent, GroupProfiles, NewProfileId, MergedOrder, Remaining;
    var order := u.groups[gid].order;
    assert |order| == |contents| by {
      OrderLength(GroupProfiles(s, gid), news, key);
    }
    var k :| 0 <= k < |order| && order[k] == id;
    EachIsMerged(s, t, u, gid, contents, news, key, k);
  }

  lemma OrderLength(held: seq<Profile>, news: seq<Profile>, key: Content -> string)
    ensures |MergedOrder(held, news, key)| == |news|
  {
  }

  lemma OthersAfter(s: Store, t: Store, u: Store, gid: int, contents: seq<Content>, news: seq<Profile>,
      key: Content -> string)
    requires Consistent(s) && gid in s.groups && UpdatedRightly(s, t, u, gid, contents, news, key)
    ensures OthersStay(s, u, gid) && OldAreUnchanged(s, u)
  {
    hide Consistent, GroupProfiles, NewProfileId, MergedOrder, NewIds;
    GroupsAreNatural(s, gid);
    forall id | id in s.profiles && s.profiles[id].gid != gid
      ensures id in u.profiles && u.profiles[id] == s.profiles[id]
    {
      LookedAt(s, news, gid, t, contents, id);
      assert id < NewProfileId(s);
      IsNewId(s, |contents|, id);
    }
  }

  /** What the group has besides old profiles was fetched. */
  predicate NewAreFetched(s: Store, u: Store, gid: int, contents: seq<Content>) {
    forall id :: id in Members(u.profiles, gid) && id !in s.profiles ==> u.profiles[id].content in contents
  }

  lemma NewOnesAreFetched(s: Store, t: Store, u: Store, gid: int, contents: seq<Content>, news: seq<Profile>,
      key: Content -> string)
    requires gid in s.groups && UpdatedRightly(s, t, u, gid, contents, news, key)
    ensures NewAreFetched(s, u, gid, contents)
  {
    hide Consistent, GroupProfiles, NewProfileId, MergedOrder, NewIds;
    forall id | id in Members(u.profiles, gid) && id !in s.profiles
      ensures u.profiles[id].content in contents
    {
      assert u.profiles[id] == t.profiles[id];
      assert u.profiles[id].content == contents[id - NewProfileId(s)];
    }
  }

  // ----- the report

  lemma HeldKeys(s: Store, gid: int, key: Content -> string)
    requires Consistent(s) && gid >= 0
    ensures PF.KeysOf(GroupProfiles(s, gid), EntityKey(key)) == GroupKeys(s.profiles, gid, key)
  {
    hide Consistent, GroupProfiles, Sorted;
    var held := GroupProfiles(s, gid);
    forall i | 0 <= i < |held|
      ensures key(held[i].content) in GroupKeys(s.profiles, gid, key)
    {
      InGroup(s, gid, i);
    }
    forall id | id in Members(s.profiles, gid)
      ensures key(s.profiles[id].content) in PF.KeysOf(held, EntityKey(key))
    {
      var i := MemberInGroup(s, gid, id);
      assert EntityKey(key)(held[i]) == key(s.profiles[id].content);
    }
  }

  function FetchedKeys(contents: seq<Content>, key: Content -> string): set<string> {
    set k | 0 <= k < |contents| :: key(contents[k])
  }

  lemma NewKeys(s: Store, t: Store, gid: int, contents: seq<Content>, news: seq<Profile>, key: Content -> string)
    requires HasAdded(s.profiles, t.profiles, news, NewProfileId(s), gid, contents)
    ensures PF.KeysOf(news, EntityKey(key)) == FetchedKeys(contents, key)
  {
    var a, b := PF.KeysOf(news, EntityKey(key)), FetchedKeys(contents, key);
    forall k | 0 <= k < |contents|
      ensures EntityKey(key)(news[k]) == key(contents[k])
    {
    }
    forall x | x in a
      ensures x in b
    {
      var k :| 0 <= k < |news| && EntityKey(key)(news[k]) == x;
      assert key(contents[k]) in b;
    }
    forall x | x in b
      ensures x in a
    {
      var k :| 0 <= k < |contents| && key(contents[k]) == x;
      assert EntityKey(key)(news[k]) in a;
    }
  }

  /** What the report lists: as deleted, the profiles whose key was not fetched; as added, the contents fetched under a
      key the group did not have. */
  ghost predicate ReportRight(s: Store, gid: int, contents: seq<Content>, report: Report, key: Content -> string) {
    && report.Changed?
    && (forall p :: p in report.deleted <==>
          p in GroupProfiles(s, gid) && key(p.content) !in FetchedKeys(contents, key))
    && (forall c :: Lists(report.added, c) <==> c in contents && key(c) !in GroupKeys(s.profiles, gid, key))
  }

  predicate Lists(ents: seq<Profile>, content: Content) {
    exists i :: 0 <= i < |ents| && ents[i].content == content
  }

  lemma ReportIsRight(s: Store, t: Store, gid: int, contents: seq<Content>, news: seq<Profile>, report: Report,
      key: Content -> string)
    requires Consistent(s) && gid >= 0 && HasAdded(s.profiles, t.profiles, news, NewProfileId(s), gid, contents)
    requires var held := GroupProfiles(s, gid);
             report == Changed(PF.Lacking(news, PF.KeysOf(held, EntityKey(key)), EntityKey(key)),
                               PF.Lacking(held, PF.KeysOf(news, EntityKey(key)), EntityKey(key)))
    ensures ReportRight(s, gid, contents, report, key)
  {
    hide Consistent, GroupProfiles, GroupKeys, FetchedKeys, PF.KeysOf, PF.Lacking;
    HeldKeys(s, gid, key);
    NewKeys(s, t, gid, contents, news, key);
    var added := report.added;
    forall c
      ensures Lists(added, c) <==> c in contents && key(c) !in GroupKeys(s.profiles, gid, key)
    {
      if Lists(added, c) {
        var i :| 0 <= i < |added| && added[i].content == c;
        assert added[i] in added;
        var k :| 0 <= k < |news| && news[k] == added[i];
        assert contents[k] == c;
      }
      if c in contents && key(c) !in GroupKeys(s.profiles, gid, key) {
        var k :| 0 <= k < |contents| && contents[k] == c;
        assert news[k] in news && EntityKey(key)(news[k]) == key(c);
        assert news[k] in added;
        var i :| 0 <= i < |added| && added[i] == news[k];
        assert added[i].content == c;
      }
    }
  }

  /** The profiles reported as added are those that the order lists and that were not there before, each once. */
  ghost predicate AddedAreNew(s: Store, u: Store, gid: int, report: Report)
    requires report.Changed? && gid in u.groups
  {
    && IdsAscend(report.added)
    && (forall p <- report.added :: IsNewlyListed(s, u, gid, p.id) && u.profiles[p.id] == p)
    && (forall id :: IsNewlyListed(s, u, gid, id) ==> u.profiles[id] in report.added)
  }

  predicate IsNewlyListed(s: Store, u: Store, gid: int, id: int)
    requires gid in u.groups
  {
    id in Elements(u.groups[gid].order) && id !in s.profiles && id in u.profiles
  }

  predicate IdsAscend(es: seq<Profile>) {
    forall i, j :: 0 <= i < j < |es| ==> es[i].id < es[j].id
  }

  lemma {:induction false} LackingAscends(es: seq<Profile>, keys: set<string>, key: Profile -> string)
    requires IdsAscend(es)
    ensures IdsAscend(PF.Lacking(es, keys, key))
  {
    if es != [] {
      var shorter, last := es[..|es| - 1], es[|es| - 1];
      LackingAscends(shorter, keys, key);
      var rest := PF.Lacking(shorter, keys, key);
      forall i | 0 <= i < |rest|
        ensures rest[i].id < last.id
      {
        var e := rest[i];
        assert e in rest;
        var j :| 0 <= j < |shorter| && shorter[j] == e;
        assert es[j].id < es[|es| - 1].id;
      }
      assert IdsAscend(rest + [last]);
    }
  }

  /** What the order lists for fetched entry k: an old profile, or the new one. */
  lemma ListedIs(s: Store, t: Store, u: Store, gid: int, contents: seq<Content>, news: seq<Profile>,
      key: Content -> string, k: nat)
    requires Consistent(s) && gid in s.groups && k < |contents|
    requires UpdatedRightly(s, t, u, gid, contents, news, key)
    ensures |news| == |u.groups[gid].order| == |contents|
    ensures var p, id := news[k], u.groups[gid].order[k];
            && p.id !in s.profiles && p.id == NewProfileId(s) + k
            && if key(p.content) in GroupKeys(s.profiles, gid, key) then id in s.profiles
               else id == p.id && id in u.profiles && u.profiles[id] == p
  {
    hide Consistent, GroupProfiles, NewProfileId, PF.LastByKey, Remaining, GroupKeys, MergedOrder;
    GroupsAreNatural(s, gid);
    EachIsMerged(s, t, u, gid, contents, news, key, k);
    LatestHeld(s, gid, key(contents[k]), key);
    OrderHolds(GroupProfiles(s, gid), news, key, k);
    var id := MergedId(GroupProfiles(s, gid), news[k], key);
    assert id in t.profiles;
    Stays(t.profiles, Ids(GroupProfiles(s, gid) + news), u.groups[gid].order, s.startedId, id);
  }

  lemma AddedOnesAreNew(s: Store, t: Store, u: Store, gid: int, contents: seq<Content>, news: seq<Profile>,
      report: Report, key: Content -> string)
    requires Consistent(s) && gid in s.groups && UpdatedRightly(s, t, u, gid, contents, news, key)
    requires report.Changed?
    requires report.added == PF.Lacking(news, GroupKeys(s.profiles, gid, key), EntityKey(key))
    ensures AddedAreNew(s, u, gid, report)
  {
    hide UpdatedRightly, Consistent, GroupProfiles, NewProfileId, PF.Lacking, GroupKeys;
    NewsCount(s, t, u, gid, contents, news, key);
    var order := u.groups[gid].order;
    forall k | 0 <= k < |contents|
      ensures var p := news[k];
              && p.id !in s.profiles && p.id == NewProfileId(s) + k
              && if key(p.content) in GroupKeys(s.profiles, gid, key) then order[k] in s.profiles
                 else order[k] == p.id && p.id in u.profiles && u.profiles[p.id] == p
    {
      ListedIs(s, t, u, gid, contents, news, key, k);
    }
    LackingAscends(news, GroupKeys(s.profiles, gid, key), EntityKey(key));
    forall p <- report.added
      ensures IsNewlyListed(s, u, gid, p.id) && u.profiles[p.id] == p
    {
      var k :| 0 <= k < |news| && news[k] == p;
      assert order[k] in order;
    }
    forall id | IsNewlyListed(s, u, gid, id)
      ensures u.profiles[id] in report.added
    {
      var k :| 0 <= k < |order| && order[k] == id;
      assert news[k] in news && EntityKey(key)(news[k]) == key(news[k].content);
    }
  }

  lemma NewsCount(s: Store, t: Store, u: Store, gid: int, contents: seq<Content>, news: seq<Profile>,
      key: Content -> string)
    requires UpdatedRightly(s, t, u, gid, contents, news, key)
    ensures gid in u.groups && |news| == |u.groups[gid].order| == |contents|
  {
  }

  // ----- the main results

  /** An update that does not clear the group first. The store stays consistent; the order of the group lists, fetched
      entry by fetched entry, where each ended up: an old profile of the same key keeps its id and its contents, and
      otherwise it is new; two entries end up in one place only when they share a key that the group had. The group
      holds what its order lists, besides the running profile, which is not deleted. Profiles of other groups are not
      touched. The report lists as deleted the profiles whose key was not fetched, and as added those that the order
      lists and that are new, which are the contents fetched under a key that the group did not have. */
  lemma UpdateMerges(s: Store, gid: int, contents: seq<Content>, refreshed: Settings, key: Content -> string)
    requires Consistent(s) && gid in s.groups && !s.groups[gid].archive
    ensures var o := Updated(s, gid, contents, refreshed, false, key);
            var u := o.store;
            && Consistent(u) && u.startedId == s.startedId
            && SameData(s.groups[gid := s.groups[gid].(settings := refreshed)], u.groups)
            && |u.groups[gid].order| == |contents|
            && (forall k :: 0 <= k < |contents| ==> MergedAt(s, u, gid, u.groups[gid].order[k], contents[k], key))
            && SharesIds(s, gid, contents, key, u.groups[gid].order)
            && Members(u.profiles, gid) == Elements(u.groups[gid].order) + Spared(s, gid, |contents|)
            && OthersStay(s, u, gid) && OldAreUnchanged(s, u) && NewAreFetched(s, u, gid, contents)
            && ReportRight(s, gid, contents, o.report, key) && AddedAreNew(s, u, gid, o.report)
  {
    hide Consistent, GroupProfiles, Updated, AddedAreNew, MergedAt, OthersStay, ReportRight, Remaining, MergedOrder,
      Spared, HasAdded, ShareHeld, NewAreFetched;
    var o := Updated(s, gid, contents, refreshed, false, key);
    var t, news := UpdateIs(s, gid, contents, refreshed, key);
    GroupsAreNatural(s, gid);
    AddedCount(s, t, gid, contents, news);
    OrderLength(GroupProfiles(s, gid), news, key);
    forall k | 0 <= k < |contents|
      ensures MergedAt(s, o.store, gid, o.store.groups[gid].order[k], contents[k], key)
    {
      EachIsMerged(s, t, o.store, gid, contents, news, key, k);
    }
    var order := o.store.groups[gid].order;
    forall i, j | 0 <= i < j < |contents|
      ensures order[i] == order[j] <==> ShareHeld(s, gid, contents, key, i, j)
    {
      PairIsMerged(s, t, o.store, gid, contents, news, key, i, j);
    }
    MembersAfter(s, t, o.store, gid, contents, news, key);
    OthersAfter(s, t, o.store, gid, contents, news, key);
    NewOnesAreFetched(s, t, o.store, gid, contents, news, key);
    ReportIsRight(s, t, gid, contents, news, o.report, key);
    HeldKeys(s, gid, key);
    AddedOnesAreNew(s, t, o.store, gid, contents, news, o.report, key);
  }

  lemma AddedCount(s: Store, t: Store, gid: int, contents: seq<Content>, news: seq<Profile>)
    requires HasAdded(s.profiles, t.profiles, news, NewProfileId(s), gid, contents)
    ensures |news| == |contents|
  {
  }

  /** The running profile, if any, is stored. */
  predicate RunningIsStored(s: Store) {
    s.startedId < 0 || s.startedId in s.profiles
  }

  lemma SparedIsRunning(s: Store, gid: int, n: nat)
    requires Consistent(s) && RunningIsStored(s)
    ensures Spared(s, gid, n) == {s.startedId} * Members(s.profiles, gid)
  {
    hide GroupsRight, IndexRight, NewProfileId, NewIds;
    IsNewId(s, n, s.startedId);
    if s.startedId >= 0 {
      BelowTheNew(s, s.startedId);
    } else {
      NewProfileIdIsFresh(s);
    }
  }

  /** The key of the running profile, when the group holds it. */
  function RunningKey(s: Store, gid: int, key: Content -> string): set<string> {
    if s.startedId in Members(s.profiles, gid) then {key(s.profiles[s.startedId].content)} else {}
  }

  /** The keys of the group afterwards are exactly the fetched ones and that of the running profile. */
  lemma KeysAreTheFetchedOnes(s: Store, gid: int, contents: seq<Content>, refreshed: Settings, key: Content -> string)
    requires Consistent(s) && gid in s.groups && !s.groups[gid].archive
    ensures var u := Updated(s, gid, contents, refreshed, false, key).store;
            GroupKeys(u.profiles, gid, key) == FetchedKeys(contents, key) + RunningKey(s, gid, key)
  {
    hide Consistent, Updated, ReportRight, SharesIds, NewIds;
    var u := Updated(s, gid, contents, refreshed, false, key).store;
    UpdateMerges(s, gid, contents, refreshed, key);
    var order := u.groups[gid].order;
    forall x | x in GroupKeys(u.profiles, gid, key)
      ensures x in FetchedKeys(contents, key) + RunningKey(s, gid, key)
    {
      var id :| id in Members(u.profiles, gid) && key(u.profiles[id].content) == x;
      if id in Elements(order) {
        var k :| 0 <= k < |order| && order[k] == id;
        assert MergedAt(s, u, gid, order[k], contents[k], key);
      } else if id !in s.profiles {
        var k :| 0 <= k < |contents| && contents[k] == u.profiles[id].content;
      }
    }
    forall x | x in FetchedKeys(contents, key)
      ensures x in GroupKeys(u.profiles, gid, key)
    {
      var k :| 0 <= k < |contents| && key(contents[k]) == x;
      assert MergedAt(s, u, gid, order[k], contents[k], key);
    }
    if s.startedId in Members(s.profiles, gid) {
      assert s.startedId in Members(u.profiles, gid);
    }
  }

  // ----- what the report says is deleted, and what is

  /** An old profile stays exactly when it is the latest one of a fetched key, or runs. */
  lemma OldStaysWhen(s: Store, gid: int, contents: seq<Content>, refreshed: Settings, key: Content -> string, id: int)
    requires Consistent(s) && gid in s.groups && !s.groups[gid].archive && id in Members(s.profiles, gid)
    ensures var u, k := Updated(s, gid, contents, refreshed, false, key).store, key(s.profiles[id].content);
            id in Members(u.profiles, gid) <==>
            (k in FetchedKeys(contents, key) && IsLatest(s.profiles, gid, id, k, key)) || id == s.startedId
  {
    hide Consistent, Updated, ReportRight, SharesIds, NewIds, NewAreFetched;
    var u, x := Updated(s, gid, contents, refreshed, false, key).store, key(s.profiles[id].content);
    UpdateMerges(s, gid, contents, refreshed, key);
    var order := u.groups[gid].order;
    assert x in GroupKeys(s.profiles, gid, key);
    if id in Elements(order) {
      var k :| 0 <= k < |order| && order[k] == id;
      assert MergedAt(s, u, gid, order[k], contents[k], key);
    }
    if x in FetchedKeys(contents, key) && IsLatest(s.profiles, gid, id, x, key) {
      var k :| 0 <= k < |contents| && key(contents[k]) == x;
      assert MergedAt(s, u, gid, order[k], contents[k], key);
      assert order[k] in Elements(order);
    }
  }

  predicate ReportsDeleted(report: Report, id: int)
    requires report.Changed?
  {
    exists i :: 0 <= i < |report.deleted| && report.deleted[i].id == id
  }

  /** The report names exactly the profiles that an update removes. */
  ghost predicate DeletedIsExact(s: Store, u: Store, gid: int, report: Report)
    requires report.Changed?
  {
    forall id :: id in Members(s.profiles, gid) ==> (ReportsDeleted(report, id) <==> id !in Members(u.profiles, gid))
  }

  /** Of the old profiles with one fetched key there is only the latest, besides a running one, and the key of a running
      one is fetched. */
  predicate OneEach(s: Store, gid: int, contents: seq<Content>, key: Content -> string) {
    forall id :: id in Members(s.profiles, gid) ==>
      var k := key(s.profiles[id].content);
      if id == s.startedId then k in FetchedKeys(contents, key)
      else k in FetchedKeys(contents, key) ==> IsLatest(s.profiles, gid, id, k, key)
  }

  lemma ReportedIs(s: Store, gid: int, contents: seq<Content>, report: Report, key: Content -> string, id: int)
    requires Consistent(s) && gid >= 0 && id in Members(s.profiles, gid) && ReportRight(s, gid, contents, report, key)
    ensures ReportsDeleted(report, id) <==> key(s.profiles[id].content) !in FetchedKeys(contents, key)
  {
    hide Consistent, GroupProfiles, FetchedKeys, Sorted;
    var i := MemberInGroup(s, gid, id);
    var p := GroupProfiles(s, gid)[i];
    NamedById(s, gid, id);
    assert p in GroupProfiles(s, gid);
    if p in report.deleted {
      var j :| 0 <= j < |report.deleted| && report.deleted[j] == p;
    }
    if ReportsDeleted(report, id) {
      var j :| 0 <= j < |report.deleted| && report.deleted[j].id == id;
      assert report.deleted[j] in report.deleted;
      var m :| 0 <= m < |GroupProfiles(s, gid)| && GroupProfiles(s, gid)[m] == report.deleted[j];
      InGroup(s, gid, m);
    }
  }

  /** The report is right about deletions exactly when no two old profiles share a fetched key, unless one of them runs
      and is not the latest, and a running profile of the group has a fetched key. */
  lemma DeletionsAreReported(s: Store, gid: int, contents: seq<Content>, refreshed: Settings, key: Content -> string)
    requires Consistent(s) && gid in s.groups && !s.groups[gid].archive
    ensures var o := Updated(s, gid, contents, refreshed, false, key);
            o.report.Changed? && (DeletedIsExact(s, o.store, gid, o.report) <==> OneEach(s, gid, contents, key))
  {
    hide Consistent, Updated, FetchedKeys, IsLatest, ReportsDeleted;
    var o := Updated(s, gid, contents, refreshed, false, key);
    UpdateMerges(s, gid, contents, refreshed, key);
    GroupsAreNatural(s, gid);
    forall id | id in Members(s.profiles, gid)
      ensures id in Members(o.store.profiles, gid) <==>
              (key(s.profiles[id].content) in FetchedKeys(contents, key)
               && IsLatest(s.profiles, gid, id, key(s.profiles[id].content), key)) || id == s.startedId
      ensures ReportsDeleted(o.report, id) <==> key(s.profiles[id].content) !in FetchedKeys(contents, key)
    {
      OldStaysWhen(s, gid, contents, refreshed, key, id);
      ReportedIs(s, gid, contents, o.report, key, id);
    }
  }

  // ----- repeating an update

  /** Entries that are fetched under one key repeat one that the group has. */
  predicate RepeatsAreHeld(s: Store, gid: int, contents: seq<Content>, key: Content -> string) {
    forall i, j :: 0 <= i < j < |contents| && key(contents[i]) == key(contents[j]) ==>
      ShareHeld(s, gid, contents, key, i, j)
  }

  /** The same fetched contents find the same profile again. */
  lemma SameIdAgain(s: Store, u: Store, v: Store, gid: int, contents: seq<Content>, key: Content -> string, k: nat)
    requires RepeatsAreHeld(s, gid, contents, key) && k < |contents| && OldAreUnchanged(s, u)
    requires gid in u.groups && |u.groups[gid].order| == |contents|
    requires Members(u.profiles, gid) <= Elements(u.groups[gid].order) + Members(s.profiles, gid)
    requires forall i :: 0 <= i < |contents| ==> MergedAt(s, u, gid, u.groups[gid].order[i], contents[i], key)
    requires gid in v.groups && |v.groups[gid].order| == |contents|
    requires MergedAt(u, v, gid, v.groups[gid].order[k], contents[k], key)
    ensures v.groups[gid].order[k] == u.groups[gid].order[k]
  {
    var before, after, x := u.groups[gid].order, v.groups[gid].order, key(contents[k]);
    assert MergedAt(s, u, gid, before[k], contents[k], key);
    assert x in GroupKeys(u.profiles, gid, key);
    assert IsLatest(u.profiles, gid, after[k], x, key);
    assert before[k] <= after[k];
    if after[k] in Elements(before) {
      var i :| 0 <= i < |before| && before[i] == after[k];
      assert MergedAt(s, u, gid, before[i], contents[i], key);
      assert i != k ==> ShareHeld(s, gid, contents, key, if i < k then i else k, if i < k then k else i);
    } else {
      assert x in GroupKeys(s.profiles, gid, key);
    }
  }

  /** Two fetched entries with one key that the group did not have get two profiles, and one of them the next time. */
  lemma RepeatedNewIsMoved(s: Store, u: Store, gid: int, contents: seq<Content>, key: Content -> string, a: seq<int>,
      b: seq<int>)
    requires |a| == |b| == |contents| && !RepeatsAreHeld(s, gid, contents, key)
    requires SharesIds(s, gid, contents, key, a) && SharesIds(u, gid, contents, key, b)
    requires FetchedKeys(contents, key) <= GroupKeys(u.profiles, gid, key)
    ensures a != b
  {
    var i, j :| 0 <= i < j < |contents| && key(contents[i]) == key(contents[j])
                && !ShareHeld(s, gid, contents, key, i, j);
    assert key(contents[i]) in FetchedKeys(contents, key);
    assert ShareHeld(u, gid, contents, key, i, j);
  }

  /** Doing an update again, with the running profile stored or none: it changes no profile and no order if and only if
      entries fetched under one key repeat a key that the group had before; and it reports nothing if and only if a
      running profile in the group has a fetched key. */
  lemma RepeatingChangesNothing(s: Store, gid: int, contents: seq<Content>, refreshed: Settings, again: Settings,
      key: Content -> string)
    requires Consistent(s) && gid in s.groups && !s.groups[gid].archive && RunningIsStored(s)
    ensures var u := Updated(s, gid, contents, refreshed, false, key).store;
            var o := Updated(u, gid, contents, again, false, key);
            && gid in u.groups && gid in o.store.groups
            && (o.store.groups[gid].order == u.groups[gid].order && o.store.profiles == u.profiles <==>
                RepeatsAreHeld(s, gid, contents, key))
            && (o.report == Changed([], []) <==> RunningKey(s, gid, key) <= FetchedKeys(contents, key))
  {
    hide Consistent, Updated, MergedAt, ReportRight, Spared, RepeatsAreHeld, SharesIds, FetchedKeys, GroupKeys,
      NewAreFetched;
    var u := Updated(s, gid, contents, refreshed, false, key).store;
    UpdateMerges(s, gid, contents, refreshed, key);
    SparedIsRunning(s, gid, |contents|);
    assert s.startedId in s.profiles ==> s.startedId in u.profiles by {
      assert s.startedId in Members(s.profiles, gid) ==> s.startedId in Members(u.profiles, gid);
    }
    var o := Updated(u, gid, contents, again, false, key);
    var v := o.store;
    assert SameFlags(s.groups[gid].(settings := refreshed), u.groups[gid]);
    UpdateMerges(u, gid, contents, again, key);
    SparedIsRunning(u, gid, |contents|);
    KeysAreTheFetchedOnes(s, gid, contents, refreshed, key);
    GroupsAreNatural(s, gid);
    if RepeatsAreHeld(s, gid, contents, key) {
      forall k | 0 <= k < |contents|
        ensures v.groups[gid].order[k] == u.groups[gid].order[k]
      {
        SameIdAgain(s, u, v, gid, contents, key, k);
      }
      assert v.groups[gid].order == u.groups[gid].order;
      SameProfiles(u, v, gid);
    } else {
      RepeatedNewIsMoved(s, u, gid, contents, key, u.groups[gid].order, v.groups[gid].order);
    }
    NothingToReport(u, gid, contents, o.report, key, RunningKey(s, gid, key));
  }

  lemma SameProfiles(u: Store, v: Store, gid: int)
    requires OthersStay(u, v, gid) && OldAreUnchanged(u, v) && Members(u.profiles, gid) == Members(v.profiles, gid)
    ensures v.profiles == u.profiles
  {
    forall id | id in u.profiles
      ensures id in v.profiles && v.profiles[id] == u.profiles[id]
    {
      assert u.profiles[id].gid == gid ==> id in Members(u.profiles, gid);
    }
    forall id | id in v.profiles
      ensures id in u.profiles
    {
      assert v.profiles[id].gid == gid ==> id in Members(v.profiles, gid);
    }
  }

  lemma FirstIsListed(ents: seq<Profile>)
    ensures ents == [] || (ents[0] in ents && Lists(ents, ents[0].content))
  {
  }

  lemma NothingToReport(s: Store, gid: int, contents: seq<Content>, report: Report, key: Content -> string,
      others: set<string>)
    requires Consistent(s) && gid >= 0 && ReportRight(s, gid, contents, report, key)
    requires GroupKeys(s.profiles, gid, key) == FetchedKeys(contents, key) + others
    ensures report == Changed([], []) <==> others <= FetchedKeys(contents, key)
  {
    hide Consistent, GroupProfiles;
    HeldKeys(s, gid, key);
    var held := GroupProfiles(s, gid);
    forall c <- contents
      ensures key(c) in FetchedKeys(contents, key)
    {
      var k :| 0 <= k < |contents| && contents[k] == c;
    }
    FirstIsListed(report.added);
    FirstIsListed(report.deleted);
    if others <= FetchedKeys(contents, key) {
      forall p <- held
        ensures key(p.content) in FetchedKeys(contents, key)
      {
        var i :| 0 <= i < |held| && held[i] == p;
        assert EntityKey(key)(held[i]) in PF.KeysOf(held, EntityKey(key));
      }
    } else {
      var x :| x in others && x !in FetchedKeys(contents, key);
      assert x in PF.KeysOf(held, EntityKey(key));
      var i :| 0 <= i < |held| && EntityKey(key)(held[i]) == x;
      assert held[i] in held && held[i] in report.deleted;
    }
  }

  // ----- clearing first, and importing

  /** With the setting to clear first, the group ends up with the fetched profiles under new ids, besides the running
      profile. */
  lemma ClearingReplaces(s: Store, gid: int, contents: seq<Content>, refreshed: Settings, key: Content -> string)
    requires Consistent(s) && gid in s.groups && !s.groups[gid].archive
    ensures var o := Updated(s, gid, contents, refreshed, true, key);
            var cleared := DeletedProfiles(Prepared(s, gid, refreshed), Ids(GroupProfiles(s, gid)));
            && Consistent(o.store) && OthersStay(s, o.store, gid)
            && Members(o.store.profiles, gid)
               == NewIds(cleared, |contents|) + {s.startedId} * Members(s.profiles, gid)
            && (forall k :: 0 <= k < |contents| ==> HoldsNew(o.store, gid, NewProfileId(cleared) + k, contents[k]))
            && o.report == Cleared(GroupProfiles(o.store, gid))
  {
    hide Consistent, GroupProfiles, Prepared, DeletedProfiles, AddedAll, NewOnes, NewProfileId, NewIds;
    var p, held := Prepared(s, gid, refreshed), GroupProfiles(s, gid);
    PreparedIs(s, gid, refreshed);
    GroupsAreNatural(s, gid);
    DeleteProfilesKeeps(p, Ids(held));
    var c := DeletedProfiles(p, Ids(held));
    AddedAllIs(c, gid, contents);
    var u, news := AddedAll(c, gid, contents), NewOnes(c, gid, contents);
    forall id
      ensures id in s.profiles ==> (id in Ids(held) <==> s.profiles[id].gid == gid)
    {
      HeldIds(s, gid, id);
    }
    forall id
      ensures id in Members(u.profiles, gid) <==> id in NewIds(c, |contents|) + {s.startedId} * Members(s.profiles, gid)
    {
      MembersAfterAdding(c.profiles, u.profiles, news, NewProfileId(c), gid, contents, id);
      IsNewId(c, |contents|, id);
    }
    assert OthersStay(s, u, gid);
  }

  predicate HoldsNew(s: Store, gid: int, id: int, content: Content) {
    id in s.profiles && s.profiles[id] == Profile(id, gid, content)
  }

  lemma HeldIds(s: Store, gid: int, id: int)
    requires Consistent(s) && gid >= 0
    ensures id in Ids(GroupProfiles(s, gid)) <==> id in Members(s.profiles, gid)
  {
    hide Consistent, GroupProfiles, Sorted, Members;
    var held := GroupProfiles(s, gid);
    if id in Ids(held) {
      var i :| 0 <= i < |held| && Ids(held)[i] == id;
      InGroup(s, gid, i);
    }
    if id in Members(s.profiles, gid) {
      var i := MemberInGroup(s, gid, id);
      NamedById(s, gid, id);
      assert Ids(held)[i] == id;
    }
  }
}
