/** What a subscription update makes of a group. */
module SubscriptionMerge {
  import opened IdLists
  import opened ProfileStore
  import opened ProfileStoreRuns
  import opened SubscriptionUpdate
  import PF = ProfileFilter

  /** The groups differ in their lists only. */
  ghost predicate SameData(a: map<int, Group>, b: map<int, Group>) {
    a.Keys == b.Keys && forall gid :: gid in a ==> SameFlags(a[gid], b[gid])
  }

  predicate SameFlags(a: Group, b: Group) {
    a.archive == b.archive && a.settings == b.settings
  }

  // ----- adding the fetched profiles

  lemma AddedOneIs(s: Store, gid: int, content: Content)
    requires Consistent(s) && gid in s.groups
    ensures var t, id := AddedProfile(s, Profile(-1, -1, content), gid), NewProfileId(s);
            && TargetGroup(s, gid) == gid && id >= 0
            && Consistent(t) && NewProfileId(t) == id + 1
            && (forall other :: other in s.profiles ==> other < id)
            && t.profiles == s.profiles[id := Profile(id, gid, content)]
            && SameData(s.groups, t.groups) && t.groups[gid].order == s.groups[gid].order
            && t.startedId == s.startedId
  {
    hide IndexRight, GroupsRight, Indexed, SavedGroup, Inserted;
    var id := NewProfileId(s);
    var p := Profile(id, gid, content);
    GroupIdOf(s, gid);
    AddProfileKeeps(s, Profile(-1, -1, content), gid);
    NewProfileIdIsFresh(s);
    var t := s.(profiles := s.profiles[id := p], profileIds := s.profileIds + [id], index := Indexed(s.index, id, gid));
    KnownGroupSaved(t, WithToggle(t.groups[gid], id));
    assert s.profiles[id := p][id := p] == s.profiles[id := p];
    forall other | other in s.profiles
      ensures other < id
    {
      BelowTheNew(s, other);
    }
  }

  lemma BelowTheNew(s: Store, id: int)
    requires ProfilesRight(s.profiles, s.profileIds, s.db.profiles) && id in s.profiles
    ensures id < NewProfileId(s)
  {
    assert id in Elements(s.profileIds);
    var k :| 0 <= k < |s.profileIds| && s.profileIds[k] == id;
  }

  /** The profiles after adding are those before and the new ones, under consecutive ids. */
  ghost predicate HasAdded(before: map<int, Profile>, after: map<int, Profile>, news: seq<Profile>, first: int,
      gid: int, contents: seq<Content>)
  {
    && |news| == |contents|
    && (forall k :: 0 <= k < |news| ==> news[k] == Profile(first + k, gid, contents[k]))
    && (forall id :: id in after <==> id in before || first <= id < first + |contents|)
    && (forall id :: id in before ==> id < first && id in after && after[id] == before[id])
    && (forall id :: first <= id < first + |contents| ==>
          id in after && after[id] == Profile(id, gid, contents[id - first]))
  }

  ghost predicate AddedRightly(s: Store, t: Store, news: seq<Profile>, gid: int, contents: seq<Content>) {
    && Consistent(t) && SameData(s.groups, t.groups) && gid in s.groups && t.groups[gid].order == s.groups[gid].order
    && t.startedId == s.startedId && NewProfileId(t) == NewProfileId(s) + |contents|
    && HasAdded(s.profiles, t.profiles, news, NewProfileId(s), gid, contents)
  }

  lemma {:induction false} AddedAllIs(s: Store, gid: int, contents: seq<Content>)
    requires Consistent(s) && gid in s.groups
    ensures AddedRightly(s, AddedAll(s, gid, contents), NewOnes(s, gid, contents), gid, contents)
  {
    hide *;
    if contents == [] {
      NothingAdded(s, gid);
    } else {
      var shorter, last := contents[..|contents| - 1], contents[|contents| - 1];
      assert contents == shorter + [last];
      AddedAllIs(s, gid, shorter);
      OneMoreAddedRightly(s, gid, shorter, last);
    }
  }

  lemma OneMoreAddedRightly(s: Store, gid: int, contents: seq<Content>, last: Content)
    requires AddedRightly(s, AddedAll(s, gid, contents), NewOnes(s, gid, contents), gid, contents)
    ensures var more := contents + [last];
            AddedRightly(s, AddedAll(s, gid, more), NewOnes(s, gid, more), gid, more)
  {
    hide Consistent, AddedProfile, NewProfileId, TargetGroup, HasAdded;
    var more := contents + [last];
    assert more[..|more| - 1] == contents;
    var t := AddedAll(s, gid, contents);
    AddedOneIs(t, gid, last);
    OneMoreAdded(s.profiles, t.profiles, NewOnes(s, gid, contents), NewProfileId(s), gid, contents, last);
  }

  lemma NothingAdded(s: Store, gid: int)
    requires Consistent(s) && gid in s.groups
    ensures AddedRightly(s, AddedAll(s, gid, []), NewOnes(s, gid, []), gid, [])
  {
    hide NewProfileId, GroupsRight, IndexRight;
    forall id | id in s.profiles
      ensures id < NewProfileId(s)
    {
      BelowTheNew(s, id);
    }
  }

  lemma OneMoreAdded(before: map<int, Profile>, middle: map<int, Profile>, news: seq<Profile>, first: int, gid: int,
      contents: seq<Content>, last: Content)
    requires HasAdded(before, middle, news, first, gid, contents)
    ensures var p := Profile(first + |contents|, gid, last);
            HasAdded(before, middle[p.id := p], news + [p], first, gid, contents + [last])
  {
  }

  // ----- the group before, and with the new profiles

  lemma GroupProfilesAre(s: Store, gid: int)
    requires Consistent(s) && gid >= 0
    ensures var ids := Sorted(Members(s.profiles, gid));
            && IdsIn(s.index, gid) == ids && |GroupProfiles(s, gid)| == |ids|
            && forall k :: 0 <= k < |ids| ==> ids[k] in s.profiles && GroupProfiles(s, gid)[k] == s.profiles[ids[k]]
                                              && s.profiles[ids[k]].id == ids[k]
  {
    hide Sorted, GroupsRight;
    assert Answers(s.index, s.profiles, gid);
    var ids := Sorted(Members(s.profiles, gid));
    forall k | 0 <= k < |ids|
      ensures ids[k] in Members(s.profiles, gid)
    {
      var id := ids[k];
      assert id in ids;
    }
    ProfilesAtKnown(s.profiles, ids);
  }

  lemma IdsAfterAdding(before: map<int, Profile>, after: map<int, Profile>, news: seq<Profile>, first: int, gid: int,
      contents: seq<Content>)
    requires HasAdded(before, after, news, first, gid, contents)
    ensures Sorted(Members(after, gid)) == Sorted(Members(before, gid)) + From(first, |contents|)
  {
    hide *;
    var a, b := Sorted(Members(before, gid)), From(first, |contents|);
    JoinIsAscending(a, first, |contents|) by {
      OldMembersAreBelow(before, after, news, first, gid, contents);
    }
    forall id
      ensures id in a + b <==> id in Sorted(Members(after, gid))
    {
      FromHas(first, |contents|, id);
      MembersAfterAdding(before, after, news, first, gid, contents, id);
      assert id in a + b <==> id in a || id in b;
    }
    AscendingIsUnique(a + b, Sorted(Members(after, gid)));
  }

  lemma OldMembersAreBelow(before: map<int, Profile>, after: map<int, Profile>, news: seq<Profile>, first: int,
      gid: int, contents: seq<Content>)
    requires HasAdded(before, after, news, first, gid, contents)
    ensures forall id :: id in Members(before, gid) ==> id < first
  {
  }

  lemma MembersAfterAdding(before: map<int, Profile>, after: map<int, Profile>, news: seq<Profile>, first: int,
      gid: int, contents: seq<Content>, id: int)
    requires HasAdded(before, after, news, first, gid, contents)
    ensures id in Members(after, gid) <==> id in Members(before, gid) || first <= id < first + |contents|
  {
  }

  lemma JoinIsAscending(a: seq<int>, first: int, n: nat)
    requires Ascending(a) && forall id :: id in a ==> id < first
    ensures Ascending(a + From(first, n))
  {
    forall k | 0 <= k < |a|
      ensures a[k] < first
    {
      var id := a[k];
      assert id in a;
    }
  }

  lemma GroupAfterAdding(s: Store, t: Store, news: seq<Profile>, gid: int, contents: seq<Content>)
    requires Consistent(s) && Consistent(t) && gid >= 0
    requires HasAdded(s.profiles, t.profiles, news, NewProfileId(s), gid, contents)
    ensures GroupProfiles(t, gid) == GroupProfiles(s, gid) + news
    ensures PF.Excluding(GroupProfiles(t, gid), GroupProfiles(s, gid)) == news
  {
    hide Consistent, GroupProfiles, Members, Sorted, NewProfileId;
    GroupProfilesAre(s, gid);
    GroupProfilesAre(t, gid);
    IdsAfterAdding(s.profiles, t.profiles, news, NewProfileId(s), gid, contents);
    var held, all := GroupProfiles(s, gid), GroupProfiles(t, gid);
    forall k | 0 <= k < |all|
      ensures all[k] == (held + news)[k]
    {
    }
    assert all == held + news;
    forall e <- news
      ensures e !in held
    {
    }
    ExcludingTheFirst(held, news);
  }

  lemma {:induction false} ExcludingTheFirst(a: seq<Profile>, b: seq<Profile>)
    requires forall e <- b :: e !in a
    ensures PF.Excluding(a + b, a) == b
  {
    if b == [] {
      assert a + b == a;
      ExcludingAll(a, a);
    } else {
      var shorter, last := b[..|b| - 1], b[|b| - 1];
      ExcludingTheFirst(a, shorter);
      assert (a + b)[..|a + b| - 1] == a + shorter;
      assert last in b;
    }
  }

  lemma {:induction false} ExcludingAll(es: seq<Profile>, others: seq<Profile>)
    requires forall e <- es :: e in others
    ensures PF.Excluding(es, others) == []
  {
    if es != [] {
      ExcludingAll(es[..|es| - 1], others);
      assert es[|es| - 1] in es;
    }
  }

  // ----- the order

  /** The id that a fetched profile ends up under: that of the last old profile with its key, or its new one. */
  function MergedId(held: seq<Profile>, e: Profile, key: Content -> string): int {
    var last := PF.LastByKey(held, EntityKey(key));
    if key(e.content) in last then last[key(e.content)].id else e.id
  }

  function MergedOrder(held: seq<Profile>, news: seq<Profile>, key: Content -> string): seq<int> {
    seq(|news|, k requires 0 <= k < |news| => MergedId(held, news[k], key))
  }

  predicate Pairs(held: seq<Profile>, doubles: seq<Profile>, kept: seq<Profile>, key: Content -> string) {
    && |kept| == |doubles|
    && forall i :: 0 <= i < |doubles| ==>
         var last := PF.LastByKey(held, EntityKey(key));
         key(doubles[i].content) in last && kept[i] == last[key(doubles[i].content)]
  }

  predicate DoublesAmong(held: seq<Profile>, news: seq<Profile>, doubles: seq<Profile>, key: Content -> string) {
    forall e <- news :: e in doubles <==> key(e.content) in PF.LastByKey(held, EntityKey(key))
  }

  lemma {:induction false} SubstitutedIs(held: seq<Profile>, news: seq<Profile>, doubles: seq<Profile>,
      kept: seq<Profile>, key: Content -> string)
    requires Pairs(held, doubles, kept, key) && DoublesAmong(held, news, doubles, key)
    ensures Substituted(news, doubles, kept) == MergedOrder(held, news, key)
  {
    if news != [] {
      hide Position, PF.LastByKey;
      var shorter, last := news[..|news| - 1], news[|news| - 1];
      assert news == shorter + [last];
      SubstitutedIs(held, shorter, doubles, kept, key);
      assert last in news;
      assert MergedOrder(held, news, key) == MergedOrder(held, shorter, key) + [MergedId(held, last, key)];
    }
  }

  // ----- the cleanup

  /** What stays: profiles that were not looked at, those in the order, and the running one. */
  function Remaining(profiles: map<int, Profile>, looked: seq<int>, order: seq<int>, startedId: int)
    : map<int, Profile>
  {
    map id | id in profiles && (id !in looked || id in order || id == startedId) :: profiles[id]
  }

  lemma DeletedKeepsOrder(s: Store, id: int, gid: int)
    requires Consistent(s) && gid in s.groups && id !in s.groups[gid].order
    ensures SameData(s.groups, DeletedProfile(s, id).groups)
    ensures DeletedProfile(s, id).groups[gid].order == s.groups[gid].order
  {
    hide IndexRight, Enumerates, Unindexed, SavedGroup, Normalized, RemoveAll;
    if id in s.profiles && s.profiles[id].gid in s.groups {
      KnownGroupSaved(s, WithoutMember(s.groups[s.profiles[id].gid], id));
    }
  }

  ghost predicate CleanedRightly(s: Store, u: Store, gid: int, looked: seq<int>) {
    && Consistent(u) && gid in s.groups && SameData(s.groups, u.groups) && u.groups[gid].order == s.groups[gid].order
    && u.startedId == s.startedId && u.currentGroup == s.currentGroup
    && u.profiles == Remaining(s.profiles, looked, s.groups[gid].order, s.startedId)
  }

  lemma OneMoreRemaining(profiles: map<int, Profile>, looked: seq<int>, id: int, order: seq<int>, startedId: int)
    ensures Remaining(profiles, looked + [id], order, startedId)
            == if id in order || id == startedId then Remaining(profiles, looked, order, startedId)
               else Remaining(profiles, looked, order, startedId) - {id}
  {
    var after := Remaining(profiles, looked + [id], order, startedId);
    forall other
      ensures other in looked + [id] <==> other in looked || other == id
    {
    }
    if id in order || id == startedId {
      assert after == Remaining(profiles, looked, order, startedId);
    } else {
      assert after == Remaining(profiles, looked, order, startedId) - {id};
    }
  }

  lemma CleanedOneMore(s: Store, u: Store, gid: int, looked: seq<int>, id: int)
    requires CleanedRightly(s, u, gid, looked)
    ensures CleanedRightly(s, if id in u.groups[gid].order then u else DeletedProfile(u, id), gid, looked + [id])
  {
    hide Consistent, DeletedProfile, Remaining;
    OneMoreRemaining(s.profiles, looked, id, s.groups[gid].order, s.startedId);
    if id !in u.groups[gid].order {
      DeleteProfileKeeps(u, id);
      DeletedProfileDrops(u, id);
      DeletedKeepsOrder(u, id, gid);
    }
  }

  lemma NothingCleaned(s: Store, gid: int)
    requires Consistent(s) && gid in s.groups
    ensures CleanedRightly(s, s, gid, [])
  {
    assert Remaining(s.profiles, [], s.groups[gid].order, s.startedId) == s.profiles;
  }

  lemma {:induction false} CleanedUpIs(s: Store, gid: int, ents: seq<Profile>)
    requires Consistent(s) && gid in s.groups
    ensures CleanedRightly(s, CleanedUp(s, gid, ents), gid, Ids(ents))
  {
    hide Consistent, DeletedProfile, CleanedRightly;
    if ents == [] {
      NothingCleaned(s, gid);
      assert Ids(ents) == [];
    } else {
      var shorter, last := ents[..|ents| - 1], ents[|ents| - 1];
      CleanedUpIs(s, gid, shorter);
      var u := CleanedUp(s, gid, shorter);
      GroupStays(s, u, gid, Ids(shorter));
      CleanedOneMore(s, u, gid, Ids(shorter), last.id);
      assert Ids(ents) == Ids(shorter) + [last.id];
    }
  }

  lemma GroupStays(s: Store, u: Store, gid: int, looked: seq<int>)
    requires CleanedRightly(s, u, gid, looked)
    ensures gid in u.groups
  {
  }

  // ----- the whole update

  lemma PreparedIs(s: Store, gid: int, refreshed: Settings)
    requires Consistent(s) && gid in s.groups
    ensures var p := Prepared(s, gid, refreshed);
            && Consistent(p) && p.profiles == s.profiles && p.startedId == s.startedId
            && SameData(s.groups[gid := s.groups[gid].(settings := refreshed)], p.groups)
            && GroupProfiles(p, gid) == GroupProfiles(s, gid) && NewProfileId(p) == NewProfileId(s)
  {
    hide IndexRight, GroupsRight, ProfilesRight, SavedGroup, ProfilesAt;
    GroupIdOf(s, gid);
    KnownGroupSaved(s, s.groups[gid].(order := [], settings := refreshed));
  }

  /** The store after an update in terms of the one before: the order, and what is left of the old and new profiles. */
  ghost predicate UpdatedRightly(s: Store, t: Store, u: Store, gid: int, contents: seq<Content>, news: seq<Profile>,
      key: Content -> string)
  {
    var order := MergedOrder(GroupProfiles(s, gid), news, key);
    && Consistent(u) && gid in s.groups && gid in u.groups && u.groups[gid].order == order
    && u.startedId == s.startedId
    && HasAdded(s.profiles, t.profiles, news, NewProfileId(s), gid, contents)
    && u.profiles == Remaining(t.profiles, Ids(GroupProfiles(s, gid) + news), order, s.startedId)
  }

  lemma OrderedIs(t: Store, gid: int, order: seq<int>)
    requires Consistent(t) && gid in t.groups
    ensures var w := WithOrder(t, gid, order);
            && Consistent(w) && w.profiles == t.profiles && SameData(t.groups, w.groups) && w.startedId == t.startedId
            && w.groups[gid].order == order
  {
    hide IndexRight, GroupsRight, ProfilesRight, SavedGroup;
    GroupIdOf(t, gid);
    KnownGroupSaved(t, t.groups[gid].(order := order));
  }

  lemma MergeIs(s: Store, t: Store, gid: int, contents: seq<Content>, news: seq<Profile>, key: Content -> string)
    requires Consistent(s) && gid in s.groups
    requires AddedRightly(s, t, news, gid, contents)
    ensures var held, o := GroupProfiles(s, gid), SubscriptionUpdate.Merged(t, gid, GroupProfiles(s, gid), news, key);
            && UpdatedRightly(s, t, o.store, gid, contents, news, key) && SameData(s.groups, o.store.groups)
            && o.report == Changed(PF.Lacking(news, PF.KeysOf(held, EntityKey(key)), EntityKey(key)),
                                   PF.Lacking(held, PF.KeysOf(news, EntityKey(key)), EntityKey(key)))
  {
    hide Consistent, GroupProfiles, HasAdded, PF.Excluding, PF.Lacking, PF.KeysOf, PF.LastByKey, PF.Having, Substituted,
      WithOrder, CleanedUp, Remaining, NewProfileId;
    var held := GroupProfiles(s, gid);
    assert gid >= 0 by {
      GroupsAreNatural(s, gid);
    }
    GroupAfterAdding(s, t, news, gid, contents);
    var last := PF.LastByKey(held, EntityKey(key));
    var doubles := PF.Having(news, last.Keys, EntityKey(key));
    var kept := seq(|doubles|, i requires 0 <= i < |doubles| =>
                    if EntityKey(key)(doubles[i]) in last then last[EntityKey(key)(doubles[i])] else doubles[i]);
    forall i | 0 <= i < |doubles|
      ensures key(doubles[i].content) in last && kept[i] == last[key(doubles[i].content)]
    {
      assert doubles[i] in doubles;
      assert EntityKey(key)(doubles[i]) == key(doubles[i].content);
    }
    SubstitutedIs(held, news, doubles, kept, key);
    var order := MergedOrder(held, news, key);
    var ordered := WithOrder(t, gid, order);
    OrderedIs(t, gid, order);
    CleanedUpIs(ordered, gid, held + news);
  }

  lemma GroupsAreNatural(s: Store, gid: int)
    requires Consistent(s) && gid in s.groups
    ensures gid >= 0
  {
  }

  lemma UpdateIs(s: Store, gid: int, contents: seq<Content>, refreshed: Settings, key: Content -> string)
    returns (t: Store, news: seq<Profile>)
    requires Consistent(s) && gid in s.groups && !s.groups[gid].archive
    ensures var held, o := GroupProfiles(s, gid), Updated(s, gid, contents, refreshed, false, key);
            && UpdatedRightly(s, t, o.store, gid, contents, news, key)
            && SameData(s.groups[gid := s.groups[gid].(settings := refreshed)], o.store.groups)
            && o.report == Changed(PF.Lacking(news, PF.KeysOf(held, EntityKey(key)), EntityKey(key)),
                                   PF.Lacking(held, PF.KeysOf(news, EntityKey(key)), EntityKey(key)))
  {
    hide Consistent, GroupProfiles, HasAdded, AddedAll, NewOnes, Prepared, NewProfileId, SubscriptionUpdate.Merged,
      PF.Lacking, PF.KeysOf, Remaining, MergedOrder;
    var p := Prepared(s, gid, refreshed);
    PreparedIs(s, gid, refreshed);
    t, news := AddedAll(p, gid, contents), NewOnes(p, gid, contents);
    AddedAllIs(p, gid, contents);
    MergeIs(p, t, gid, contents, news, key);
  }
}
