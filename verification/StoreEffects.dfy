/** What each operation of the profile store does to everything that can be seen of it, and what it leaves alone. */
module StoreEffects {
  import opened IdLists
  import opened Options
  import opened Orders
  import opened ProfileLists
  import opened ProfileStore
  import opened ProfileStoreRuns
  import opened TabMoves

  // ----- lists

  /** The entries that are members, in their order. */
  function Among(ids: seq<int>, members: set<int>): seq<int> {
    if ids == [] then []
    else (if ids[0] in members then [ids[0]] else []) + Among(ids[1..], members)
  }

  lemma {:induction false} AmongWithOneMore(ids: seq<int>, id: int, members: set<int>)
    ensures Among(ids + [id], members) == Among(ids, members) + if id in members then [id] else []
  {
    if ids == [] {
      assert ids + [id] == [id];
    } else {
      AmongWithOneMore(ids[1..], id, members);
      assert (ids + [id])[1..] == ids[1..] + [id];
    }
  }

  lemma {:induction false} AmongDependsOnEntries(ids: seq<int>, a: set<int>, b: set<int>)
    requires forall id <- ids :: id in a <==> id in b
    ensures Among(ids, a) == Among(ids, b)
  {
    if ids != [] {
      var first := ids[0];
      assert first in ids;
      AmongDependsOnEntries(ids[1..], a, b);
    }
  }

  /** Removing an id keeps the other entries in their order. */
  lemma {:induction false} RemovingIs(ids: seq<int>, id: int, members: set<int>)
    requires forall other <- ids :: other in members <==> other != id
    ensures RemoveAll(ids, id) == Among(ids, members)
  {
    if ids != [] {
      var first := ids[0];
      assert first in ids;
      RemovingIs(ids[1..], id, members);
    }
  }

  lemma {:induction false} KnownIs(order: seq<int>, groups: map<int, Group>)
    ensures Known(order, groups) == Among(order, groups.Keys)
  {
    if order != [] {
      var n := |order| - 1;
      KnownIs(order[..n], groups);
      AmongWithOneMore(order[..n], order[n], groups.Keys);
      assert order == order[..n] + [order[n]];
    }
  }

  lemma CompletedStep(order: seq<int>, front: seq<int>, last: int)
    requires last !in front
    ensures Completed(order, front + [last])
         == if last in order then Completed(order, front) else Completed(order, front) + [last]
  {
    assert (front + [last])[..|front|] == front;
  }

  lemma MissingWithOneMore(order: seq<int>, front: seq<int>, last: int)
    requires last !in front
    ensures Among(front + [last], Elements(front + [last]) - Elements(order))
         == Among(front, Elements(front) - Elements(order)) + if last in order then [] else [last]
  {
    hide Among;
    var missing := Elements(front + [last]) - Elements(order);
    AmongDependsOnEntries(front, missing, Elements(front) - Elements(order));
    AmongWithOneMore(front, last, missing);
  }

  lemma {:induction false} CompletedIs(order: seq<int>, ids: seq<int>)
    requires Distinct(ids)
    ensures Completed(order, ids) == order + Among(ids, Elements(ids) - Elements(order))
  {
    if ids != [] {
      hide Completed, Among, Elements;
      var front, last := ids[..|ids| - 1], ids[|ids| - 1];
      assert ids == front + [last];
      CompletedIs(order, front);
      CompletedStep(order, front, last);
      MissingWithOneMore(order, front, last);
    }
  }

  /** The tab order that loading gives: the saved one without groups that are gone, then the groups it does not name, by
      id. */
  lemma TabOrderIs(saved: seq<int>, ids: seq<int>, groups: map<int, Group>)
    requires Enumerates(ids, groups.Keys)
    ensures Normalized(None, ids, groups) == ids
    ensures Normalized(Some(saved), ids, groups)
         == Among(saved, groups.Keys) + Among(ids, groups.Keys - Elements(saved))
  {
    hide Completed, Known, Among;
    KnownIs(saved, groups);
    CompletedIs(Known(saved, groups), ids);
    AmongDependsOnEntries(ids, Elements(ids) - Elements(Known(saved, groups)), groups.Keys - Elements(saved));
    CompletedIs([], ids);
    AllAmong(ids, Elements(ids) - Elements([]));
  }

  lemma {:induction false} AllAmong(ids: seq<int>, members: set<int>)
    requires forall id <- ids :: id in members
    ensures Among(ids, members) == ids
  {
    if ids != [] {
      var first := ids[0];
      assert first in ids;
      AllAmong(ids[1..], members);
    }
  }

  /** A new id is the next after the greatest, or 0 when there is none. */
  lemma NewIdsAreNext(s: Store)
    requires Consistent(s)
    ensures forall id :: id in s.profiles ==> id < NewProfileId(s)
    ensures NewProfileId(s) == 0 || NewProfileId(s) - 1 in s.profiles
    ensures forall id :: id in s.groups ==> id < NewGroupId(s)
    ensures NewGroupId(s) == 0 || NewGroupId(s) - 1 in s.groups
  {
    hide IndexRight, Normalized;
    GreatestIsLast(s.profileIds, s.profiles.Keys);
    GreatestIsLast(s.groupIds, s.groups.Keys);
  }

  lemma GreatestIsLast(ids: seq<int>, members: set<int>)
    requires Enumerates(ids, members)
    ensures ids == [] ==> members == {}
    ensures ids != [] ==> var last := ids[|ids| - 1]; last in members && forall id :: id in members ==> id <= last
  {
    if ids != [] {
      var last := ids[|ids| - 1];
      assert last in Elements(ids);
      forall id | id in members
        ensures id <= last
      {
        assert id in Elements(ids);
      }
    }
  }

  // ----- profiles

  /** Saving stores the profile, in memory and in its row, whether it was known or not; nothing else changes. */
  lemma SaveProfilePlaces(s: Store, p: Profile)
    requires Consistent(s)
    ensures p.id < 0 ==> SavedProfile(s, p) == s
    ensures p.id >= 0 ==>
              var t := SavedProfile(s, p);
              && p.id in t.profiles && t.profiles[p.id] == p && p.id in t.db.profiles && t.db.profiles[p.id] == p
              && OnlyDiffersAt(s.profiles, t.profiles, p.id) && OnlyDiffersAt(s.db.profiles, t.db.profiles, p.id)
              && OnlyProfilesDiffer(s, t)
              && (p.id in s.profiles ==> t.profileIds == s.profileIds && t.index == s.index)
  {
    hide IndexRight, GroupsRight, Indexed, Enumerates, Inserted;
  }

  /** Groups, tabs, their rows, the current group and the running profile are as before. */
  predicate OnlyProfilesDiffer(s: Store, t: Store) {
    t == s.(profiles := t.profiles, profileIds := t.profileIds, index := t.index,
            db := s.db.(profiles := t.db.profiles))
  }

  /** What a group is after one of its entries has left it: its lists keep the others in their order. */
  ghost predicate Leaves(before: Group, after: Group, id: int) {
    && after == before.(order := after.order, toggleIds := after.toggleIds)
    && after.order == Among(before.order, Elements(before.order) - {id})
    && after.toggleIds == Among(before.toggleIds, Elements(before.toggleIds) - {id})
  }

  /** The groups are as before but for this one, and their rows are what is in memory. */
  predicate OnlyGroupDiffers(s: Store, t: Store, gid: int) {
    && t.db.groups == t.groups && t.groups.Keys == s.groups.Keys
    && forall other :: other in s.groups && other != gid ==> t.groups[other] == s.groups[other]
  }

  /** Deleting takes a profile away, from memory, table and the lists of its group; the running one stays. */
  lemma DeleteProfilePlaces(s: Store, id: int)
    requires Consistent(s)
    ensures id < 0 || id == s.startedId || id !in s.profiles ==> DeletedProfile(s, id) == s
    ensures id in s.profiles && id != s.startedId ==>
              var t, home := DeletedProfile(s, id), s.profiles[id].gid;
              && t.profiles == s.profiles - {id} && t.db.profiles == t.profiles
              && OnlyGroupDiffers(s, t, home) && (home in s.groups ==> Leaves(s.groups[home], t.groups[home], id))
              && OnlyProfilesDiffer(s.(groups := t.groups, db := s.db.(groups := t.groups)), t)
  {
    if id >= 0 && id != s.startedId {
      if id in s.profiles {
        DeleteKnownPlaces(s, id);
      } else {
        DeleteUnknown(s, id);
      }
    }
  }

  lemma DeleteUnknown(s: Store, id: int)
    requires Consistent(s) && id !in s.profiles
    ensures DeletedProfile(s, id) == s
  {
    hide IndexRight, GroupsRight, Ascending;
    assert s.profiles - {id} == s.profiles && s.db.profiles - {id} == s.db.profiles;
    assert id !in s.profileIds by {
      assert id !in Elements(s.profileIds);
    }
  }

  lemma DeleteKnownPlaces(s: Store, id: int)
    requires Consistent(s) && id in s.profiles && id != s.startedId
    ensures var t, home := DeletedProfile(s, id), s.profiles[id].gid;
            && t.profiles == s.profiles - {id} && t.db.profiles == t.profiles
            && OnlyGroupDiffers(s, t, home) && (home in s.groups ==> Leaves(s.groups[home], t.groups[home], id))
            && OnlyProfilesDiffer(s.(groups := t.groups, db := s.db.(groups := t.groups)), t)
  {
    hide IndexRight, Enumerates, Unindexed, SavedGroup, RemoveAll, Normalized, Distinct, Leaves;
    var home := s.profiles[id].gid;
    if home in s.groups {
      GroupIdOf(s, home);
      KnownGroupSaved(s, WithoutMember(s.groups[home], id));
      WithoutMemberLeaves(s.groups[home], id);
    }
  }

  lemma WithoutMemberLeaves(g: Group, id: int)
    ensures Leaves(g, WithoutMember(g, id), id)
  {
    RemovingIs(g.order, id, Elements(g.order) - {id});
    RemovingIs(g.toggleIds, id, Elements(g.toggleIds) - {id});
  }

  /** Adding or moving a profile leaves tabs, current group and running profile as they were, and writes rows for what
      it changes. */
  lemma AddingLeavesTheRest(s: Store, ent: Profile, gid: int)
    requires Consistent(s)
    ensures var t := AddedProfile(s, ent, gid);
            && t.db.profiles == t.profiles && t.db.groups == t.groups
            && OnlyProfilesDiffer(s.(groups := t.groups, db := s.db.(groups := t.groups)), t)
  {
    hide IndexRight, Enumerates, Indexed, SavedGroup, Normalized, Distinct;
    if ent.id < 0 {
      var p := Profile(NewProfileId(s), TargetGroup(s, gid), ent.content);
      NewProfileIdIsFresh(s);
      TargetIsKnown(s, gid);
      var t := s.(profiles := s.profiles[p.id := p], profileIds := s.profileIds + [p.id],
                  index := Indexed(s.index, p.id, p.gid));
      GroupIdOf(s, p.gid);
      KnownGroupSaved(t, WithToggle(t.groups[p.gid], p.id));
      assert s.profiles[p.id := p][p.id := p] == s.profiles[p.id := p];
    }
  }

  lemma MovingLeavesTheRest(s: Store, id: int, gid: int)
    requires Consistent(s) && id in s.profiles
    ensures var t := MovedProfile(s, s.profiles[id], gid);
            && t.db.profiles == t.profiles && t.db.groups == t.groups && t.profileIds == s.profileIds
            && OnlyProfilesDiffer(s.(groups := t.groups, db := s.db.(groups := t.groups)), t)
  {
    hide IndexRight, Enumerates, Unindexed, Indexed, SavedGroup, RemoveAll, Normalized, Distinct;
    var ent := s.profiles[id];
    if gid != ent.gid && gid >= 0 {
      var t := s;
      if ent.gid in s.groups {
        GroupIdOf(s, ent.gid);
        KnownGroupSaved(s, WithoutMember(s.groups[ent.gid], id));
        t := SavedGroup(s, WithoutMember(s.groups[ent.gid], id));
      }
      var u := t.(index := Unindexed(t.index, id, ent.gid));
      if gid in u.groups {
        GroupIdOf(u, gid);
        KnownGroupSaved(u, WithMember(u.groups[gid], id));
      }
    }
  }

  // ----- groups

  /** Profiles, their rows and ids, and the running profile are as before. */
  predicate OnlyGroupsDiffer(s: Store, t: Store) {
    t == s.(groups := t.groups, groupIds := t.groupIds, tabOrder := t.tabOrder, index := t.index,
            currentGroup := t.currentGroup, db := s.db.(groups := t.db.groups, tabOrder := t.db.tabOrder))
  }

  /** A new group comes last among ids and tabs, which are saved; it becomes the current one when there was none. */
  lemma AddGroupPlaces(s: Store, ent: Group)
    requires GroupsRight(s.groups, s.groupIds, s.tabOrder, s.db.groups, s.db.tabOrder)
    ensures ent.id >= 0 ==> AddedGroup(s, ent) == s
    ensures ent.id < 0 ==>
              var t, id := AddedGroup(s, ent), NewGroupId(s);
              && id !in s.groups && t.groups == s.groups[id := ent.(id := id)] && t.db.groups == t.groups
              && t.groupIds == s.groupIds + [id]
              && t.tabOrder == s.tabOrder + [id] && t.db.tabOrder == Some(t.tabOrder)
              && t.currentGroup == (if s.currentGroup in s.groups then s.currentGroup else id)
              && OnlyGroupsDiffer(s, t)
  {
    hide Normalized, Enumerates, Distinct;
    NewGroupIdIsFresh(s);
    if ent.id < 0 {
      var g := ent.(id := NewGroupId(s));
      assert s.groups[g.id := g][g.id := g] == s.groups[g.id := g];
    }
  }

  /** Saving a group that is not known makes it known, with a last tab that is not saved. */
  lemma SaveGroupPlaces(s: Store, g: Group)
    requires GroupsRight(s.groups, s.groupIds, s.tabOrder, s.db.groups, s.db.tabOrder)
    ensures g.id < 0 ==> SavedGroup(s, g) == s
    ensures g.id >= 0 ==>
              var t := SavedGroup(s, g);
              && t.groups == s.groups[g.id := g] && t.db.groups == t.groups
              && t.tabOrder == (if g.id in s.groups then s.tabOrder else s.tabOrder + [g.id])
              && t.db.tabOrder == s.db.tabOrder && t.currentGroup == s.currentGroup
              && OnlyGroupsDiffer(s, t)
  {
    hide Normalized, Enumerates, Distinct, Inserted;
    if g.id !in s.groups {
      assert g.id !in s.tabOrder by {
        assert g.id !in Elements(s.tabOrder);
      }
    }
  }

  /** Deleting a group deletes its profiles but the running one, then the group and its tab; when it was the current
      one, the first tab that is left takes its place. All other groups and profiles are as before. */
  lemma DeleteGroupPlaces(s: Store, gid: int)
    requires Consistent(s) && gid in s.groups
    ensures |s.groups| <= 1 ==> DeletedGroup(s, gid) == s
    ensures |s.groups| > 1 ==>
              var t := DeletedGroup(s, gid);
              && (forall id :: id in t.profiles <==>
                    id in s.profiles && (s.profiles[id].gid != gid || id == s.startedId))
              && (forall id :: id in t.profiles ==> t.profiles[id] == s.profiles[id])
              && t.groups.Keys == s.groups.Keys - {gid} && t.db.groups == t.groups && t.db.profiles == t.profiles
              && (forall other :: other in t.groups ==> t.groups[other] == s.groups[other])
              && t.tabOrder == Among(s.tabOrder, t.groups.Keys) && t.db.tabOrder == Some(t.tabOrder)
              && t.tabOrder != []
              && t.currentGroup == (if s.currentGroup == gid then t.tabOrder[0] else s.currentGroup)
              && t.startedId == s.startedId
  {
    if |s.groups| > 1 {
      hide DeletedProfiles, WithoutGroup, IdsIn, Among, Consistent;
      var left := DeletedProfiles(s, IdsIn(s.index, gid));
      MembersDeleted(s, gid);
      GroupDropped(left, gid);
    }
  }

  lemma MembersDeleted(s: Store, gid: int)
    requires Consistent(s) && gid in s.groups
    ensures var t := DeletedProfiles(s, IdsIn(s.index, gid));
            && Consistent(t) && OnlyGroupDiffers(s, t, gid)
            && t.tabOrder == s.tabOrder && t.currentGroup == s.currentGroup && t.startedId == s.startedId
            && (forall id :: id in t.profiles <==>
                  id in s.profiles && (s.profiles[id].gid != gid || id == s.startedId))
            && (forall id :: id in t.profiles ==> t.profiles[id] == s.profiles[id])
  {
    hide DeletedProfiles, IndexRight, GroupsRight;
    var ids := IdsIn(s.index, gid);
    GroupIdOf(s, gid);
    MembersAreListed(s, gid);
    OthersKept(s, ids, gid);
    DeleteProfilesKeeps(s, ids);
  }

  lemma GroupDropped(s: Store, gid: int)
    requires Consistent(s) && gid in s.groups && |s.groups| > 1
    ensures var t := WithoutGroup(s, gid);
            && t.profiles == s.profiles && t.db.profiles == t.profiles
            && t.groups == s.groups - {gid} && t.db.groups == t.groups
            && t.tabOrder == Among(s.tabOrder, t.groups.Keys) && t.db.tabOrder == Some(t.tabOrder)
            && t.tabOrder != []
            && t.currentGroup == (if s.currentGroup == gid then t.tabOrder[0] else s.currentGroup)
            && t.startedId == s.startedId
  {
    hide IndexRight, Enumerates, Normalized, Distinct, RemoveAll;
    TabsAreGroups(s);
    RemovingIs(s.tabOrder, gid, s.groups.Keys - {gid});
    assert (s.groups - {gid}).Keys == s.groups.Keys - {gid};
    FirstTabRemains(s, gid);
  }

  lemma TabsAreGroups(s: Store)
    requires GroupsRight(s.groups, s.groupIds, s.tabOrder, s.db.groups, s.db.tabOrder)
    ensures forall id <- s.tabOrder :: id in s.groups
  {
    forall id <- s.tabOrder
      ensures id in s.groups
    {
      assert id in Elements(s.tabOrder);
    }
  }

  lemma MembersAreListed(s: Store, gid: int)
    requires Consistent(s) && gid >= 0
    ensures forall id :: id in IdsIn(s.index, gid) <==> id in s.profiles && s.profiles[id].gid == gid
  {
    hide ProfilesRight, GroupsRight;
    assert Answers(s.index, s.profiles, gid);
    SortedEnumerates(Members(s.profiles, gid));
  }

  /** Deleting profiles of one group leaves the other groups, the tabs and the rest alone. */
  lemma {:induction false} OthersKept(s: Store, ids: seq<int>, gid: int)
    requires Consistent(s) && forall id <- ids :: id in s.profiles && s.profiles[id].gid == gid
    ensures var t := DeletedProfiles(s, ids);
            && OnlyGroupDiffers(s, t, gid)
            && (gid in s.groups ==>
                  && t.groups[gid] == s.groups[gid].(order := t.groups[gid].order, toggleIds := t.groups[gid].toggleIds)
                  && (s.groups[gid].order == [] ==> t.groups[gid].order == []))
            && t.tabOrder == s.tabOrder && t.db.tabOrder == s.db.tabOrder && t.currentGroup == s.currentGroup
  {
    hide DeletedProfile;
    if ids != [] {
      var shorter, last := ids[..|ids| - 1], ids[|ids| - 1];
      OthersKept(s, shorter, gid);
      DeleteProfilesKeeps(s, shorter);
      DeleteProfilePlaces(DeletedProfiles(s, shorter), last);
    }
  }

  // ----- start-up and tabs

  /** Start-up keeps the remembered current group if it is still there and goes to the first tab if not; without any
      group it makes one, named Default, and saves it. */
  lemma OpenedPlaces(db: Database, currentGroup: int, startedId: int)
    requires Readable(db)
    ensures var t := Opened(db, currentGroup, startedId);
            && t.profiles == db.profiles && t.startedId == startedId
            && if db.groups == map[]
               then && t.groups == map[0 := Group(0, false, [], [], Settings("Default", -1))]
                    && t.tabOrder == [0] && t.currentGroup == 0 && t.db.profiles == db.profiles
                    && t.db.groups == t.groups && t.db.tabOrder == Some([0])
               else && t.groups == db.groups && t.db == db && t.tabOrder != []
                    && t.currentGroup == if currentGroup in db.groups then currentGroup else t.tabOrder[0]
  {
    hide Loaded, IndexRight, ProfilesRight, GroupsRight, Readable, TabsOnce;
    var s := Loaded(db, currentGroup, startedId);
    LoadedIsRight(db, currentGroup, startedId);
    LoadedKeepsRows(db, currentGroup, startedId);
    if s.groups == map[] {
      NoTabs(db);
      NoTabYet(s);
      AddGroupPlaces(s, DEFAULT_GROUP);
    } else {
      FirstTabIsKnown(s);
    }
  }

  lemma NoTabYet(s: Store)
    requires s.groups == map[] && Elements(s.tabOrder) == s.groups.Keys
    ensures s.tabOrder == [] && NewGroupId(s) == 0
  {
    EmptyWithoutElements(s.tabOrder);
  }

  lemma EmptyWithoutElements(ids: seq<int>)
    ensures ids == [] <==> Elements(ids) == {}
  {
    if ids != [] {
      assert ids[0] in Elements(ids);
    }
  }

  /** After a move of tabs the visible groups stand in the order that was asked for. */
  lemma {:induction false} VisibleInNewOrder(tabs: seq<int>, visible: seq<int>, groups: map<int, Group>)
    requires forall gid <- visible :: gid in groups && !groups[gid].archive
    ensures Among(Woven(tabs, visible, groups), groups.Keys - Archived(groups)) == visible
  {
    if tabs == [] {
      AllAmong(visible, groups.Keys - Archived(groups));
    } else {
      VisibleInNewOrder(tabs[1..], visible, groups);
      if visible != [] {
        var first := visible[0];
        assert first in visible;
        VisibleInNewOrder(tabs[1..], visible[1..], groups);
        assert [first] + visible[1..] == visible;
      }
    }
  }

  /** A listing by ids shows the profiles that are there, in that order. */
  lemma {:induction false} ListingIs(profiles: map<int, Profile>, ids: seq<int>)
    ensures var known := Among(ids, profiles.Keys);
            && (forall id <- known :: id in profiles) && |ProfilesAt(profiles, ids)| == |known|
            && forall k :: 0 <= k < |known| ==>
                 known[k] in profiles && ProfilesAt(profiles, ids)[k] == profiles[known[k]]
  {
    if ids != [] {
      var n := |ids| - 1;
      ListingIs(profiles, ids[..n]);
      AmongWithOneMore(ids[..n], ids[n], profiles.Keys);
      assert ids == ids[..n] + [ids[n]];
    }
  }
}
