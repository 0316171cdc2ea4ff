/** The other cases of a subscription update: no group to update, an archived group, and what clearing does to the group
    itself. */
module SubscriptionCases {
  import opened IdLists
  import opened ProfileLists
  import opened ProfileStore
  import opened ProfileStoreRuns
  import opened StoreEffects
  import opened SubscriptionMerge
  import opened SubscriptionUpdate

  lemma {:induction false} AddedAllAtHome(s: Store, gid: int, home: int, contents: seq<Content>)
    requires Consistent(s) && home == TargetGroup(s, gid) && home in s.groups
    ensures var t := AddedAll(s, gid, contents);
            && t == AddedAll(s, home, contents) && Consistent(t)
            && t.groups.Keys == s.groups.Keys && t.tabOrder == s.tabOrder && t.currentGroup == s.currentGroup
    ensures |NewOnes(s, gid, contents)| == |contents|
  {
    if contents != [] {
      hide Consistent, SavedProfile, SavedWithToggle, NewProfileId;
      var shorter, last := contents[..|contents| - 1], Profile(-1, -1, contents[|contents| - 1]);
      AddedAllAtHome(s, gid, home, shorter);
      var t := AddedAll(s, gid, shorter);
      SameHome(s, t, gid, home);
      AddProfileKeeps(t, last, home);
      AddProfilePlaces(t, last, home);
      AddingLeavesTheRest(t, last, home);
    }
  }

  lemma SameHome(s: Store, t: Store, gid: int, home: int)
    requires Consistent(s) && home == TargetGroup(s, gid) && home in s.groups
    requires t.groups.Keys == s.groups.Keys && t.tabOrder == s.tabOrder && t.currentGroup == s.currentGroup
    ensures TargetGroup(t, gid) == home == TargetGroup(t, home)
  {
    hide IndexRight, ProfilesRight, Normalized, Enumerates;
    GroupIdOf(s, home);
    assert home in t.groups.Keys;
    assert forall other :: other in t.groups <==> other in s.groups.Keys;
  }

  /** Without a group of that id the fetched profiles are imported: they come to the current group when none was named,
      and to that of the first tab when there is none of that name, under the next ids. */
  lemma ImportAddsAll(s: Store, gid: int, contents: seq<Content>, refreshed: Settings, clear: bool,
      key: Content -> string)
    requires Consistent(s) && gid !in s.groups
    ensures var o, home := Updated(s, gid, contents, refreshed, clear, key), if gid < 0 then s.currentGroup
                                                                             else s.tabOrder[0];
            && o.report == Imported(|contents|) && home in s.groups
            && AddedRightly(s, o.store, NewOnes(s, home, contents), home, contents)
  {
    hide IndexRight, ProfilesRight, Normalized, Enumerates, AddedAll, NewOnes, AddedRightly;
    TargetIsKnown(s, gid);
    TabsAreGroups(s);
    assert s.currentGroup in Elements(s.tabOrder);
    var home := TargetGroup(s, gid);
    AddedAllAtHome(s, gid, home, contents);
    AddedAllIs(s, home, contents);
  }

  /** An archived group is left alone. */
  lemma ArchivedIsLeftAlone(s: Store, gid: int, contents: seq<Content>, refreshed: Settings, clear: bool,
      key: Content -> string)
    requires gid in s.groups
    ensures s.groups[gid].archive <==> Updated(s, gid, contents, refreshed, clear, key).report == Archived
    ensures s.groups[gid].archive ==> Updated(s, gid, contents, refreshed, clear, key).store == s
  {
  }

  /** Clearing refreshes the data of the group, too, and leaves that of the others. */
  lemma ClearingRefreshes(s: Store, gid: int, contents: seq<Content>, refreshed: Settings, key: Content -> string)
    requires Consistent(s) && gid in s.groups && !s.groups[gid].archive
    ensures var u := Updated(s, gid, contents, refreshed, true, key).store;
            SameData(s.groups[gid := s.groups[gid].(settings := refreshed)], u.groups) && u.groups[gid].order == []
  {
    hide IndexRight, ProfilesRight, GroupsRight, SavedGroup, DeletedProfiles, AddedAll, NewOnes, HasAdded, NewProfileId,
      GroupProfiles;
    var p, held := Prepared(s, gid, refreshed), GroupProfiles(s, gid);
    GroupIdOf(s, gid);
    KnownGroupSaved(s, s.groups[gid].(order := [], settings := refreshed));
    PreparedIs(s, gid, refreshed);
    HeldAreMembers(s, gid);
    OthersKept(p, Ids(held), gid);
    DeleteProfilesKeeps(p, Ids(held));
    AddedAllIs(DeletedProfiles(p, Ids(held)), gid, contents);
  }

  lemma HeldAreMembers(s: Store, gid: int)
    requires Consistent(s) && gid in s.groups
    ensures forall id <- Ids(GroupProfiles(s, gid)) :: id in s.profiles && s.profiles[id].gid == gid
  {
    hide GroupsRight, IndexRight, Answers;
    GroupIdOf(s, gid);
    MembersAreListed(s, gid);
    var ids := IdsIn(s.index, gid);
    forall k | 0 <= k < |ids|
      ensures ids[k] in s.profiles && s.profiles[ids[k]].gid == gid && s.profiles[ids[k]].id == ids[k]
    {
      var id := ids[k];
      assert id in ids;
    }
    ProfilesAtKnown(s.profiles, ids);
    hide ProfilesAt;
    assert |Ids(GroupProfiles(s, gid))| == |ids|;
    assert forall k :: 0 <= k < |ids| ==> Ids(GroupProfiles(s, gid))[k] == ids[k];
  }
}
