/** The display order and the toggle list of every group name profiles of that group, each once, through every run;
    and a display order goes on showing the whole group as long as nothing is added to a group that has one. */
module ProfileLists {
  import opened IdLists
  import opened Orders
  import opened ProfileStore
  import opened ProfileStoreRuns

  predicate Tidy(ids: seq<int>, members: set<int>) {
    Distinct(ids) && Elements(ids) <= members
  }

  /** An empty order shows the group by id. */
  predicate ShowsAll(order: seq<int>, members: set<int>) {
    order == [] || Elements(order) == members
  }

  predicate GroupTidy(g: Group, members: set<int>, shown: bool) {
    Tidy(g.order, members) && Tidy(g.toggleIds, members) && (shown ==> ShowsAll(g.order, members))
  }

  predicate TidyAt(groups: map<int, Group>, profiles: map<int, Profile>, gid: int, shown: bool)
    requires gid in groups
  {
    GroupTidy(groups[gid], Members(profiles, gid), shown)
  }

  /** Every list of every group is tidy and, with `shown`, every order shows its whole group. */
  ghost predicate ListsTidy(groups: map<int, Group>, profiles: map<int, Profile>, shown: bool) {
    forall gid :: gid in groups ==> TidyAt(groups, profiles, gid, shown)
  }

  // ----- one group

  lemma TidyWithOneMore(ids: seq<int>, members: set<int>, id: int)
    requires Tidy(ids, members)
    ensures Tidy(ids, members + {id})
    ensures id !in members ==> Tidy(ids + [id], members + {id})
  {
    ElementsWithOneMore(ids, id);
    if id !in members {
      assert id !in ids by {
        assert id !in Elements(ids);
      }
      AppendingKeepsDistinct(ids, id);
    }
  }

  lemma TidyWithOneLess(ids: seq<int>, members: set<int>, id: int)
    requires Tidy(ids, members)
    ensures Tidy(RemoveAll(ids, id), members - {id})
  {
    RemovedElements(ids, id);
    RemovingKeepsDistinct(ids, id);
  }

  lemma FirstTidy(members: set<int>, id: int)
    ensures Tidy([id], members + {id})
  {
  }

  lemma ElementsWithOneMore(ids: seq<int>, id: int)
    ensures Elements(ids + [id]) == Elements(ids) + {id}
  {
  }

  /** The order is not touched by an addition, so it shows the new profile exactly when it is empty. */
  lemma ToggleTidy(g: Group, members: set<int>, id: int, shown: bool)
    requires GroupTidy(g, members, shown) && id !in members
    ensures GroupTidy(WithToggle(g, id), members + {id}, shown && g.order == [])
    ensures shown && g.order != [] ==> !ShowsAll(WithToggle(g, id).order, members + {id})
  {
    hide Tidy, Elements;
    TidyWithOneMore(g.order, members, id);
    TidyWithOneMore(g.toggleIds, members, id);
    FirstTidy(members, id);
  }

  lemma MemberTidy(g: Group, members: set<int>, id: int, shown: bool)
    requires GroupTidy(g, members, shown) && id !in members
    ensures GroupTidy(WithMember(g, id), members + {id}, shown)
  {
    hide Tidy, Elements;
    TidyWithOneMore(g.order, members, id);
    TidyWithOneMore(g.toggleIds, members, id);
    FirstTidy(members, id);
    ElementsWithOneMore(g.order, id);
  }

  lemma MemberlessTidy(g: Group, members: set<int>, id: int, shown: bool)
    requires GroupTidy(g, members, shown)
    ensures GroupTidy(WithoutMember(g, id), members - {id}, shown)
  {
    TidyWithOneLess(g.order, members, id);
    TidyWithOneLess(g.toggleIds, members, id);
    RemovedElements(g.order, id);
  }

  // ----- all groups, when one profile is added to or taken from one of them

  lemma ListsWithOneMore(groups: map<int, Group>, profiles: map<int, Profile>, id: int, p: Profile, g: Group,
      shown: bool)
    requires ListsTidy(groups, profiles, shown) && id !in profiles
    requires p.gid in groups ==> GroupTidy(g, Members(profiles, p.gid) + {id}, shown)
    ensures ListsTidy(if p.gid in groups then groups[p.gid := g] else groups, profiles[id := p], shown)
  {
    hide GroupTidy, Members;
    var after, more := if p.gid in groups then groups[p.gid := g] else groups, profiles[id := p];
    forall gid | gid in after
      ensures TidyAt(after, more, gid, shown)
    {
      MembersWithOneMore(profiles, id, p, gid);
      if gid != p.gid {
        assert TidyAt(groups, profiles, gid, shown);
        assert Members(profiles, gid) + {} == Members(profiles, gid);
      }
    }
  }

  lemma ListsWithOneLess(groups: map<int, Group>, profiles: map<int, Profile>, id: int, shown: bool)
    requires ListsTidy(groups, profiles, shown) && id in profiles
    ensures var gid := profiles[id].gid;
            ListsTidy(if gid in groups then groups[gid := WithoutMember(groups[gid], id)] else groups,
                      profiles - {id}, shown)
  {
    hide GroupTidy, Members, WithoutMember;
    var home := profiles[id].gid;
    var fewer := profiles - {id};
    var after := if home in groups then groups[home := WithoutMember(groups[home], id)] else groups;
    forall gid | gid in after
      ensures TidyAt(after, fewer, gid, shown)
    {
      assert TidyAt(groups, profiles, gid, shown);
      MembersWithOneLess(profiles, id, gid);
      if gid == home {
        MemberlessTidy(groups[gid], Members(profiles, gid), id, shown);
      } else {
        NotOfTheGroup(profiles, id, gid);
        assert Members(profiles, gid) - {id} == Members(profiles, gid);
      }
    }
  }

  // ----- the operations

  lemma AddProfileTidy(s: Store, ent: Profile, gid: int, shown: bool)
    requires Consistent(s) && ListsTidy(s.groups, s.profiles, shown)
    requires shown && ent.id < 0 && TargetGroup(s, gid) in s.groups ==> s.groups[TargetGroup(s, gid)].order == []
    ensures var t := AddedProfile(s, ent, gid);
            ListsTidy(t.groups, t.profiles, shown)
  {
    hide IndexRight, GroupsRight, Enumerates, Indexed, SavedGroup, ListsTidy, Members, WithToggle;
    if ent.id < 0 {
      var p := Profile(NewProfileId(s), TargetGroup(s, gid), ent.content);
      NewProfileIdIsFresh(s);
      var g := s.groups[s.currentGroup];
      if p.gid in s.groups {
        g := WithToggle(s.groups[p.gid], p.id);
        var t := s.(profiles := s.profiles[p.id := p], profileIds := s.profileIds + [p.id],
                    index := Indexed(s.index, p.id, p.gid));
        GroupIdOf(s, p.gid);
        WithToggleId(s.groups[p.gid], p.id);
        KnownGroupSaved(t, g);
        TidyAmong(s, p.gid, shown);
        NotAMember(s.profiles, p.id, p.gid);
        ToggleTidy(s.groups[p.gid], Members(s.profiles, p.gid), p.id, shown);
      }
      ListsWithOneMore(s.groups, s.profiles, p.id, p, g, shown);
      assert s.profiles[p.id := p][p.id := p] == s.profiles[p.id := p];
    }
  }

  lemma WithToggleId(g: Group, id: int)
    ensures WithToggle(g, id).id == g.id
  {
  }

  lemma TidyAmong(s: Store, gid: int, shown: bool)
    requires ListsTidy(s.groups, s.profiles, shown) && gid in s.groups
    ensures GroupTidy(s.groups[gid], Members(s.profiles, gid), shown)
  {
    assert TidyAt(s.groups, s.profiles, gid, shown);
  }

  lemma DeleteProfileTidy(s: Store, id: int, shown: bool)
    requires Consistent(s) && ListsTidy(s.groups, s.profiles, shown)
    ensures var t := DeletedProfile(s, id);
            ListsTidy(t.groups, t.profiles, shown)
  {
    hide IndexRight, GroupsRight, Enumerates, Unindexed, SavedGroup, ListsTidy, RemoveAll;
    if id >= 0 && s.startedId != id {
      if id in s.profiles {
        var gid := s.profiles[id].gid;
        if gid in s.groups {
          GroupIdOf(s, gid);
          KnownGroupSaved(s, WithoutMember(s.groups[gid], id));
        }
        ListsWithOneLess(s.groups, s.profiles, id, shown);
      } else {
        assert s.profiles - {id} == s.profiles;
      }
    }
  }

  lemma MoveProfileTidy(s: Store, ent: Profile, gid: int, shown: bool)
    requires Consistent(s) && ListsTidy(s.groups, s.profiles, shown)
    requires ent.id in s.profiles && ent == s.profiles[ent.id]
    ensures var t := MovedProfile(s, ent, gid);
            ListsTidy(t.groups, t.profiles, shown)
  {
    hide IndexRight, GroupsRight, Enumerates, Unindexed, Indexed, SavedGroup, ListsTidy, RemoveAll, GroupTidy, Members;
    if gid != ent.gid && gid >= 0 {
      var id := ent.id;
      var t := s;
      if ent.gid in s.groups {
        GroupIdOf(s, ent.gid);
        KnownGroupSaved(s, WithoutMember(s.groups[ent.gid], id));
        t := SavedGroup(s, WithoutMember(s.groups[ent.gid], id));
      }
      ListsWithOneLess(s.groups, s.profiles, id, shown);
      var u := t.(index := Unindexed(t.index, id, ent.gid));
      var without := u.(profiles := s.profiles - {id});
      var moved := ent.(gid := gid);
      var g := s.groups[s.currentGroup];
      if gid in u.groups {
        GroupIdOf(u, gid);
        KnownGroupSaved(u, WithMember(u.groups[gid], id));
        g := WithMember(u.groups[gid], id);
        TidyAmong(without, gid, shown);
        NotAMember(without.profiles, id, gid);
        MemberTidy(u.groups[gid], Members(without.profiles, gid), id, shown);
      }
      ListsWithOneMore(u.groups, without.profiles, id, moved, g, shown);
      assert (s.profiles - {id})[id := moved] == s.profiles[id := moved];
    }
  }

  lemma SameMembers(profiles: map<int, Profile>, p: Profile, gid: int)
    requires p.id in profiles && p.gid == profiles[p.id].gid
    ensures Members(profiles[p.id := p], gid) == Members(profiles, gid)
  {
  }

  lemma UnlistedTidy(g: Group, members: set<int>, id: int, shown: bool)
    requires GroupTidy(g, members, shown) && (shown ==> g.order == [])
    ensures GroupTidy(g, members + {id}, shown)
  {
  }

  /** A saved profile that the store does not know is added to no list. */
  lemma SaveProfileTidy(s: Store, p: Profile, shown: bool)
    requires Consistent(s) && ListsTidy(s.groups, s.profiles, shown)
    requires p.id in s.profiles ==> p.gid == s.profiles[p.id].gid
    requires shown && p.id >= 0 && p.id !in s.profiles && p.gid in s.groups ==> s.groups[p.gid].order == []
    ensures var t := SavedProfile(s, p);
            ListsTidy(t.groups, t.profiles, shown)
  {
    hide GroupTidy, Members, Consistent, Inserted, Indexed;
    var t := SavedProfile(s, p);
    if p.id in s.profiles {
      forall gid | gid in t.groups
        ensures TidyAt(t.groups, t.profiles, gid, shown)
      {
        assert TidyAt(s.groups, s.profiles, gid, shown);
        SameMembers(s.profiles, p, gid);
      }
    } else if p.id >= 0 && p.gid in s.groups {
      TidyAmong(s, p.gid, shown);
      UnlistedTidy(s.groups[p.gid], Members(s.profiles, p.gid), p.id, shown);
      ListsWithOneMore(s.groups, s.profiles, p.id, p, s.groups[p.gid], shown);
      assert s.groups[p.gid := s.groups[p.gid]] == s.groups;
    } else if p.id >= 0 {
      ListsWithOneMore(s.groups, s.profiles, p.id, p, s.groups[s.currentGroup], shown) by {
        CurrentIsThere(s);
      }
    }
  }

  lemma CurrentIsThere(s: Store)
    requires Consistent(s)
    ensures s.currentGroup in s.groups
  {
  }

  lemma SaveGroupTidy(s: Store, g: Group, shown: bool)
    requires Consistent(s) && ListsTidy(s.groups, s.profiles, shown) && g.id in s.groups
    requires GroupTidy(g, Members(s.profiles, g.id), shown)
    ensures var t := SavedGroup(s, g);
            ListsTidy(t.groups, t.profiles, shown)
  {
    hide IndexRight, GroupsRight, Enumerates, SavedGroup, GroupTidy, Members;
    KnownGroupSaved(s, g);
    forall gid | gid in s.groups
      ensures TidyAt(s.groups, s.profiles, gid, shown)
    {
    }
  }

  lemma AddGroupTidy(s: Store, ent: Group, shown: bool)
    requires Consistent(s) && ListsTidy(s.groups, s.profiles, shown)
    requires ent.id < 0 ==> ent.order == [] && ent.toggleIds == []
    ensures var t := AddedGroup(s, ent);
            ListsTidy(t.groups, t.profiles, shown)
  {
    hide IndexRight, GroupsRight, Enumerates, Members;
    if ent.id < 0 {
      var g := ent.(id := NewGroupId(s));
      assert g.id >= 0 by {
        NewGroupIdIsFresh(s);
      }
      var t := AddedGroup(s, ent);
      assert t.groups == s.groups[g.id := g] && t.profiles == s.profiles;
      EmptyIsTidy(g, Members(s.profiles, g.id), shown);
      forall gid | gid in t.groups
        ensures TidyAt(t.groups, t.profiles, gid, shown)
      {
        assert gid == g.id || TidyAt(s.groups, s.profiles, gid, shown);
      }
    }
  }

  lemma EmptyIsTidy(g: Group, members: set<int>, shown: bool)
    requires g.order == [] && g.toggleIds == []
    ensures GroupTidy(g, members, shown)
  {
  }

  lemma {:induction false} DeleteProfilesTidy(s: Store, ids: seq<int>, shown: bool)
    requires Consistent(s) && ListsTidy(s.groups, s.profiles, shown)
    ensures var t := DeletedProfiles(s, ids);
            ListsTidy(t.groups, t.profiles, shown)
  {
    hide Consistent, ListsTidy, DeletedProfile;
    if ids != [] {
      var shorter := ids[..|ids| - 1];
      DeleteProfilesTidy(s, shorter, shown);
      DeleteProfilesKeeps(s, shorter);
      DeleteProfileTidy(DeletedProfiles(s, shorter), ids[|ids| - 1], shown);
    }
  }

  lemma DeleteGroupTidy(s: Store, gid: int, shown: bool)
    requires Consistent(s) && ListsTidy(s.groups, s.profiles, shown)
    ensures var t := DeletedGroup(s, gid);
            ListsTidy(t.groups, t.profiles, shown)
  {
    hide Consistent, DeletedProfiles, RemoveAll, GroupTidy, Members;
    if |s.groups| > 1 {
      var t, u := DeletedProfiles(s, IdsIn(s.index, gid)), DeletedGroup(s, gid);
      DeleteProfilesTidy(s, IdsIn(s.index, gid), shown);
      assert u.groups == t.groups - {gid} && u.profiles == t.profiles;
      forall other | other in u.groups
        ensures TidyAt(u.groups, u.profiles, other, shown)
      {
        assert TidyAt(t.groups, t.profiles, other, shown);
      }
    }
  }

  // ----- runs

  /** What the lists ask of a caller: a saved group has tidy lists, a new one empty ones; and for the orders to go on
      showing everything, nothing is added to a group that has an order, nor saved to it for the first time. */
  predicate EnabledTidy(s: Store, op: Operation, shown: bool) {
    match op
    case AddProfile(ent, target) =>
      shown && ent.id < 0 && TargetGroup(s, target) in s.groups ==> s.groups[TargetGroup(s, target)].order == []
    case SaveProfile(ent) =>
      shown && ent.id >= 0 && ent.id !in s.profiles && ent.gid in s.groups ==> s.groups[ent.gid].order == []
    case AddGroup(group) => group.id < 0 ==> group.order == [] && group.toggleIds == []
    case SaveGroup(group) => GroupTidy(group, Members(s.profiles, group.id), shown)
    case _ => true
  }

  lemma OperationTidy(s: Store, op: Operation, shown: bool)
    requires Consistent(s) && Enabled(s, op) && EnabledTidy(s, op, shown) && ListsTidy(s.groups, s.profiles, shown)
    ensures ListsTidy(Applied(s, op).groups, Applied(s, op).profiles, shown)
  {
    hide Consistent, ListsTidy, AddedProfile, SavedProfile, DeletedProfile, MovedProfile, AddedGroup, SavedGroup,
      DeletedGroup, Members, GroupTidy, NewGroupId;
    match op
    case AddProfile(ent, target) => AddProfileTidy(s, ent, target, shown);
    case SaveProfile(ent) => SaveProfileTidy(s, ent, shown);
    case DeleteProfile(id) => DeleteProfileTidy(s, id, shown);
    case MoveProfile(ent, target) => MoveProfileTidy(s, ent, target, shown);
    case AddGroup(group) => AddGroupTidy(s, group, shown);
    case SaveGroup(group) => SaveGroupTidy(s, group, shown);
    case DeleteGroup(gid) => DeleteGroupTidy(s, gid, shown);
    case Select(_) =>
    case Run(_) =>
  }

  predicate AllEnabledTidy(s: Store, ops: seq<Operation>, shown: bool) {
    forall k :: 0 <= k < |ops| ==> EnabledTidy(Ran(s, ops[..k]), ops[k], shown)
  }

  /** The main result on lists, for every run; with `shown` set, it also says that every order still is a listing of
      its whole group. */
  lemma {:induction false} EveryRunIsTidy(s: Store, ops: seq<Operation>, shown: bool)
    requires Consistent(s) && AllEnabled(s, ops) && AllEnabledTidy(s, ops, shown)
    requires ListsTidy(s.groups, s.profiles, shown)
    ensures ListsTidy(Ran(s, ops).groups, Ran(s, ops).profiles, shown)
  {
    hide Consistent, Enabled, EnabledTidy, Applied, ListsTidy, SameStore, Loaded;
    if ops != [] {
      var shorter := ops[..|ops| - 1];
      forall k | 0 <= k < |shorter|
        ensures Enabled(Ran(s, shorter[..k]), shorter[k]) && EnabledTidy(Ran(s, shorter[..k]), shorter[k], shown)
      {
        assert shorter[..k] == ops[..k];
        assert Enabled(Ran(s, ops[..k]), ops[k]) && EnabledTidy(Ran(s, ops[..k]), ops[k], shown);
      }
      EveryRunIsTidy(s, shorter, shown);
      EveryRunIsConsistent(s, shorter);
      OperationTidy(Ran(s, shorter), ops[|ops| - 1], shown);
    }
  }

  /** An addition to a group that has an order leaves the new profile out of it: the group no longer shows all of its
      profiles. */
  lemma AdditionIsHidden(s: Store, ent: Profile, gid: int)
    requires Consistent(s) && ListsTidy(s.groups, s.profiles, true) && ent.id < 0 && TargetGroup(s, gid) in s.groups
    ensures var t := AddedProfile(s, ent, gid);
            ListsTidy(t.groups, t.profiles, true) <==> s.groups[TargetGroup(s, gid)].order == []
  {
    hide IndexRight, GroupsRight, Enumerates, Indexed, SavedGroup, Members, WithToggle, ListsTidy;
    var home := TargetGroup(s, gid);
    var t := AddedProfile(s, ent, gid);
    if s.groups[home].order == [] {
      AddProfileTidy(s, ent, gid, true);
    } else {
      var p := Profile(NewProfileId(s), home, ent.content);
      NewProfileIdIsFresh(s);
      GroupIdOf(s, home);
      WithToggleId(s.groups[home], p.id);
      KnownGroupSaved(s.(profiles := s.profiles[p.id := p], profileIds := s.profileIds + [p.id],
                         index := Indexed(s.index, p.id, p.gid)), WithToggle(s.groups[home], p.id));
      TidyAmong(s, home, true);
      NotAMember(s.profiles, p.id, home);
      ToggleTidy(s.groups[home], Members(s.profiles, home), p.id, true);
      MembersWithOneMore(s.profiles, p.id, p, home);
      assert t.groups[home] == WithToggle(s.groups[home], p.id);
      assert s.profiles[p.id := p][p.id := p] == s.profiles[p.id := p];
      assert t.profiles == s.profiles[p.id := p];
      HiddenIsUntidy(t, home);
    }
  }

  lemma HiddenIsUntidy(s: Store, gid: int)
    requires gid in s.groups && !ShowsAll(s.groups[gid].order, Members(s.profiles, gid))
    ensures !ListsTidy(s.groups, s.profiles, true)
  {
    assert !TidyAt(s.groups, s.profiles, gid, true);
  }

  // ----- where profiles end up

  /** Nothing but the profile with this id differs. */
  predicate OnlyDiffersAt(before: map<int, Profile>, after: map<int, Profile>, id: int) {
    after.Keys == before.Keys + {id} && forall other :: other in before && other != id ==> after[other] == before[other]
  }

  /** A group that a profile has come to: it can be toggled to a profile, and nothing else about it but the given
      order has changed. */
  predicate HasReceived(before: Group, after: Group, order: seq<int>, id: int) {
    && after == before.(order := order, toggleIds := after.toggleIds)
    && after.toggleIds == if before.toggleIds == [] then [id] else before.toggleIds
  }

  /** A new profile always lands in a group of the store: the one that was asked for if there is one, the current one
      if none was. Other profiles and groups are as before. */
  lemma AddProfilePlaces(s: Store, ent: Profile, gid: int)
    requires Consistent(s) && ent.id < 0
    ensures var t, id := AddedProfile(s, ent, gid), NewProfileId(s);
            && id !in s.profiles && OnlyDiffersAt(s.profiles, t.profiles, id) && t.profiles[id].content == ent.content
            && t.groups.Keys == s.groups.Keys && t.profiles[id].gid in s.groups
            && (gid in s.groups ==> t.profiles[id].gid == gid)
            && (gid < 0 ==> t.profiles[id].gid == s.currentGroup)
            && var home := t.profiles[id].gid;
               && HasReceived(s.groups[home], t.groups[home], s.groups[home].order, id)
               && forall other :: other in s.groups && other != home ==> t.groups[other] == s.groups[other]
  {
    hide IndexRight, GroupsRight, Enumerates, Indexed, SavedGroup;
    var p := Profile(NewProfileId(s), TargetGroup(s, gid), ent.content);
    NewProfileIdIsFresh(s);
    TargetIsKnown(s, gid);
    var t := s.(profiles := s.profiles[p.id := p], profileIds := s.profileIds + [p.id],
                index := Indexed(s.index, p.id, p.gid));
    GroupIdOf(s, p.gid);
    KnownGroupSaved(t, WithToggle(t.groups[p.gid], p.id));
    assert s.profiles[p.id := p][p.id := p] == s.profiles[p.id := p];
  }

  lemma TargetIsKnown(s: Store, gid: int)
    requires Consistent(s)
    ensures TargetGroup(s, gid) in s.groups
    ensures gid in s.groups ==> TargetGroup(s, gid) == gid
    ensures gid < 0 ==> TargetGroup(s, gid) == s.currentGroup
  {
    hide IndexRight, ProfilesRight, Normalized, Enumerates;
    if s.tabOrder != [] {
      var first := s.tabOrder[0];
      assert first in Elements(s.tabOrder);
    }
    assert s.currentGroup in Elements(s.tabOrder);
  }

  /** A moved profile is the same one in the other group. It is in no list of the group it leaves, and at the end of the
      order of the group it comes to, if that has one. Other profiles and groups are as before. */
  lemma MoveProfilePlaces(s: Store, id: int, gid: int)
    requires Consistent(s) && id in s.profiles && gid in s.groups && s.profiles[id].gid in s.groups
    requires gid != s.profiles[id].gid
    ensures var t, home := MovedProfile(s, s.profiles[id], gid), s.profiles[id].gid;
            && OnlyDiffersAt(s.profiles, t.profiles, id) && t.profiles[id] == s.profiles[id].(gid := gid)
            && t.groups.Keys == s.groups.Keys
            && t.groups[home] == s.groups[home].(order := t.groups[home].order, toggleIds := t.groups[home].toggleIds)
            && id !in t.groups[home].order + t.groups[home].toggleIds
            && HasReceived(s.groups[gid], t.groups[gid],
                           if s.groups[gid].order == [] then [] else s.groups[gid].order + [id], id)
            && forall other :: other in s.groups && other != home && other != gid ==> t.groups[other] == s.groups[other]
  {
    hide IndexRight, GroupsRight, Enumerates, Unindexed, Indexed, SavedGroup, RemoveAll;
    var ent := s.profiles[id];
    GroupIdOf(s, ent.gid);
    KnownGroupSaved(s, WithoutMember(s.groups[ent.gid], id));
    var t := SavedGroup(s, WithoutMember(s.groups[ent.gid], id));
    var u := t.(index := Unindexed(t.index, id, ent.gid));
    GroupIdOf(u, gid);
    KnownGroupSaved(u, WithMember(u.groups[gid], id));
    var g := t.groups[ent.gid];
    NotInEither(g.order, g.toggleIds, id);
  }

  lemma NotInEither(a: seq<int>, b: seq<int>, id: int)
    requires id !in a && id !in b
    ensures id !in a + b
  {
  }
}
