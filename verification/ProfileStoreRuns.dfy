/** What every sequence of store operations keeps: id lists that enumerate, an index that answers like a rebuilt one,
    and tables from which loading gives back what is in memory. */
module ProfileStoreRuns {
  import opened IdLists
  import opened Options
  import opened Orders
  import opened ProfileStore

  // ----- the parts of a consistent store

  predicate ProfilesRight(profiles: map<int, Profile>, ids: seq<int>, rows: map<int, Profile>) {
    && (forall id :: id in profiles ==> id >= 0 && profiles[id].id == id)
    && Enumerates(ids, profiles.Keys)
    && rows == profiles
  }

  predicate GroupsRight(groups: map<int, Group>, ids: seq<int>, tabOrder: seq<int>, rows: map<int, Group>,
      saved: Option<seq<int>>)
  {
    && (forall id :: id in groups ==> id >= 0 && groups[id].id == id)
    && Enumerates(ids, groups.Keys)
    && Distinct(tabOrder) && Elements(tabOrder) == groups.Keys
    && rows == groups && Normalized(saved, ids, groups) == tabOrder
  }

  /** The index answers every question with the ascending ids of the profiles whose group is asked for. */
  ghost predicate IndexRight(index: Index, profiles: map<int, Profile>) {
    forall gid :: Answers(index, profiles, gid)
  }

  predicate Answers(index: Index, profiles: map<int, Profile>, gid: int) {
    IdsIn(index, gid) == Sorted(Indexable(profiles, gid))
  }

  ghost predicate Consistent(s: Store) {
    && ProfilesRight(s.profiles, s.profileIds, s.db.profiles)
    && GroupsRight(s.groups, s.groupIds, s.tabOrder, s.db.groups, s.db.tabOrder)
    && IndexRight(s.index, s.profiles)
    && s.currentGroup in s.groups
  }

  /** Equal in everything a caller can see: the index may hold empty entries for groups that are gone. */
  ghost predicate SameStore(s: Store, t: Store) {
    s.(index := map[]) == t.(index := map[]) && forall gid :: SameAnswer(s.index, t.index, gid)
  }

  predicate SameAnswer(a: Index, b: Index, gid: int) {
    IdsIn(a, gid) == IdsIn(b, gid)
  }

  lemma RowsAreEntities(db: Database, profiles: map<int, Profile>, groups: map<int, Group>)
    requires db.profiles == profiles && db.groups == groups
    requires forall id :: id in profiles ==> profiles[id].id == id
    requires forall id :: id in groups ==> groups[id].id == id
    ensures ProfilesOf(db) == profiles && GroupsOf(db) == groups
  {
    EntitiesAre(db);
    hide ProfilesOf, GroupsOf;
  }

  /** Loading the tables gives back the store that wrote them. */
  lemma ReloadGivesTheStore(s: Store)
    requires Consistent(s)
    ensures SameStore(Loaded(s.db, s.currentGroup, s.startedId), s)
  {
    hide Sorted, Rebuilt, Indexable, Normalized, Enumerates, ProfilesOf, GroupsOf;
    RowsAreEntities(s.db, s.profiles, s.groups);
    EnumerationIsSorted(s.profileIds, s.profiles.Keys);
    EnumerationIsSorted(s.groupIds, s.groups.Keys);
    forall gid
      ensures SameAnswer(Rebuilt(s.profiles, s.groups), s.index, gid)
    {
      RebuiltAnswers(s.profiles, s.groups, gid);
      assert Answers(s.index, s.profiles, gid);
    }
  }

  /** The index is right exactly when it answers every question like one built from nothing. */
  lemma RightMeansLikeRebuilt(index: Index, profiles: map<int, Profile>, groups: map<int, Group>)
    ensures IndexRight(index, profiles) <==> forall gid :: SameAnswer(index, Rebuilt(profiles, groups), gid)
  {
    hide Sorted, Rebuilt, Indexable;
    forall gid
      ensures Answers(index, profiles, gid) <==> SameAnswer(index, Rebuilt(profiles, groups), gid)
    {
      RebuiltAnswers(profiles, groups, gid);
    }
  }

  // ----- the new ids

  lemma NewProfileIdIsFresh(s: Store)
    requires ProfilesRight(s.profiles, s.profileIds, s.db.profiles)
    ensures NewProfileId(s) >= 0 && NewProfileId(s) !in s.profiles && NewProfileId(s) !in s.db.profiles
    ensures Enumerates(s.profileIds + [NewProfileId(s)], s.profiles.Keys + {NewProfileId(s)})
  {
    hide Normalized, Distinct;
    LastIsGreatest(s.profileIds, s.profiles.Keys);
  }

  lemma NewGroupIdIsFresh(s: Store)
    requires GroupsRight(s.groups, s.groupIds, s.tabOrder, s.db.groups, s.db.tabOrder)
    ensures NewGroupId(s) >= 0 && NewGroupId(s) !in s.groups && NewGroupId(s) !in s.db.groups
    ensures Enumerates(s.groupIds + [NewGroupId(s)], s.groups.Keys + {NewGroupId(s)})
  {
    hide Normalized, Distinct;
    LastIsGreatest(s.groupIds, s.groups.Keys);
  }

  lemma LastIsGreatest(ids: seq<int>, members: set<int>)
    requires Enumerates(ids, members) && forall id :: id in members ==> id >= 0
    ensures ids == [] <==> members == {}
    ensures ids == [] ==> Enumerates([0], {0})
    ensures ids != [] ==>
              var next := ids[|ids| - 1] + 1;
              next >= 0 && next !in members && Enumerates(ids + [next], members + {next})
  {
    forall id
      ensures id in ids <==> id in members
    {
      assert id in ids <==> id in Elements(ids);
    }
    if ids == [] {
      assert members == {};
      assert Elements([0]) == {0};
    } else {
      var last := ids[|ids| - 1];
      assert last in ids;
      var next := last + 1;
      AppendingKeepsOrder(ids, next);
      assert Elements(ids + [next]) == members + {next};
    }
  }

  // ----- groups: editing, adding, removing

  lemma {:induction false} KnownByKeys(order: seq<int>, a: map<int, Group>, b: map<int, Group>)
    requires a.Keys == b.Keys
    ensures Known(order, a) == Known(order, b)
  {
    if order != [] {
      var last := order[|order| - 1];
      KnownByKeys(order[..|order| - 1], a, b);
      assert last in a.Keys <==> last in b.Keys;
    }
  }

  lemma GroupEdited(s: Store, g: Group)
    requires GroupsRight(s.groups, s.groupIds, s.tabOrder, s.db.groups, s.db.tabOrder)
    requires g.id in s.groups
    ensures GroupsRight(s.groups[g.id := g], s.groupIds, s.tabOrder, s.db.groups[g.id := g], s.db.tabOrder)
  {
    hide Known, Completed, Enumerates, Distinct, Elements;
    var groups := s.groups[g.id := g];
    assert groups.Keys == s.groups.Keys;
    KnownByKeys(if s.db.tabOrder.Some? then s.db.tabOrder.value else [], s.groups, groups);
  }

  /** Saving a group that is in the store changes that group and its row, and nothing else. */
  lemma KnownGroupSaved(s: Store, g: Group)
    requires GroupsRight(s.groups, s.groupIds, s.tabOrder, s.db.groups, s.db.tabOrder)
    requires g.id in s.groups
    ensures var t := SavedGroup(s, g);
            && t == s.(groups := s.groups[g.id := g], db := s.db.(groups := s.db.groups[g.id := g]))
            && t.groups.Keys == s.groups.Keys
            && GroupsRight(t.groups, t.groupIds, t.tabOrder, t.db.groups, t.db.tabOrder)
  {
    hide Normalized, Enumerates, Distinct, Elements;
    GroupEdited(s, g);
  }

  lemma NormalizedIsSame(order: seq<int>, ids: seq<int>, groups: map<int, Group>)
    requires Elements(order) == Elements(ids) == groups.Keys
    ensures Normalized(Some(order), ids, groups) == order
  {
    forall id
      ensures id in order <==> id in groups
      ensures id in ids <==> id in groups
    {
      assert id in order <==> id in Elements(order);
      assert id in ids <==> id in Elements(ids);
    }
  }

  lemma GroupAppended(s: Store, g: Group)
    requires GroupsRight(s.groups, s.groupIds, s.tabOrder, s.db.groups, s.db.tabOrder)
    requires g.id == NewGroupId(s)
    ensures GroupsRight(s.groups[g.id := g], s.groupIds + [g.id], s.tabOrder + [g.id], s.db.groups[g.id := g],
                        Some(s.tabOrder + [g.id]))
  {
    hide Normalized, Distinct, Ascending;
    NewGroupIdIsFresh(s);
    var groups := s.groups[g.id := g];
    assert groups.Keys == s.groups.Keys + {g.id};
    assert Elements(s.tabOrder + [g.id]) == Elements(s.tabOrder) + {g.id};
    assert g.id !in s.tabOrder by {
      assert g.id !in Elements(s.tabOrder);
    }
    AppendingKeepsDistinct(s.tabOrder, g.id);
    NormalizedIsSame(s.tabOrder + [g.id], s.groupIds + [g.id], groups);
  }

  lemma AppendingKeepsDistinct(ids: seq<int>, id: int)
    requires Distinct(ids) && id !in ids
    ensures Distinct(ids + [id])
  {
  }

  lemma GroupRemoved(s: Store, gid: int)
    requires GroupsRight(s.groups, s.groupIds, s.tabOrder, s.db.groups, s.db.tabOrder)
    ensures GroupsRight(s.groups - {gid}, RemoveAll(s.groupIds, gid), RemoveAll(s.tabOrder, gid),
                        s.db.groups - {gid}, Some(RemoveAll(s.tabOrder, gid)))
  {
    RemovedElements(s.groupIds, gid);
    RemovedElements(s.tabOrder, gid);
    RemovingKeepsOrder(s.groupIds, gid);
    RemovingKeepsDistinct(s.tabOrder, gid);
    NormalizedIsSame(RemoveAll(s.tabOrder, gid), RemoveAll(s.groupIds, gid), s.groups - {gid});
  }

  lemma RemovedElements(ids: seq<int>, id: int)
    ensures Elements(RemoveAll(ids, id)) == Elements(ids) - {id}
  {
  }

  // ----- the index

  lemma IndexAfterAdding(index: Index, profiles: map<int, Profile>, id: int, p: Profile)
    requires IndexRight(index, profiles) && id !in profiles
    ensures IndexRight(Indexed(index, id, p.gid), profiles[id := p])
  {
    hide IdsIn, Sorted, Indexable, Indexed;
    var after, more := Indexed(index, id, p.gid), profiles[id := p];
    forall gid
      ensures Answers(after, more, gid)
    {
      assert Answers(index, profiles, gid);
      IndexedAnswers(index, profiles, id, p, gid);
    }
  }

  lemma IndexAfterRemoving(index: Index, profiles: map<int, Profile>, id: int)
    requires IndexRight(index, profiles) && id in profiles
    ensures IndexRight(Unindexed(index, id, profiles[id].gid), profiles - {id})
  {
    hide IdsIn, Sorted, Indexable, Unindexed;
    var after, fewer := Unindexed(index, id, profiles[id].gid), profiles - {id};
    forall gid
      ensures Answers(after, fewer, gid)
    {
      assert Answers(index, profiles, gid);
      UnindexedAnswers(index, profiles, id, gid);
    }
  }

  /** Changing a profile without moving it leaves a right index right, and moving it behind the back of the index
      makes it wrong unless neither group is indexed. */
  lemma IndexAfterEditing(index: Index, profiles: map<int, Profile>, id: int, p: Profile)
    requires IndexRight(index, profiles) && id in profiles
    ensures IndexRight(index, profiles[id := p]) <==> p.gid == profiles[id].gid || (p.gid < 0 && profiles[id].gid < 0)
  {
    hide IdsIn, Sorted;
    var edited := profiles[id := p];
    if p.gid == profiles[id].gid || (p.gid < 0 && profiles[id].gid < 0) {
      forall gid
        ensures Answers(index, edited, gid)
      {
        assert Answers(index, profiles, gid);
        assert Indexable(edited, gid) == Indexable(profiles, gid);
      }
    } else {
      var gid := if p.gid >= 0 then p.gid else profiles[id].gid;
      assert id in Indexable(edited, gid) <==> id !in Indexable(profiles, gid);
      assert id in Sorted(Indexable(edited, gid)) <==> id !in Sorted(Indexable(profiles, gid));
      assert Answers(index, profiles, gid) && !Answers(index, edited, gid);
    }
  }

  /** A fresh group starts with an empty entry, which is right exactly when no profile names it already. */
  lemma IndexAfterFreshGroup(index: Index, profiles: map<int, Profile>, gid: int)
    requires IndexRight(index, profiles) && gid >= 0
    ensures IndexRight(index[gid := []], profiles) <==> Members(profiles, gid) == {}
  {
    hide Sorted, Members;
    SortedOfNone();
    var after := index[gid := []];
    forall other | other != gid
      ensures Answers(after, profiles, other)
    {
      assert Answers(index, profiles, other);
    }
    assert Answers(after, profiles, gid) <==> Members(profiles, gid) == {} by {
      NothingSorted(Members(profiles, gid));
    }
  }

  lemma IndexAfterDroppingGroup(index: Index, profiles: map<int, Profile>, gid: int)
    requires IndexRight(index, profiles)
    ensures IndexRight(index - {gid}, profiles) <==> gid < 0 || Members(profiles, gid) == {}
  {
    hide Sorted, Members;
    SortedOfNone();
    var after := index - {gid};
    forall other | other != gid
      ensures Answers(after, profiles, other)
    {
      assert Answers(index, profiles, other);
    }
    assert Answers(after, profiles, gid) <==> gid < 0 || Members(profiles, gid) == {} by {
      NothingSorted(Members(profiles, gid));
    }
  }

  lemma NothingSorted(members: set<int>)
    ensures Sorted(members) == [] <==> members == {}
  {
  }

  // ----- the operations keep the store consistent

  lemma AddProfileKeeps(s: Store, ent: Profile, gid: int)
    requires Consistent(s)
    ensures Consistent(AddedProfile(s, ent, gid))
  {
    hide IndexRight, GroupsRight, Enumerates, Indexed, SavedGroup;
    if ent.id < 0 {
      var p := Profile(NewProfileId(s), TargetGroup(s, gid), ent.content);
      NewProfileIdIsFresh(s);
      IndexAfterAdding(s.index, s.profiles, p.id, p);
      var t := s.(profiles := s.profiles[p.id := p], profileIds := s.profileIds + [p.id],
                  index := Indexed(s.index, p.id, p.gid));
      if p.gid in s.groups {
        GroupIdOf(s, p.gid);
        KnownGroupSaved(t, WithToggle(t.groups[p.gid], p.id));
      }
      assert t.profiles.Keys == s.profiles.Keys + {p.id};
      assert t.profiles[p.id := p] == t.profiles;
    }
  }

  lemma GroupIdOf(s: Store, gid: int)
    requires GroupsRight(s.groups, s.groupIds, s.tabOrder, s.db.groups, s.db.tabOrder) && gid in s.groups
    ensures s.groups[gid].id == gid >= 0
  {
  }

  lemma SaveKnownProfileKeeps(s: Store, p: Profile)
    requires Consistent(s) && p.id in s.profiles
    ensures Consistent(SavedProfile(s, p)) <==>
            p.gid == s.profiles[p.id].gid || (p.gid < 0 && s.profiles[p.id].gid < 0)
  {
    hide IndexRight, GroupsRight, Enumerates, Indexed, Inserted;
    IndexAfterEditing(s.index, s.profiles, p.id, p);
    assert s.profiles[p.id := p].Keys == s.profiles.Keys;
  }

  lemma SaveNewProfileKeeps(s: Store, p: Profile)
    requires Consistent(s) && p.id !in s.profiles
    ensures Consistent(SavedProfile(s, p))
  {
    hide IndexRight, GroupsRight, Enumerates, Indexed, Inserted;
    if p.id >= 0 {
      IndexAfterAdding(s.index, s.profiles, p.id, p);
      InsertedEnumerates(s.profileIds, s.profiles.Keys, p.id);
      assert s.profiles[p.id := p].Keys == s.profiles.Keys + {p.id};
    }
  }

  /** Saving a profile keeps the store consistent exactly when it does not move a stored profile between groups. */
  lemma SaveProfileKeeps(s: Store, p: Profile)
    requires Consistent(s)
    ensures Consistent(SavedProfile(s, p)) <==>
            p.id !in s.profiles || p.gid == s.profiles[p.id].gid || (p.gid < 0 && s.profiles[p.id].gid < 0)
  {
    hide Consistent, SavedProfile;
    if p.id in s.profiles {
      SaveKnownProfileKeeps(s, p);
    } else {
      SaveNewProfileKeeps(s, p);
    }
  }

  lemma InsertedEnumerates(ids: seq<int>, members: set<int>, id: int)
    requires Enumerates(ids, members)
    ensures Enumerates(Inserted(ids, id), members + {id})
  {
  }

  lemma DeleteProfileKeeps(s: Store, id: int)
    requires Consistent(s)
    ensures Consistent(DeletedProfile(s, id))
  {
    hide IndexRight, GroupsRight, Enumerates, Unindexed, SavedGroup;
    if id >= 0 && s.startedId != id {
      if id in s.profiles {
        var gid := s.profiles[id].gid;
        if gid in s.groups {
          GroupIdOf(s, gid);
          KnownGroupSaved(s, WithoutMember(s.groups[gid], id));
        }
        IndexAfterRemoving(s.index, s.profiles, id);
      } else {
        assert s.profiles - {id} == s.profiles;
      }
      RemovedEnumerates(s.profileIds, s.profiles.Keys, id);
      assert (s.profiles - {id}).Keys == s.profiles.Keys - {id};
    }
  }

  lemma RemovedEnumerates(ids: seq<int>, members: set<int>, id: int)
    requires Enumerates(ids, members)
    ensures Enumerates(RemoveAll(ids, id), members - {id})
  {
    RemovingKeepsOrder(ids, id);
  }

  lemma MoveProfileKeeps(s: Store, ent: Profile, gid: int)
    requires Consistent(s) && ent.id in s.profiles && ent == s.profiles[ent.id]
    ensures Consistent(MovedProfile(s, ent, gid))
  {
    hide IndexRight, GroupsRight, Enumerates, Unindexed, Indexed, SavedGroup;
    if gid != ent.gid && gid >= 0 {
      var id := ent.id;
      var t := s;
      if ent.gid in s.groups {
        GroupIdOf(s, ent.gid);
        KnownGroupSaved(s, WithoutMember(s.groups[ent.gid], id));
        t := SavedGroup(s, WithoutMember(s.groups[ent.gid], id));
      }
      var u := t.(index := Unindexed(t.index, id, ent.gid));
      if gid in u.groups {
        GroupIdOf(u, gid);
        KnownGroupSaved(u, WithMember(u.groups[gid], id));
      }
      IndexAfterRemoving(s.index, s.profiles, id);
      var moved := ent.(gid := gid);
      IndexAfterAdding(Unindexed(s.index, id, ent.gid), s.profiles - {id}, id, moved);
      assert (s.profiles - {id})[id := moved] == s.profiles[id := moved];
      assert s.profiles[id := moved].Keys == s.profiles.Keys;
    }
  }

  lemma SaveGroupKeeps(s: Store, g: Group)
    requires Consistent(s) && g.id in s.groups
    ensures Consistent(SavedGroup(s, g))
  {
    hide IndexRight, GroupsRight, Enumerates, SavedGroup;
    KnownGroupSaved(s, g);
  }

  /** Adding a group keeps the store consistent exactly when no profile names its id already. */
  lemma AddGroupKeeps(s: Store, ent: Group)
    requires Consistent(s)
    ensures Consistent(AddedGroup(s, ent)) <==> ent.id >= 0 || Members(s.profiles, NewGroupId(s)) == {}
  {
    hide IndexRight, ProfilesRight, GroupsRight, Members;
    if ent.id < 0 {
      var g := ent.(id := NewGroupId(s));
      NewGroupIdIsFresh(s);
      GroupAppended(s, g);
      IndexAfterFreshGroup(s.index, s.profiles, g.id);
      assert s.groups[g.id := g][g.id := g] == s.groups[g.id := g];
    }
  }

  // ----- deleting a group

  /** The profiles left when all of a list but the running one are deleted. */
  function Survivors(s: Store, ids: seq<int>): map<int, Profile> {
    map id | id in s.profiles && (id !in ids || id == s.startedId) :: s.profiles[id]
  }

  lemma AllSurvive(s: Store)
    ensures Survivors(s, []) == s.profiles
  {
  }

  lemma {:induction false} DeleteProfilesKeeps(s: Store, ids: seq<int>)
    requires Consistent(s)
    ensures var t := DeletedProfiles(s, ids);
            Consistent(t) && t.profiles == Survivors(s, ids) && t.groups.Keys == s.groups.Keys
            && t.startedId == s.startedId && t.currentGroup == s.currentGroup
  {
    hide Consistent, DeletedProfile, Survivors;
    if ids == [] {
      AllSurvive(s);
    } else {
      var shorter, last := ids[..|ids| - 1], ids[|ids| - 1];
      DeleteProfilesKeeps(s, shorter);
      DeleteProfileKeeps(DeletedProfiles(s, shorter), last);
      DeletedProfileDrops(DeletedProfiles(s, shorter), last);
      OneLessSurvivor(s, shorter, last);
      assert ids == shorter + [last];
    }
  }

  lemma DeletedProfileDrops(s: Store, id: int)
    requires Consistent(s)
    ensures var t := DeletedProfile(s, id);
            t.profiles == (if id == s.startedId then s.profiles else s.profiles - {id})
            && t.groups.Keys == s.groups.Keys && t.startedId == s.startedId && t.currentGroup == s.currentGroup
  {
    hide IndexRight, Enumerates, Unindexed, SavedGroup, Normalized, RemoveAll;
    if id in s.profiles && s.profiles[id].gid in s.groups {
      KnownGroupSaved(s, WithoutMember(s.groups[s.profiles[id].gid], id));
    }
    if id < 0 {
      assert s.profiles - {id} == s.profiles;
    }
  }

  lemma OneLessSurvivor(s: Store, ids: seq<int>, id: int)
    ensures Survivors(s, ids + [id]) == if id == s.startedId then Survivors(s, ids) else Survivors(s, ids) - {id}
  {
    var after := Survivors(s, ids + [id]);
    var before := if id == s.startedId then Survivors(s, ids) else Survivors(s, ids) - {id};
    forall other
      ensures other in after <==> other in before
    {
      assert other in ids + [id] <==> other in ids || other == id;
    }
    assert after.Keys == before.Keys;
  }

  /** Deleting a group keeps the store consistent exactly when the group does not hold the running profile; the last
      group is not deleted. */
  lemma DeleteGroupKeeps(s: Store, gid: int)
    requires Consistent(s)
    ensures Consistent(DeletedGroup(s, gid)) <==>
            |s.groups| <= 1 || gid < 0 || s.startedId !in Members(s.profiles, gid)
  {
    hide Consistent, DeletedProfiles, WithoutGroup, Members;
    if |s.groups| > 1 {
      var t := DeletedProfiles(s, IdsIn(s.index, gid));
      DeleteProfilesKeeps(s, IdsIn(s.index, gid));
      assert |t.groups.Keys| == |s.groups.Keys|;
      WithoutGroupKeeps(t, gid);
      if gid >= 0 {
        MembersLeft(s, gid);
      }
    }
  }

  lemma MembersLeft(s: Store, gid: int)
    requires Consistent(s) && gid >= 0
    ensures Members(Survivors(s, IdsIn(s.index, gid)), gid)
            == if s.startedId in Members(s.profiles, gid) then {s.startedId} else {}
  {
    hide ProfilesRight, GroupsRight, Sorted;
    assert Answers(s.index, s.profiles, gid);
  }

  lemma WithoutGroupKeeps(s: Store, gid: int)
    requires Consistent(s) && |s.groups| > 1
    ensures Consistent(WithoutGroup(s, gid)) <==> gid < 0 || Members(s.profiles, gid) == {}
  {
    hide IndexRight, ProfilesRight, GroupsRight, Members;
    GroupRemoved(s, gid);
    IndexAfterDroppingGroup(s.index, s.profiles, gid);
    FirstTabRemains(s, gid);
  }

  lemma FirstTabRemains(s: Store, gid: int)
    requires GroupsRight(s.groups, s.groupIds, s.tabOrder, s.db.groups, s.db.tabOrder) && |s.groups| > 1
    ensures var tabs := RemoveAll(s.tabOrder, gid);
            tabs != [] && tabs[0] in s.groups - {gid}
  {
    hide Normalized, Enumerates;
    var tabs := RemoveAll(s.tabOrder, gid);
    RemovedElements(s.tabOrder, gid);
    assert Elements(tabs) == s.groups.Keys - {gid};
    assert |s.groups.Keys - {gid}| >= |s.groups.Keys| - |{gid}|;
    assert Elements(tabs) != {};
    assert Elements([]) == {};
    assert tabs[0] in Elements(tabs);
  }

  // ----- runs

  datatype Operation = AddProfile(ent: Profile, target: int) | SaveProfile(ent: Profile) | DeleteProfile(id: int)
    | MoveProfile(ent: Profile, target: int) | AddGroup(group: Group) | SaveGroup(group: Group) | DeleteGroup(gid: int)
    | Select(gid: int) | Run(id: int)

  function Applied(s: Store, op: Operation): Store {
    match op
    case AddProfile(ent, target) => AddedProfile(s, ent, target)
    case SaveProfile(ent) => SavedProfile(s, ent)
    case DeleteProfile(id) => DeletedProfile(s, id)
    case MoveProfile(ent, target) => MovedProfile(s, ent, target)
    case AddGroup(group) => AddedGroup(s, group)
    case SaveGroup(group) => SavedGroup(s, group)
    case DeleteGroup(gid) => DeletedGroup(s, gid)
    case Select(gid) => s.(currentGroup := gid)
    case Run(id) => s.(startedId := id)
  }

  /** What a caller can check before an operation: saved and moved entities are the ones in the store, with their
      group untouched; a new group does not get an id that profiles name already; a group to be deleted does not hold
      the running profile. */
  predicate Enabled(s: Store, op: Operation) {
    match op
    case SaveProfile(ent) => ent.id in s.profiles ==> ent.gid == s.profiles[ent.id].gid
    case MoveProfile(ent, _) => ent.id in s.profiles && ent == s.profiles[ent.id]
    case AddGroup(group) => group.id >= 0 || Members(s.profiles, NewGroupId(s)) == {}
    case SaveGroup(group) => group.id in s.groups
    case DeleteGroup(gid) => |s.groups| <= 1 || s.startedId !in Members(s.profiles, gid)
    case Select(gid) => gid in s.groups
    case _ => true
  }

  function Ran(s: Store, ops: seq<Operation>): Store {
    if ops == [] then s else Applied(Ran(s, ops[..|ops| - 1]), ops[|ops| - 1])
  }

  predicate AllEnabled(s: Store, ops: seq<Operation>) {
    forall k :: 0 <= k < |ops| ==> Enabled(Ran(s, ops[..k]), ops[k])
  }

  lemma OperationKeeps(s: Store, op: Operation)
    requires Consistent(s) && Enabled(s, op)
    ensures Consistent(Applied(s, op))
  {
    hide IndexRight, ProfilesRight, GroupsRight, AddedProfile, SavedProfile, DeletedProfile, MovedProfile, AddedGroup,
      SavedGroup, DeletedGroup, Members, NewGroupId;
    match op
    case AddProfile(ent, target) => AddProfileKeeps(s, ent, target);
    case SaveProfile(ent) => SaveProfileKeeps(s, ent);
    case DeleteProfile(id) => DeleteProfileKeeps(s, id);
    case MoveProfile(ent, target) => MoveProfileKeeps(s, ent, target);
    case AddGroup(group) => AddGroupKeeps(s, group);
    case SaveGroup(group) => SaveGroupKeeps(s, group);
    case DeleteGroup(gid) => DeleteGroupKeeps(s, gid);
    case Select(_) =>
    case Run(_) =>
  }

  /** The main result: after every sequence of operations the store is consistent, so its id lists enumerate, its
      index answers like a rebuilt one, and loading the tables gives back what is in memory. */
  lemma {:induction false} EveryRunIsConsistent(s: Store, ops: seq<Operation>)
    requires Consistent(s) && AllEnabled(s, ops)
    ensures var t := Ran(s, ops);
            Consistent(t) && SameStore(Loaded(t.db, t.currentGroup, t.startedId), t)
  {
    hide Consistent, Enabled, Applied, SameStore;
    if ops != [] {
      var shorter := ops[..|ops| - 1];
      forall k | 0 <= k < |shorter|
        ensures Enabled(Ran(s, shorter[..k]), shorter[k])
      {
        assert shorter[..k] == ops[..k];
        assert Enabled(Ran(s, ops[..k]), ops[k]);
      }
      EveryRunIsConsistent(s, shorter);
      OperationKeeps(Ran(s, shorter), ops[|ops| - 1]);
    }
    ReloadGivesTheStore(Ran(s, ops));
  }

  // ----- start-up

  /** Rows as the store writes them: under the ids of their entities, from 0 on. */
  predicate Readable(db: Database) {
    && (forall id :: id in db.profiles ==> id >= 0 && db.profiles[id].id == id)
    && (forall id :: id in db.groups ==> id >= 0 && db.groups[id].id == id)
  }

  /** The saved tab order names no group of the tables twice. */
  predicate TabsOnce(db: Database) {
    db.tabOrder.Some? ==> Distinct(Known(db.tabOrder.value, db.groups))
  }

  lemma {:induction false} CompletedStarts(order: seq<int>, ids: seq<int>)
    ensures order <= Completed(order, ids)
    ensures Distinct(Completed(order, ids)) <==> Distinct(order)
  {
    if ids != [] {
      var r, last := Completed(order, ids[..|ids| - 1]), ids[|ids| - 1];
      CompletedStarts(order, ids[..|ids| - 1]);
      if Distinct(r) && last !in r {
        AppendingKeepsDistinct(r, last);
      }
    }
  }

  /** Loading gives id lists that enumerate and an index that is right, and a tab for each group exactly when the saved
      order names no group twice. */
  lemma LoadedIsRight(db: Database, currentGroup: int, startedId: int)
    requires Readable(db)
    ensures var s := Loaded(db, currentGroup, startedId);
            && ProfilesRight(s.profiles, s.profileIds, s.db.profiles)
            && Enumerates(s.groupIds, s.groups.Keys) && Elements(s.tabOrder) == s.groups.Keys
            && (GroupsRight(s.groups, s.groupIds, s.tabOrder, s.db.groups, s.db.tabOrder) <==> TabsOnce(db))
            && IndexRight(s.index, s.profiles)
  {
    hide Sorted, Rebuilt, Known, Completed, Indexable, Distinct, ProfilesOf, GroupsOf;
    var s := Loaded(db, currentGroup, startedId);
    RowsAreEntities(db, db.profiles, db.groups);
    SortedEnumerates(s.profiles.Keys);
    SortedEnumerates(s.groups.Keys);
    NormalizedCovers(db.tabOrder, s.groupIds, s.groups);
    forall gid
      ensures Answers(s.index, s.profiles, gid)
    {
      RebuiltAnswers(s.profiles, s.groups, gid);
    }
  }

  lemma NormalizedCovers(saved: Option<seq<int>>, ids: seq<int>, groups: map<int, Group>)
    requires Elements(ids) == groups.Keys
    ensures var order, list := Normalized(saved, ids, groups), if saved.Some? then saved.value else [];
            Elements(order) == groups.Keys && (Distinct(order) <==> Distinct(Known(list, groups)))
    ensures Known([], groups) == [] && Distinct(Known([], groups))
  {
    hide Completed;
    var list := if saved.Some? then saved.value else [];
    CompletedStarts(Known(list, groups), ids);
    forall id
      ensures id in ids <==> id in groups
    {
      assert id in ids <==> id in Elements(ids);
    }
  }

  /** Start-up gives a consistent store exactly when the saved tab order names no group twice, and there is a group
      already or no profile names group 0, which the default group is about to become. */
  lemma OpenedIsConsistent(db: Database, currentGroup: int, startedId: int)
    requires Readable(db)
    ensures Consistent(Opened(db, currentGroup, startedId)) <==>
            TabsOnce(db) && (db.groups != map[] || Members(db.profiles, 0) == {})
  {
    hide Loaded, Members, IndexRight, ProfilesRight, GroupsRight, Readable, TabsOnce;
    var s := Loaded(db, currentGroup, startedId);
    LoadedIsRight(db, currentGroup, startedId);
    LoadedKeepsRows(db, currentGroup, startedId);
    if s.groups == map[] {
      NoTabs(db);
      var g := DEFAULT_GROUP.(id := 0);
      GroupAppended(s, g);
      IndexAfterFreshGroup(s.index, s.profiles, 0);
      assert s.groups[0 := g][0 := g] == s.groups[0 := g];
    } else {
      FirstTabIsKnown(s);
    }
  }

  lemma NoTabs(db: Database)
    requires db.groups == map[]
    ensures TabsOnce(db)
  {
    if db.tabOrder.Some? {
      var known := Known(db.tabOrder.value, db.groups);
      assert forall k :: 0 <= k < |known| ==> known[k] in known;
    }
  }

  lemma LoadedKeepsRows(db: Database, currentGroup: int, startedId: int)
    requires Readable(db)
    ensures var s := Loaded(db, currentGroup, startedId);
            s.profiles == db.profiles && s.groups == db.groups
            && s.db == db && s.currentGroup == currentGroup && s.startedId == startedId
  {
    hide Sorted, Normalized, Rebuilt, Distinct, ProfilesOf, GroupsOf;
    RowsAreEntities(db, db.profiles, db.groups);
  }

  lemma FirstTabIsKnown(s: Store)
    requires Elements(s.tabOrder) == s.groups.Keys && s.groups != map[]
    ensures s.tabOrder != [] && s.tabOrder[0] in s.groups
  {
    assert Elements([]) == {};
    assert s.groups.Keys != {};
    assert s.tabOrder[0] in Elements(s.tabOrder);
  }
}
