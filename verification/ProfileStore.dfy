/** The profile store: profiles, groups, their id lists, the tab order and a per-group index in memory, and the tables
    that mirror them. `Store` is the value of a `ProfileManager` object; each method is tied to a function on it. */
module ProfileStore {
  import opened IdLists
  import opened Options

  /** What the store passes through of a profile; `chain` lists the ids of the profiles that a chain consists of. */
  datatype Content = Content(text: string, chain: seq<int>)

  datatype Profile = Profile(id: int, gid: int, content: Content)

  /** What the store passes through of a group; `front` is the id of its front proxy, negative for none. */
  datatype Settings = Settings(text: string, front: int)

  datatype Group = Group(id: int, archive: bool, order: seq<int>, toggleIds: seq<int>, settings: Settings)

  type Index = map<int, seq<int>>

  /** The tables: rows by id, and the saved tab order. */
  datatype Database = Database(profiles: map<int, Profile>, groups: map<int, Group>, tabOrder: Option<seq<int>>)

  datatype Store = Store(profiles: map<int, Profile>, groups: map<int, Group>, profileIds: seq<int>,
                         groupIds: seq<int>, tabOrder: seq<int>, index: Index, db: Database,
                         currentGroup: int, startedId: int)

  // ----- the index

  function IdsIn(index: Index, gid: int): seq<int> {
    if gid in index then index[gid] else []
  }

  function Indexed(index: Index, id: int, gid: int): Index {
    if gid < 0 then index else index[gid := Inserted(IdsIn(index, gid), id)]
  }

  function Unindexed(index: Index, id: int, gid: int): Index {
    if gid !in index then index else index[gid := RemoveAll(index[gid], id)]
  }

  function Members(profiles: map<int, Profile>, gid: int): set<int> {
    set id | id in profiles && profiles[id].gid == gid
  }

  /** What the index is to answer for a group: no profile is indexed under a negative one. */
  function Indexable(profiles: map<int, Profile>, gid: int): set<int> {
    if gid < 0 then {} else Members(profiles, gid)
  }

  function Gids(profiles: map<int, Profile>): set<int> {
    set id | id in profiles && profiles[id].gid >= 0 :: profiles[id].gid
  }

  /** The index built from nothing: every group and every gid in use, with its members in ascending order. */
  function Rebuilt(profiles: map<int, Profile>, groups: map<int, Group>): Index {
    map gid | gid in groups.Keys + Gids(profiles) :: Sorted(Indexable(profiles, gid))
  }

  /** What a rebuilt index answers: the ascending ids of the profiles of the group. */
  lemma RebuiltAnswers(profiles: map<int, Profile>, groups: map<int, Group>, gid: int)
    ensures IdsIn(Rebuilt(profiles, groups), gid) == Sorted(Indexable(profiles, gid))
  {
    hide Sorted;
    if gid !in Rebuilt(profiles, groups) && gid >= 0 {
      forall id
        ensures id !in Members(profiles, gid)
      {
        assert gid !in Gids(profiles);
      }
      assert Members(profiles, gid) == {};
    }
    SortedOfNone();
  }

  lemma SortedOfNone()
    ensures Sorted({}) == []
  {
  }

  lemma MembersWithOneMore(profiles: map<int, Profile>, id: int, p: Profile, gid: int)
    requires id !in profiles
    ensures Members(profiles[id := p], gid) == Members(profiles, gid) + if p.gid == gid then {id} else {}
  {
  }

  /** Adding one profile to a right answer gives the right answer. */
  lemma IndexedAnswers(index: Index, profiles: map<int, Profile>, id: int, p: Profile, gid: int)
    requires id !in profiles && IdsIn(index, gid) == Sorted(Indexable(profiles, gid))
    ensures IdsIn(Indexed(index, id, p.gid), gid) == Sorted(Indexable(profiles[id := p], gid))
  {
    hide Sorted, Members;
    MembersWithOneMore(profiles, id, p, gid);
    if gid == p.gid >= 0 {
      var ids := IdsIn(index, gid);
      assert id !in Members(profiles, gid) by {
        NotAMember(profiles, id, gid);
      }
      SortedEnumerates(Members(profiles, gid));
      assert Elements(ids) == Members(profiles, gid);
    }
  }

  lemma NotAMember(profiles: map<int, Profile>, id: int, gid: int)
    requires id !in profiles
    ensures id !in Members(profiles, gid)
  {
  }

  lemma MembersWithOneLess(profiles: map<int, Profile>, id: int, gid: int)
    ensures Members(profiles - {id}, gid) == Members(profiles, gid) - {id}
  {
  }

  /** Removing one profile from a right answer gives the right answer. */
  lemma UnindexedAnswers(index: Index, profiles: map<int, Profile>, id: int, gid: int)
    requires id in profiles && IdsIn(index, gid) == Sorted(Indexable(profiles, gid))
    ensures IdsIn(Unindexed(index, id, profiles[id].gid), gid) == Sorted(Indexable(profiles - {id}, gid))
  {
    hide Sorted, RemoveAll, Members;
    MembersWithOneLess(profiles, id, gid);
    if profiles[id].gid == gid {
      SortedRemoves(Indexable(profiles, gid), id);
      SortedOfNone();
    } else {
      NotOfTheGroup(profiles, id, gid);
      assert Members(profiles, gid) - {id} == Members(profiles, gid);
    }
  }

  lemma NotOfTheGroup(profiles: map<int, Profile>, id: int, gid: int)
    requires id in profiles && profiles[id].gid != gid
    ensures id !in Members(profiles, gid)
  {
  }

  lemma SortedRemoves(members: set<int>, id: int)
    ensures RemoveAll(Sorted(members), id) == Sorted(members - {id})
  {
    RemovingKeepsOrder(Sorted(members), id);
    AscendingIsUnique(RemoveAll(Sorted(members), id), Sorted(members - {id}));
  }

  lemma RebuiltWithOneMore(profiles: map<int, Profile>, groups: map<int, Group>, id: int, p: Profile)
    requires id !in profiles
    ensures Rebuilt(profiles[id := p], groups) == Indexed(Rebuilt(profiles, groups), id, p.gid)
  {
    hide Sorted, Members, Indexable, Inserted;
    var before, after := Rebuilt(profiles, groups), Rebuilt(profiles[id := p], groups);
    assert after.Keys == Indexed(before, id, p.gid).Keys by {
      GidsWithOneMore(profiles, id, p);
    }
    forall gid | gid in after
      ensures after[gid] == Indexed(before, id, p.gid)[gid]
    {
      RebuiltAnswers(profiles, groups, gid);
      RebuiltAnswers(profiles[id := p], groups, gid);
      IndexedAnswers(before, profiles, id, p, gid);
    }
  }

  lemma GidsWithOneMore(profiles: map<int, Profile>, id: int, p: Profile)
    requires id !in profiles
    ensures Gids(profiles[id := p]) == Gids(profiles) + if p.gid >= 0 then {p.gid} else {}
  {
    var more := profiles[id := p];
    forall gid | gid in Gids(profiles)
      ensures gid in Gids(more)
    {
      var other :| other in profiles && profiles[other].gid == gid;
      assert more[other].gid == gid;
    }
    assert p.gid >= 0 ==> more[id].gid in Gids(more);
  }

  lemma EmptyIsRebuilt(index: Index, groups: map<int, Group>)
    requires index.Keys == groups.Keys && forall gid :: gid in index ==> index[gid] == []
    ensures index == Rebuilt(map[], groups)
  {
    forall gid | gid in index
      ensures Sorted(Indexable(map[], gid)) == []
    {
      assert Indexable(map[], gid) == {};
      SortedOfNone();
    }
    assert Gids(map[]) == {};
  }

  /** The entries with the given ids. */
  function Restricted<T>(entries: map<int, T>, ids: seq<int>): map<int, T> {
    map id | id in entries && id in ids :: entries[id]
  }

  lemma RestrictedWithOneMore<T>(entries: map<int, T>, ids: seq<int>, k: nat)
    requires k < |ids| && ids[k] in entries
    ensures Restricted(entries, ids[..k + 1]) == Restricted(entries, ids[..k])[ids[k] := entries[ids[k]]]
  {
    assert ids[..k + 1] == ids[..k] + [ids[k]];
  }

  lemma AscendingIsApart(ids: seq<int>, k: nat)
    requires k < |ids| && Ascending(ids)
    ensures ids[k] !in ids[..k]
  {
  }

  lemma RestrictedToAll<T>(entries: map<int, T>, ids: seq<int>)
    requires entries.Keys == Elements(ids)
    ensures Restricted(entries, ids) == entries
  {
    forall id | id in entries
      ensures id in Restricted(entries, ids)
    {
      assert id in Elements(ids);
    }
  }

  // ----- single steps

  function NewProfileId(s: Store): int {
    if s.profiles == map[] || s.profileIds == [] then 0 else s.profileIds[|s.profileIds| - 1] + 1
  }

  function NewGroupId(s: Store): int {
    if s.groups == map[] || s.groupIds == [] then 0 else s.groupIds[|s.groupIds| - 1] + 1
  }

  function GroupRow(s: Store, id: int): Store {
    if id in s.groups then s.(db := s.db.(groups := s.db.groups[id := s.groups[id]])) else s
  }

  function ProfileRow(s: Store, id: int): Store {
    if id in s.profiles then s.(db := s.db.(profiles := s.db.profiles[id := s.profiles[id]])) else s
  }

  predicate GroupDiffers(db: Database, g: Group, id: int) {
    id in db.groups ==> db.groups[id] != g
  }

  predicate ProfileDiffers(db: Database, p: Profile, id: int) {
    id in db.profiles ==> db.profiles[id] != p
  }

  lemma RowDiffers(before: Database, after: Database, p: Profile)
    requires before.profiles == after.profiles
    ensures ProfileDiffers(before, p, p.id) <==> ProfileDiffers(after, p, p.id)
  {
  }

  function TabOrderRow(s: Store): Store {
    s.(db := s.db.(tabOrder := Some(s.tabOrder)))
  }

  /** Saves a group that is in the store under its id, with the contents it has now, or adds one that is not. */
  function SavedGroup(s: Store, g: Group): Store {
    if g.id < 0 then s
    else if g.id in s.groups then GroupRow(s.(groups := s.groups[g.id := g]), g.id)
    else GroupRow(s.(groups := s.groups[g.id := g],
                     groupIds := Inserted(s.groupIds, g.id),
                     tabOrder := if g.id in s.tabOrder then s.tabOrder else s.tabOrder + [g.id],
                     index := if g.id in s.index then s.index else s.index[g.id := []]), g.id)
  }

  function SavedProfile(s: Store, p: Profile): Store {
    if p.id < 0 then s
    else if p.id in s.profiles then ProfileRow(s.(profiles := s.profiles[p.id := p]), p.id)
    else ProfileRow(s.(profiles := s.profiles[p.id := p],
                       profileIds := Inserted(s.profileIds, p.id),
                       index := Indexed(s.index, p.id, p.gid)), p.id)
  }

  /** A group that a profile is added to: the first one becomes a toggle profile. */
  function WithToggle(g: Group, id: int): Group {
    if g.toggleIds == [] then g.(toggleIds := [id]) else g
  }

  function WithMember(g: Group, id: int): Group {
    WithToggle(if g.order == [] then g else g.(order := g.order + [id]), id)
  }

  function WithoutMember(g: Group, id: int): Group {
    g.(order := RemoveAll(g.order, id), toggleIds := RemoveAll(g.toggleIds, id))
  }

  function SavedWithToggle(s: Store, id: int, gid: int): Store {
    if gid in s.groups then SavedGroup(s, WithToggle(s.groups[gid], id)) else s
  }

  function SavedWithMember(s: Store, id: int, gid: int): Store {
    if gid in s.groups then SavedGroup(s, WithMember(s.groups[gid], id)) else s
  }

  function SavedWithoutMember(s: Store, id: int, gid: int): Store {
    if gid in s.groups then SavedGroup(s, WithoutMember(s.groups[gid], id)) else s
  }

  // ----- the operations

  /** The group a new profile goes to. */
  function TargetGroup(s: Store, gid: int): int {
    var wanted := if gid < 0 then s.currentGroup else gid;
    if wanted !in s.groups && s.tabOrder != [] then s.tabOrder[0] else wanted
  }

  function AddedProfile(s: Store, ent: Profile, gid: int): Store {
    if ent.id >= 0 then s
    else
      var p := Profile(NewProfileId(s), TargetGroup(s, gid), ent.content);
      var t := s.(profiles := s.profiles[p.id := p], profileIds := s.profileIds + [p.id],
                  index := Indexed(s.index, p.id, p.gid));
      SavedProfile(SavedWithToggle(t, p.id, p.gid), p)
  }

  function Unlisted(s: Store, id: int): Store {
    if id in s.profiles then
      var t := SavedWithoutMember(s, id, s.profiles[id].gid);
      t.(index := Unindexed(t.index, id, s.profiles[id].gid))
    else s
  }

  /** The running profile is not deleted. */
  function DeletedProfile(s: Store, id: int): Store {
    if id < 0 || s.startedId == id then s
    else
      var t := Unlisted(s, id);
      t.(profiles := t.profiles - {id}, profileIds := RemoveAll(t.profileIds, id),
         db := t.db.(profiles := t.db.profiles - {id}))
  }

  function MovedProfile(s: Store, ent: Profile, gid: int): Store {
    if gid == ent.gid || gid < 0 then s
    else
      var t := SavedWithoutMember(s, ent.id, ent.gid);
      var u := SavedWithMember(t.(index := Unindexed(t.index, ent.id, ent.gid)), ent.id, gid);
      SavedProfile(u.(index := Indexed(u.index, ent.id, gid)), ent.(gid := gid))
  }

  function AddedGroup(s: Store, ent: Group): Store {
    if ent.id >= 0 then s
    else
      var g := ent.(id := NewGroupId(s));
      var t := s.(groups := s.groups[g.id := g], groupIds := s.groupIds + [g.id], tabOrder := s.tabOrder + [g.id],
                  index := s.index[g.id := []]);
      var u := TabOrderRow(SavedGroup(t, g));
      if u.currentGroup < 0 || u.currentGroup !in u.groups then u.(currentGroup := g.id) else u
  }

  function DeletedProfiles(s: Store, ids: seq<int>): Store {
    if ids == [] then s else DeletedProfile(DeletedProfiles(s, ids[..|ids| - 1]), ids[|ids| - 1])
  }

  function WithoutGroup(s: Store, gid: int): Store {
    var t := TabOrderRow(s.(groups := s.groups - {gid}, groupIds := RemoveAll(s.groupIds, gid),
                            tabOrder := RemoveAll(s.tabOrder, gid), index := s.index - {gid},
                            db := s.db.(groups := s.db.groups - {gid})));
    if t.currentGroup != gid then t
    else t.(currentGroup := if t.tabOrder == [] then -1 else t.tabOrder[0])
  }

  /** The last group stays. */
  function DeletedGroup(s: Store, gid: int): Store {
    if |s.groups| <= 1 then s else WithoutGroup(DeletedProfiles(s, IdsIn(s.index, gid)), gid)
  }

  // ----- listing a group

  function ProfilesAt(profiles: map<int, Profile>, ids: seq<int>): seq<Profile> {
    if ids == [] then []
    else
      var rest, last := ProfilesAt(profiles, ids[..|ids| - 1]), ids[|ids| - 1];
      if last in profiles then rest + [profiles[last]] else rest
  }

  lemma {:induction false} ProfilesAtKnown(profiles: map<int, Profile>, ids: seq<int>)
    requires forall k :: 0 <= k < |ids| ==> ids[k] in profiles
    ensures |ProfilesAt(profiles, ids)| == |ids|
    ensures forall k :: 0 <= k < |ids| ==> ProfilesAt(profiles, ids)[k] == profiles[ids[k]]
  {
    if ids != [] {
      ProfilesAtKnown(profiles, ids[..|ids| - 1]);
    }
  }

  function GroupProfiles(s: Store, gid: int): seq<Profile> {
    ProfilesAt(s.profiles, IdsIn(s.index, gid))
  }

  /** The profiles of a group as they are displayed: by its order, or by id when it has none. */
  function Displayed(s: Store, g: Group): seq<Profile> {
    if g.order == [] then GroupProfiles(s, g.id) else ProfilesAt(s.profiles, g.order)
  }

  // ----- loading

  function Known(order: seq<int>, groups: map<int, Group>): (r: seq<int>)
    ensures forall id :: id in r <==> id in order && id in groups
    ensures (forall id :: id in order ==> id in groups) ==> r == order
  {
    if order == [] then []
    else
      var rest := Known(order[..|order| - 1], groups);
      var last := order[|order| - 1];
      assert order == order[..|order| - 1] + [last];
      if last in groups then rest + [last] else rest
  }

  function Completed(order: seq<int>, ids: seq<int>): (r: seq<int>)
    ensures forall id :: id in r <==> id in order || id in ids
    ensures (forall id :: id in ids ==> id in order) ==> r == order
  {
    if ids == [] then order
    else
      var r := Completed(order, ids[..|ids| - 1]);
      var last := ids[|ids| - 1];
      assert ids == ids[..|ids| - 1] + [last];
      if last in r then r else r + [last]
  }

  /** The saved tab order without unknown groups, then the groups it does not name. */
  function Normalized(saved: Option<seq<int>>, ids: seq<int>, groups: map<int, Group>): seq<int> {
    Completed(Known(if saved.Some? then saved.value else [], groups), ids)
  }

  /** The rows with these ids as entities, each under the id of its row. */
  function NamedProfiles(rows: map<int, Profile>, ids: seq<int>): (r: map<int, Profile>)
    requires forall id <- ids :: id in rows
    ensures forall id :: id in r <==> id in ids
    ensures forall id :: id in r ==> r[id] == rows[id].(id := id)
  {
    if ids == [] then map[]
    else
      var before, last := ids[..|ids| - 1], ids[|ids| - 1];
      assert ids == before + [last];
      NamedProfiles(rows, before)[last := rows[last].(id := last)]
  }

  function NamedGroups(rows: map<int, Group>, ids: seq<int>): (r: map<int, Group>)
    requires forall id <- ids :: id in rows
    ensures forall id :: id in r <==> id in ids
    ensures forall id :: id in r ==> r[id] == rows[id].(id := id)
  {
    if ids == [] then map[]
    else
      var before, last := ids[..|ids| - 1], ids[|ids| - 1];
      assert ids == before + [last];
      NamedGroups(rows, before)[last := rows[last].(id := last)]
  }

  lemma OneProfileMore(rows: map<int, Profile>, ids: seq<int>, k: nat)
    requires k < |ids| && forall id <- ids :: id in rows
    ensures (forall id <- ids[..k] :: id in rows) && (forall id <- ids[..k + 1] :: id in rows) && ids[k] in rows
    ensures NamedProfiles(rows, ids[..k + 1]) == NamedProfiles(rows, ids[..k])[ids[k] := rows[ids[k]].(id := ids[k])]
  {
    var more := ids[..k + 1];
    assert forall id <- more :: id in ids;
    assert more[..|more| - 1] == ids[..k];
    assert forall id <- ids[..k] :: id in ids;
    var last := ids[k];
    assert last in ids;
  }

  function ProfilesOf(db: Database): map<int, Profile> {
    NamedProfiles(db.profiles, Sorted(db.profiles.Keys))
  }

  lemma OneGroupMore(rows: map<int, Group>, ids: seq<int>, k: nat)
    requires k < |ids| && forall id <- ids :: id in rows
    ensures (forall id <- ids[..k] :: id in rows) && (forall id <- ids[..k + 1] :: id in rows) && ids[k] in rows
    ensures NamedGroups(rows, ids[..k + 1]) == NamedGroups(rows, ids[..k])[ids[k] := rows[ids[k]].(id := ids[k])]
  {
    var more := ids[..k + 1];
    assert forall id <- more :: id in ids;
    assert more[..|more| - 1] == ids[..k];
    assert forall id <- ids[..k] :: id in ids;
    var last := ids[k];
    assert last in ids;
  }

  function GroupsOf(db: Database): map<int, Group> {
    NamedGroups(db.groups, Sorted(db.groups.Keys))
  }

  lemma EntitiesAre(db: Database)
    ensures ProfilesOf(db).Keys == db.profiles.Keys
    ensures forall id :: id in db.profiles ==> ProfilesOf(db)[id] == db.profiles[id].(id := id)
    ensures GroupsOf(db).Keys == db.groups.Keys
    ensures forall id :: id in db.groups ==> GroupsOf(db)[id] == db.groups[id].(id := id)
  {
    hide Sorted, NamedProfiles, NamedGroups, Ascending;
  }

  function Loaded(db: Database, currentGroup: int, startedId: int): Store {
    var profiles, groups := ProfilesOf(db), GroupsOf(db);
    var groupIds := Sorted(groups.Keys);
    Store(profiles, groups, Sorted(profiles.Keys), groupIds, Normalized(db.tabOrder, groupIds, groups),
          Rebuilt(profiles, groups), db, currentGroup, startedId)
  }

  lemma LoadedIs(s: Store)
    requires s.profiles == ProfilesOf(s.db) && s.profileIds == Sorted(s.profiles.Keys)
    requires s.groups == GroupsOf(s.db) && s.groupIds == Sorted(s.groups.Keys)
    requires s.tabOrder == Normalized(s.db.tabOrder, s.groupIds, s.groups) && s.index == Rebuilt(s.profiles, s.groups)
    ensures s == Loaded(s.db, s.currentGroup, s.startedId)
  {
    hide Sorted, Rebuilt, Normalized, ProfilesOf, GroupsOf;
  }

  const DEFAULT_GROUP := Group(-1, false, [], [], Settings("Default", -1))

  /** Starting up without renumbering. */
  function Opened(db: Database, currentGroup: int, startedId: int): Store {
    var s := Loaded(db, currentGroup, startedId);
    var t := if s.groups == map[] then AddedGroup(s, DEFAULT_GROUP) else s;
    if t.currentGroup !in t.groups && t.tabOrder != [] then t.(currentGroup := t.tabOrder[0]) else t
  }

  // ----- the object

  class ProfileManager {
    var profiles: map<int, Profile>
    var groups: map<int, Group>
    var profilesIdOrder: seq<int>
    var groupsIdOrder: seq<int>
    var groupsTabOrder: seq<int>
    var groupProfileIds: Index
    var db: Database
    var currentGroup: int
    var startedId: int

    ghost function Value(): Store
      reads this
    {
      Store(profiles, groups, profilesIdOrder, groupsIdOrder, groupsTabOrder, groupProfileIds, db, currentGroup,
            startedId)
    }

    method AddProfileToGroupIndex(profileId: int, gid: int)
      modifies this`groupProfileIds
      ensures groupProfileIds == Indexed(old(groupProfileIds), profileId, gid)
    {
      if gid < 0 {
        return;
      }
      groupProfileIds := groupProfileIds[gid := Inserted(IdsIn(groupProfileIds, gid), profileId)];
    }

    method RemoveProfileFromGroupIndex(profileId: int, gid: int)
      modifies this`groupProfileIds
      ensures groupProfileIds == Unindexed(old(groupProfileIds), profileId, gid)
    {
      if gid !in groupProfileIds {
        return;
      }
      groupProfileIds := groupProfileIds[gid := RemoveAll(groupProfileIds[gid], profileId)];
    }

    method RebuildGroupProfileIndex()
      modifies this`groupProfileIds
      ensures groupProfileIds == Rebuilt(profiles, groups)
    {
      hide Sorted, Rebuilt, Indexed, Elements, Ascending;
      ClearIndex();
      var ids := Sorted(profiles.Keys);
      assert Restricted(profiles, ids[..0]) == map[];
      for k := 0 to |ids|
        invariant groupProfileIds == Rebuilt(Restricted(profiles, ids[..k]), groups)
      {
        var id := ids[k];
        assert id in profiles;
        AscendingIsApart(ids, k);
        RestrictedWithOneMore(profiles, ids, k);
        RebuiltWithOneMore(Restricted(profiles, ids[..k]), groups, id, profiles[id]);
        AddProfileToGroupIndex(id, profiles[id].gid);
      }
      assert ids[..|ids|] == ids;
      SortedEnumerates(profiles.Keys);
      RestrictedToAll(profiles, ids) by {
        assert Enumerates(ids, profiles.Keys);
      }
    }

    /** An empty entry for every group. */
    method ClearIndex()
      modifies this`groupProfileIds
      ensures groupProfileIds == Rebuilt(map[], groups)
    {
      hide Sorted, Rebuilt;
      groupProfileIds := map[];
      var gids := Sorted(groups.Keys);
      for k := 0 to |gids|
        invariant groupProfileIds.Keys == Elements(gids[..k])
        invariant forall gid :: gid in groupProfileIds ==> groupProfileIds[gid] == []
      {
        assert gids[..k + 1] == gids[..k] + [gids[k]];
        groupProfileIds := groupProfileIds[gids[k] := []];
      }
      assert gids[..|gids|] == gids;
      SortedEnumerates(groups.Keys);
      EmptyIsRebuilt(groupProfileIds, groups);
    }

    /** The row tells what was saved last. */
    method SaveGroupToDb(id: int) returns (changed: bool)
      modifies this`db
      ensures Value() == GroupRow(old(Value()), id)
      ensures changed <==> id in groups && GroupDiffers(old(db), groups[id], id)
    {
      if id !in groups {
        return false;
      }
      changed := id !in db.groups || db.groups[id] != groups[id];
      db := db.(groups := db.groups[id := groups[id]]);
    }

    method SaveProfileToDb(id: int) returns (changed: bool)
      modifies this`db
      ensures Value() == ProfileRow(old(Value()), id)
      ensures changed <==> id in profiles && ProfileDiffers(old(db), profiles[id], id)
    {
      if id !in profiles {
        return false;
      }
      changed := id !in db.profiles || db.profiles[id] != profiles[id];
      db := db.(profiles := db.profiles[id := profiles[id]]);
    }

    method SaveGroupsTabOrder()
      modifies this`db
      ensures Value() == TabOrderRow(old(Value()))
    {
      db := db.(tabOrder := Some(groupsTabOrder));
    }

    method SaveGroup(ent: Group) returns (changed: bool)
      modifies this
      ensures Value() == SavedGroup(old(Value()), ent)
      ensures changed <==> ent.id >= 0 && GroupDiffers(old(db), ent, ent.id)
      ensures db.profiles == old(db.profiles)
    {
      hide Inserted;
      if ent.id < 0 {
        return false;
      }
      if ent.id !in groups {
        groupsIdOrder := Inserted(groupsIdOrder, ent.id);
        if ent.id !in groupsTabOrder {
          groupsTabOrder := groupsTabOrder + [ent.id];
        }
        if ent.id !in groupProfileIds {
          groupProfileIds := groupProfileIds[ent.id := []];
        }
      }
      groups := groups[ent.id := ent];
      changed := SaveGroupToDb(ent.id);
    }

    method SaveProfile(ent: Profile) returns (changed: bool)
      modifies this
      ensures Value() == SavedProfile(old(Value()), ent)
      ensures changed <==> ent.id >= 0 && ProfileDiffers(old(db), ent, ent.id)
    {
      hide Inserted, Indexed;
      if ent.id < 0 {
        return false;
      }
      if ent.id !in profiles {
        profilesIdOrder := Inserted(profilesIdOrder, ent.id);
        AddProfileToGroupIndex(ent.id, ent.gid);
      }
      profiles := profiles[ent.id := ent];
      changed := SaveProfileToDb(ent.id);
    }

    /** The group that a new profile goes to, and its id. */
    method Place(ent: Profile, gid: int) returns (p: Profile)
      ensures p == Profile(NewProfileId(Value()), TargetGroup(Value(), gid), ent.content)
    {
      p := ent.(gid := if gid < 0 then currentGroup else gid);
      if p.gid !in groups && groupsTabOrder != [] {
        p := p.(gid := groupsTabOrder[0]);
      }
      p := p.(id := if profiles == map[] || profilesIdOrder == [] then 0
                    else profilesIdOrder[|profilesIdOrder| - 1] + 1);
    }

    method AddProfile(ent: Profile, gid: int) returns (saved: bool, p: Profile)
      modifies this
      ensures Value() == AddedProfile(old(Value()), ent, gid)
      ensures saved <==> ent.id < 0 <= p.id && ProfileDiffers(old(db), p, p.id)
      ensures p == if ent.id >= 0 then ent
                   else Profile(NewProfileId(old(Value())), TargetGroup(old(Value()), gid), ent.content)
    {
      hide SavedGroup, SavedProfile, Indexed, NewProfileId, TargetGroup, ProfileDiffers;
      if ent.id >= 0 {
        return false, ent;
      }
      p := Place(ent, gid);
      profiles := profiles[p.id := p];
      profilesIdOrder := profilesIdOrder + [p.id];
      AddProfileToGroupIndex(p.id, p.gid);
      if p.gid in groups {
        var group := groups[p.gid];
        if group.toggleIds == [] {
          assert group.toggleIds + [p.id] == [p.id];
          group := group.(toggleIds := group.toggleIds + [p.id]);
        }
        var _ := SaveGroup(group);
      }
      RowDiffers(old(db), db, p);
      saved := SaveProfile(p);
    }

    method DeleteProfile(id: int)
      modifies this
      ensures Value() == DeletedProfile(old(Value()), id)
    {
      hide SavedGroup, Unindexed;
      if id < 0 || startedId == id {
        return;
      }
      if id in profiles {
        var ent := profiles[id];
        if ent.gid in groups {
          var group := groups[ent.gid];
          group := group.(toggleIds := RemoveAll(group.toggleIds, id));
          group := group.(order := RemoveAll(group.order, id));
          var _ := SaveGroup(group);
        }
        RemoveProfileFromGroupIndex(id, ent.gid);
      }
      profiles := profiles - {id};
      profilesIdOrder := RemoveAll(profilesIdOrder, id);
      db := db.(profiles := db.profiles - {id});
    }

    method MoveProfile(ent: Profile, gid: int)
      modifies this
      ensures Value() == MovedProfile(old(Value()), ent, gid)
    {
      hide SavedGroup, SavedProfile, Indexed, Unindexed;
      if gid == ent.gid || gid < 0 {
        return;
      }
      if ent.gid in groups {
        var oldGroup := groups[ent.gid];
        oldGroup := oldGroup.(order := RemoveAll(oldGroup.order, ent.id));
        oldGroup := oldGroup.(toggleIds := RemoveAll(oldGroup.toggleIds, ent.id));
        var _ := SaveGroup(oldGroup);
      }
      RemoveProfileFromGroupIndex(ent.id, ent.gid);
      if gid in groups {
        var newGroup := groups[gid];
        if newGroup.order != [] {
          newGroup := newGroup.(order := newGroup.order + [ent.id]);
        }
        if newGroup.toggleIds == [] {
          assert newGroup.toggleIds + [ent.id] == [ent.id];
          newGroup := newGroup.(toggleIds := newGroup.toggleIds + [ent.id]);
        }
        var _ := SaveGroup(newGroup);
      }
      AddProfileToGroupIndex(ent.id, gid);
      var _ := SaveProfile(ent.(gid := gid));
    }

    method NextGroupId() returns (id: int)
      ensures id == NewGroupId(Value())
    {
      id := if groups == map[] || groupsIdOrder == [] then 0 else groupsIdOrder[|groupsIdOrder| - 1] + 1;
    }

    method AddGroup(ent: Group) returns (saved: bool)
      modifies this
      ensures Value() == AddedGroup(old(Value()), ent)
      ensures var id := NewGroupId(old(Value()));
              saved <==> ent.id < 0 <= id && GroupDiffers(old(db), ent.(id := id), id)
    {
      hide SavedGroup, NewGroupId, GroupDiffers;
      if ent.id >= 0 {
        return false;
      }
      var id := NextGroupId();
      var group := ent.(id := id);
      groups := groups[id := group];
      groupsIdOrder := groupsIdOrder + [id];
      groupsTabOrder := groupsTabOrder + [id];
      groupProfileIds := groupProfileIds[id := []];
      saved := SaveGroup(group);
      SaveGroupsTabOrder();
      if currentGroup < 0 || currentGroup !in groups {
        currentGroup := id;
      }
    }

    method DeleteGroup(gid: int)
      modifies this
      ensures Value() == DeletedGroup(old(Value()), gid)
    {
      hide DeletedProfile, DeletedProfiles, WithoutGroup;
      if |groups| <= 1 {
        return;
      }
      DeleteProfiles(IdsIn(groupProfileIds, gid));
      DropGroup(gid);
    }

    method DropGroup(gid: int)
      modifies this
      ensures Value() == WithoutGroup(old(Value()), gid)
    {
      groups := groups - {gid};
      groupsIdOrder := RemoveAll(groupsIdOrder, gid);
      groupsTabOrder := RemoveAll(groupsTabOrder, gid);
      groupProfileIds := groupProfileIds - {gid};
      db := db.(groups := db.groups - {gid});
      SaveGroupsTabOrder();
      if currentGroup == gid {
        currentGroup := if groupsTabOrder == [] then -1 else groupsTabOrder[0];
      }
    }

    method DeleteProfiles(ids: seq<int>)
      modifies this
      ensures Value() == DeletedProfiles(old(Value()), ids)
    {
      hide DeletedProfile;
      for k := 0 to |ids|
        invariant Value() == DeletedProfiles(old(Value()), ids[..k])
      {
        assert ids[..k + 1][..k] == ids[..k];
        DeleteProfile(ids[k]);
      }
      assert ids[..|ids|] == ids;
    }

    method ListProfiles(ids: seq<int>) returns (list: seq<Profile>)
      ensures list == ProfilesAt(profiles, ids)
    {
      list := [];
      for k := 0 to |ids|
        invariant list == ProfilesAt(profiles, ids[..k])
      {
        assert ids[..k + 1][..k] == ids[..k];
        if ids[k] in profiles {
          list := list + [profiles[ids[k]]];
        }
      }
      assert ids[..|ids|] == ids;
    }

    method ProfilesOfGroup(gid: int) returns (list: seq<Profile>)
      ensures list == GroupProfiles(Value(), gid)
    {
      list := ListProfiles(IdsIn(groupProfileIds, gid));
    }

    method ProfilesWithOrder(g: Group) returns (list: seq<Profile>)
      ensures list == Displayed(Value(), g)
    {
      if g.order == [] {
        list := ProfilesOfGroup(g.id);
      } else {
        list := ListProfiles(g.order);
      }
    }

    method LoadFromSqlite()
      modifies this
      ensures Value() == Loaded(db, currentGroup, startedId)
      ensures db == old(db) && currentGroup == old(currentGroup) && startedId == old(startedId)
    {
      hide Sorted, Rebuilt, Normalized, ProfilesOf, GroupsOf, Loaded;
      LoadGroups();
      LoadProfiles();
      groupsTabOrder := NormalizedTabOrder();
      RebuildGroupProfileIndex();
      LoadedIs(Value());
    }

    method LoadGroups()
      modifies this`groups, this`groupsIdOrder
      ensures groups == GroupsOf(db) && groupsIdOrder == Sorted(groups.Keys)
    {
      hide Sorted, NamedGroups, Ascending;
      groups, groupsIdOrder := map[], [];
      var ids := Sorted(db.groups.Keys);
      for k := 0 to |ids|
        invariant groups == NamedGroups(db.groups, ids[..k])
        invariant groupsIdOrder == ids[..k]
      {
        var id := ids[k];
        OneGroupMore(db.groups, ids, k);
        assert ids[..k + 1] == ids[..k] + [id];
        groups := groups[id := db.groups[id].(id := id)];
        groupsIdOrder := groupsIdOrder + [id];
      }
      assert ids[..|ids|] == ids;
      EntitiesAre(db);
    }

    method LoadProfiles()
      modifies this`profiles, this`profilesIdOrder
      ensures profiles == ProfilesOf(db) && profilesIdOrder == Sorted(profiles.Keys)
    {
      hide Sorted, NamedProfiles, Ascending;
      profiles, profilesIdOrder := map[], [];
      var ids := Sorted(db.profiles.Keys);
      for k := 0 to |ids|
        invariant profiles == NamedProfiles(db.profiles, ids[..k])
        invariant profilesIdOrder == ids[..k]
      {
        var id := ids[k];
        OneProfileMore(db.profiles, ids, k);
        assert ids[..k + 1] == ids[..k] + [id];
        profiles := profiles[id := db.profiles[id].(id := id)];
        profilesIdOrder := profilesIdOrder + [id];
      }
      assert ids[..|ids|] == ids;
      EntitiesAre(db);
    }

    method NormalizedTabOrder() returns (order: seq<int>)
      ensures order == Normalized(db.tabOrder, groupsIdOrder, groups)
    {
      var saved := if db.tabOrder.Some? then db.tabOrder.value else [];
      order := [];
      for k := 0 to |saved|
        invariant order == Known(saved[..k], groups)
      {
        assert saved[..k + 1][..k] == saved[..k];
        if saved[k] in groups {
          order := order + [saved[k]];
        }
      }
      assert saved[..|saved|] == saved;
      ghost var known := order;
      for k := 0 to |groupsIdOrder|
        invariant order == Completed(known, groupsIdOrder[..k])
      {
        assert groupsIdOrder[..k + 1][..k] == groupsIdOrder[..k];
        if groupsIdOrder[k] !in order {
          order := order + [groupsIdOrder[k]];
        }
      }
      assert groupsIdOrder[..|groupsIdOrder|] == groupsIdOrder;
    }

    /** Start-up on existing tables, without renumbering. */
    method LoadManager()
      modifies this
      ensures Value() == Opened(old(db), old(currentGroup), old(startedId))
    {
      hide Loaded, AddedGroup;
      LoadFromSqlite();
      if groups == map[] {
        var _ := AddGroup(DEFAULT_GROUP);
      }
      if currentGroup !in groups && groupsTabOrder != [] {
        currentGroup := groupsTabOrder[0];
      }
    }
  }
}
