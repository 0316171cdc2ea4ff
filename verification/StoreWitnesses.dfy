/** Runs from the first start, on empty tables, to stores at which the properties of the store that do not always hold
    fail. The lemmas that say exactly when they hold are instantiated here. */
module StoreWitnesses {
  import opened IdLists
  import opened Options
  import opened Orders
  import opened ProfileStore
  import opened ProfileStoreRuns
  import opened ProfileLists
  import opened ProfileReorder
  import opened ReorderResults
  import opened SubscriptionLists
  import opened SubscriptionMerge
  import opened SubscriptionUpdate
  import opened SubscriptionResults

  const EMPTY := Database(map[], map[], None)
  const NEW_GROUP := Group(-1, false, [], [], Settings("", -1))

  /** The store of the first start. */
  function Start(): Store {
    Opened(EMPTY, -1, -1)
  }

  function NewProfile(text: string): Profile {
    Profile(-1, -1, Content(text, []))
  }

  /** A consistent store with one group, 0, that holds all profiles, none of them running. */
  ghost predicate OneGroup(s: Store, profiles: map<int, Profile>, order: seq<int>) {
    && Consistent(s) && s.profiles == profiles && s.startedId == -1 && s.currentGroup == 0
    && s.groups.Keys == {0} && !s.groups[0].archive && s.groups[0].order == order
    && forall id :: id in profiles ==> profiles[id].gid == 0
  }

  lemma StartIs()
    ensures OneGroup(Start(), map[], [])
  {
    hide Sorted, Consistent;
    SortedOfNone();
    NoTabs(EMPTY);
    assert Members(EMPTY.profiles, 0) == {};
    OpenedIsConsistent(EMPTY, -1, -1);
    assert Loaded(EMPTY, -1, -1).groups == map[];
    assert Loaded(EMPTY, -1, -1).groups.Keys == {};
  }

  lemma AddingTo(s: Store, profiles: map<int, Profile>, order: seq<int>, text: string)
    requires OneGroup(s, profiles, order)
    ensures var id := NewProfileId(s);
            && id !in profiles
            && OneGroup(AddedProfile(s, NewProfile(text), 0), profiles[id := Profile(id, 0, Content(text, []))], order)
  {
    hide Consistent, OnlyDiffersAt;
    AddProfileKeeps(s, NewProfile(text), 0);
    AddProfilePlaces(s, NewProfile(text), 0);
    AddingOnlyAdds(s, NewProfile(text), 0);
  }

  lemma AddingOnlyAdds(s: Store, ent: Profile, gid: int)
    requires Consistent(s) && ent.id < 0 && gid in s.groups
    ensures var t, id := AddedProfile(s, ent, gid), NewProfileId(s);
            && t.profiles == s.profiles[id := Profile(id, gid, ent.content)]
            && t.startedId == s.startedId && t.currentGroup == s.currentGroup
  {
    hide IndexRight, GroupsRight, Indexed;
    GroupIdOf(s, gid);
    TargetIsKnown(s, gid);
  }

  lemma Ordering(s: Store, profiles: map<int, Profile>, before: seq<int>, order: seq<int>, front: int)
    requires OneGroup(s, profiles, before)
    ensures var t := SavedGroup(s, s.groups[0].(order := order, settings := Settings("", front)));
            OneGroup(t, profiles, order) && t.groups[0].settings.front == front
  {
    hide IndexRight, GroupsRight, ProfilesRight, SavedGroup;
    var g := s.groups[0].(order := order, settings := Settings("", front));
    GroupIdOf(s, 0);
    KnownGroupSaved(s, g);
    SaveGroupKeeps(s, g);
  }

  // ----- stores with some profiles in one group

  const FIRST := Profile(0, 0, Content("a", []))
  const SECOND := Profile(1, 0, Content("b", []))

  function WithOne(): Store {
    AddedProfile(Start(), NewProfile("a"), 0)
  }

  lemma WithOneIs()
    ensures OneGroup(WithOne(), map[0 := FIRST], [])
  {
    hide Consistent, AddedProfile, Start;
    StartIs();
    AddingTo(Start(), map[], [], "a");
  }

  function WithTwo(): Store {
    AddedProfile(WithOne(), NewProfile("b"), 0)
  }

  lemma WithTwoIs()
    ensures OneGroup(WithTwo(), map[0 := FIRST, 1 := SECOND], [])
  {
    hide Consistent, AddedProfile, WithOne;
    WithOneIs();
    NextId(WithOne(), 0);
    AddingTo(WithOne(), map[0 := FIRST], [], "b");
  }

  lemma NextId(s: Store, id: int)
    requires Consistent(s) && s.profiles.Keys == {id}
    ensures NewProfileId(s) == id + 1
  {
    hide IndexRight, GroupsRight;
    OnlyId(s.profileIds, id);
  }

  lemma OnlyId(ids: seq<int>, id: int)
    requires Enumerates(ids, {id})
    ensures ids == [id]
  {
    assert Enumerates([id], {id});
    EnumerationIsSorted(ids, {id});
    EnumerationIsSorted([id], {id});
  }

  // ----- the index

  function TwoGroups(): Store {
    AddedGroup(Start(), NEW_GROUP)
  }

  lemma TwoGroupsAre()
    ensures Consistent(TwoGroups()) && TwoGroups().groups.Keys == {0, 1} && TwoGroups().profiles == map[]
    ensures TwoGroups().startedId == -1 && TwoGroups().currentGroup == 0
  {
    hide IndexRight, GroupsRight, ProfilesRight, Start;
    StartIs();
    NextGroupId(Start(), 0);
    assert Members(Start().profiles, 1) == {};
    AddGroupKeeps(Start(), NEW_GROUP);
  }

  lemma NextGroupId(s: Store, gid: int)
    requires Consistent(s) && s.groups.Keys == {gid}
    ensures NewGroupId(s) == gid + 1
  {
    hide IndexRight, ProfilesRight, Normalized;
    OnlyId(s.groupIds, gid);
  }

  /** A profile in the second group, running. */
  function RunningInSecond(): Store {
    AddedProfile(TwoGroups(), NewProfile("a"), 1).(startedId := 0)
  }

  lemma RunningInSecondIs()
    ensures var s := RunningInSecond();
            && Consistent(s) && s.groups.Keys == {0, 1} && s.profiles == map[0 := FIRST.(gid := 1)]
            && s.startedId == 0 && s.currentGroup == 0
  {
    hide IndexRight, GroupsRight, ProfilesRight, TwoGroups, AddedProfile;
    TwoGroupsAre();
    AddProfileKeeps(TwoGroups(), NewProfile("a"), 1);
    AddProfilePlaces(TwoGroups(), NewProfile("a"), 1);
    AddingOnlyAdds(TwoGroups(), NewProfile("a"), 1);
  }

  /** Deleting the group of the running profile: its profile stays, and the index no longer answers for it. */
  lemma DeletingTheRunningGroupBreaks()
    ensures Consistent(RunningInSecond()) && !Consistent(DeletedGroup(RunningInSecond(), 1))
  {
    hide Consistent, RunningInSecond, DeletedGroup;
    RunningInSecondIs();
    assert |RunningInSecond().groups.Keys| == 2;
    assert 0 in Members(RunningInSecond().profiles, 1);
    DeleteGroupKeeps(RunningInSecond(), 1);
  }

  /** The next start after that. */
  function Restarted(): Store {
    Opened(DeletedGroup(RunningInSecond(), 1).db, 0, -1)
  }

  lemma RestartedIs()
    ensures Consistent(Restarted()) && Restarted().groups.Keys == {0}
    ensures Restarted().profiles == map[0 := FIRST.(gid := 1)]
  {
    hide Consistent, RunningInSecond, DeletedGroup, Loaded, Readable, TabsOnce;
    var db := DeletedGroup(RunningInSecond(), 1).db;
    TablesLeft(RunningInSecond());
    OpenedIsConsistent(db, 0, -1);
    LoadedKeepsRows(db, 0, -1);
  }

  lemma TablesLeft(s: Store)
    requires s == RunningInSecond()
    ensures var db := DeletedGroup(s, 1).db;
            Readable(db) && TabsOnce(db) && db.groups.Keys == {0} && db.profiles == map[0 := FIRST.(gid := 1)]
  {
    hide Consistent, RunningInSecond, DeletedProfiles, Sorted, Known;
    RunningInSecondIs();
    assert |s.groups.Keys| == 2;
    var ids := IdsIn(s.index, 1);
    var t := DeletedProfiles(s, ids);
    DeleteProfilesKeeps(s, ids);
    GroupDropped(t, 1);
  }

  lemma GroupDropped(s: Store, gid: int)
    requires Consistent(s)
    ensures var db := WithoutGroup(s, gid).db;
            Readable(db) && TabsOnce(db) && db.groups == s.groups - {gid} && db.profiles == s.profiles
  {
    hide IndexRight, Known, Completed, Distinct, Enumerates, Elements;
    GroupRemoved(s, gid);
    CompletedStarts(Known(RemoveAll(s.tabOrder, gid), s.groups - {gid}), RemoveAll(s.groupIds, gid));
  }

  /** Adding a group then: it gets the id that the profile without a group still names. */
  lemma AddingAGroupBreaks()
    ensures Consistent(Restarted()) && !Consistent(AddedGroup(Restarted(), NEW_GROUP))
  {
    hide Consistent, Restarted, AddedGroup;
    RestartedIs();
    NextGroupId(Restarted(), 0);
    assert 0 in Members(Restarted().profiles, 1);
    AddGroupKeeps(Restarted(), NEW_GROUP);
  }

  /** Saving a profile under another group, instead of moving it. */
  lemma SavingElsewhereBreaks()
    ensures Consistent(WithOne()) && !Consistent(SavedProfile(WithOne(), FIRST.(gid := 1)))
  {
    hide Consistent, WithOne, SavedProfile;
    WithOneIs();
    SaveProfileKeeps(WithOne(), FIRST.(gid := 1));
  }

  /** Tables with a profile and no group: the default group of the start gets the id that the profile names. */
  lemma StartingWithoutGroupsBreaks()
    ensures var db := Database(map[0 := FIRST], map[], None);
            Readable(db) && !Consistent(Opened(db, -1, -1))
  {
    hide Consistent, Opened, TabsOnce;
    var db := Database(map[0 := FIRST], map[], None);
    assert 0 in Members(db.profiles, 0);
    OpenedIsConsistent(db, -1, -1);
  }

  /** Tables whose tab order names the only group twice. */
  lemma StartingWithATabTwiceBreaks()
    ensures var db := Database(map[], map[0 := NEW_GROUP.(id := 0)], Some([0, 0]));
            Readable(db) && !Consistent(Opened(db, -1, -1))
  {
    hide Consistent, Opened;
    var db := Database(map[], map[0 := NEW_GROUP.(id := 0)], Some([0, 0]));
    assert Known([0, 0], db.groups) == [0, 0];
    OpenedIsConsistent(db, -1, -1);
  }

  // ----- renumbering

  lemma OneTab(s: Store, profiles: map<int, Profile>, order: seq<int>)
    requires OneGroup(s, profiles, order) && order != [] && forall id <- order :: id in profiles
    ensures Listed(s) && TabsKnown(s) && s.tabOrder == [0] && AllVisits(s) == OnTab(order, 0)
  {
    hide IndexRight, Normalized, Enumerates;
    TabsAre(s);
    ElementsCount(s.tabOrder);
    assert s.tabOrder[0] in s.groups;
    assert Visits(s, 1) == Visits(s, 0) + OnTab(DisplayedIds(s, 0), 0);
  }

  /** What renumbering makes of the profiles. */
  predicate Renumbers(s: Store, profiles: map<int, Profile>) {
    TabsKnown(s) && Renumbered(s).profiles == profiles
  }

  /** Number i goes to the profile at place i, but each profile names its last place. */
  lemma OneTabRenumbers(s: Store, profiles: map<int, Profile>, order: seq<int>, after: map<int, Profile>)
    requires OneGroup(s, profiles, order) && order != [] && forall id <- order :: id in profiles
    requires after.Keys == Elements(Upto(|order|))
    requires forall i :: 0 <= i < |order| ==>
               i in after && order[i] in profiles
               && after[i] == profiles[order[i]].(id := LastVisit(OnTab(order, 0), |order|, order[i]))
    ensures Renumbers(s, after)
  {
    hide Consistent, Visits, Renumbered, Listed, LastVisit;
    OneTab(s, profiles, order);
    RenumberedAre(s);
    var r := Renumbered(s);
    forall i
      ensures i in r.profiles <==> i in after
      ensures i in r.profiles ==> r.profiles[i] == after[i]
    {
      FromHas(0, |order|, i);
      assert i in after <==> i in Elements(Upto(|order|));
      assert i in r.profiles ==> RowOfVisit(s, r, i);
    }
  }

  /** An addition to a group that has an order. */
  function Ordered(): Store {
    SavedGroup(WithOne(), WithOne().groups[0].(order := [0], settings := SETTINGS))
  }

  function WithHidden(): Store {
    AddedProfile(Ordered(), NewProfile("b"), 0)
  }

  /** The new profile is not displayed, and the next renumbering loses it. */
  lemma HiddenProfileIsLost()
    ensures Consistent(WithHidden()) && WithHidden().profiles == map[0 := FIRST, 1 := SECOND]
    ensures Renumbers(WithHidden(), map[0 := FIRST])
  {
    hide Consistent, WithOne, AddedProfile, SavedGroup, Renumbers;
    WithOneIs();
    Ordering(WithOne(), map[0 := FIRST], [], [0], -1);
    NextId(Ordered(), 0);
    AddingTo(Ordered(), map[0 := FIRST], [0], "b");
    assert Upto(1) == [0];
    OneTabRenumbers(WithHidden(), map[0 := FIRST, 1 := SECOND], [0], map[0 := FIRST]);
  }

  /** Two profiles in the reverse of their order of ids, and the older one as the front proxy of the group. */
  function Reversed(): Store {
    SavedGroup(WithTwo(), WithTwo().groups[0].(order := [1, 0], settings := Settings("", 0)))
  }

  predicate HasFront(groups: map<int, Group>, gid: int, front: int) {
    gid in groups && groups[gid].settings.front == front
  }

  lemma ReversedIs()
    ensures OneGroup(Reversed(), map[0 := FIRST, 1 := SECOND], [1, 0]) && HasFront(Reversed().groups, 0, 0)
  {
    hide Consistent, WithTwo, SavedGroup;
    WithTwoIs();
    Ordering(WithTwo(), map[0 := FIRST, 1 := SECOND], [], [1, 0], 0);
  }

  /** Renumbering exchanges the two ids, and the front proxy of the group is the other profile afterwards. */
  lemma FrontProxyChanges()
    ensures var s := Reversed();
            && Consistent(s) && s.profiles == map[0 := FIRST, 1 := SECOND] && HasFront(s.groups, 0, 0)
            && Renumbers(s, map[0 := SECOND.(id := 0), 1 := FIRST.(id := 1)]) && HasFront(Renumbered(s).groups, 0, 0)
  {
    hide Consistent, Reversed, Renumbered, Numbers, Mapped;
    ReversedIs();
    assert Upto(2) == [0, 1];
    OneTabRenumbers(Reversed(), map[0 := FIRST, 1 := SECOND], [1, 0], map[0 := SECOND.(id := 0), 1 := FIRST.(id := 1)]);
    OneTab(Reversed(), map[0 := FIRST, 1 := SECOND], [1, 0]);
    OrderIsDropped(Reversed(), 0);
  }

  /** Two profiles, of which the group displays the first and has the second as its front proxy. */
  function WithHiddenFront(): Store {
    SavedGroup(WithTwo(), WithTwo().groups[0].(order := [0], settings := Settings("", 1)))
  }

  /** Renumbering drops the hidden profile, and the front proxy names none. */
  lemma HiddenFrontIsLost()
    ensures var s := WithHiddenFront();
            && Consistent(s) && s.profiles == map[0 := FIRST, 1 := SECOND] && HasFront(s.groups, 0, 1)
            && Renumbers(s, map[0 := FIRST]) && HasFront(Renumbered(s).groups, 0, 1)
  {
    hide Consistent, WithTwo, SavedGroup, Renumbered, Renumbers, Numbers, Mapped;
    WithTwoIs();
    Ordering(WithTwo(), map[0 := FIRST, 1 := SECOND], [], [0], 1);
    HiddenFrontRenumbers(WithHiddenFront());
  }

  lemma HiddenFrontRenumbers(s: Store)
    requires OneGroup(s, map[0 := FIRST, 1 := SECOND], [0]) && HasFront(s.groups, 0, 1)
    ensures Renumbers(s, map[0 := FIRST]) && HasFront(Renumbered(s).groups, 0, 1)
  {
    hide Consistent, Renumbered, Numbers, Mapped;
    assert Upto(1) == [0];
    OneTabRenumbers(s, map[0 := FIRST, 1 := SECOND], [0], map[0 := FIRST]);
    OneTab(s, map[0 := FIRST, 1 := SECOND], [0]);
    OrderIsDropped(s, 0);
  }

  // ----- subscriptions

  const SETTINGS := Settings("", -1)
  const FETCHED := [Content("c", []), Content("d", [])]

  /** A comparison for which all profiles are the same. */
  function OneKey(): Content -> string {
    content => ""
  }

  function UpdatedOne(s: Store, contents: seq<Content>): Outcome {
    Updated(s, 0, contents, SETTINGS, false, OneKey())
  }

  /** What an update of the one group gives: one group, which lists all of its profiles. */
  ghost predicate IsUpdated(s: Store, u: Store, contents: seq<Content>) {
    && 0 in u.groups && OneGroup(u, u.profiles, u.groups[0].order) && u.profiles.Keys == Elements(u.groups[0].order)
    && |u.groups[0].order| == |contents|
    && (forall k :: 0 <= k < |contents| ==> MergedAt(s, u, 0, u.groups[0].order[k], contents[k], OneKey()))
    && SharesIds(s, 0, contents, OneKey(), u.groups[0].order) && OldAreUnchanged(s, u)
  }

  lemma UpdatingOne(s: Store, profiles: map<int, Profile>, before: seq<int>, contents: seq<Content>)
    requires OneGroup(s, profiles, before)
    ensures IsUpdated(s, UpdatedOne(s, contents).store, contents)
    ensures ReportRight(s, 0, contents, UpdatedOne(s, contents).report, OneKey())
  {
    hide Consistent, Updated, ReportRight, SharesIds, NewIds, MergedAt, Elements, OldAreUnchanged, Members;
    var u := UpdatedOne(s, contents).store;
    UpdateMerges(s, 0, contents, SETTINGS, OneKey());
    SparedIsRunning(s, 0, |contents|);
    NoneRuns(s);
    assert SameFlags(s.groups[0].(settings := SETTINGS), u.groups[0]);
    CurrentIsThere(u);
    AllInOne(s, u);
  }

  lemma AllInOne(s: Store, u: Store)
    requires OthersStay(s, u, 0) && OldAreUnchanged(s, u) && forall id :: id in s.profiles ==> s.profiles[id].gid == 0
    ensures Members(u.profiles, 0) == u.profiles.Keys && forall id :: id in u.profiles ==> u.profiles[id].gid == 0
  {
    forall id | id in u.profiles
      ensures u.profiles[id].gid == 0
    {
      assert id in s.profiles ==> u.profiles[id] == s.profiles[id];
    }
  }

  lemma NoneRuns(s: Store)
    requires Consistent(s) && s.startedId == -1
    ensures {s.startedId} * Members(s.profiles, 0) == {}
  {
  }

  lemma Holds(s: Store, profiles: map<int, Profile>, before: seq<int>, id: int)
    requires OneGroup(s, profiles, before)
    ensures id in Members(s.profiles, 0) <==> id in profiles
    ensures GroupKeys(s.profiles, 0, OneKey()) == if profiles.Keys == {} then {} else {""}
  {
    hide Consistent;
    if profiles.Keys != {} {
      var one := SomeMember(profiles.Keys);
      assert one in Members(s.profiles, 0);
      assert OneKey()(s.profiles[one].content) in GroupKeys(s.profiles, 0, OneKey());
    }
  }

  /** The group has a profile, and two entries with its key are fetched. */
  function RepeatedHeld(): Store {
    UpdatedOne(WithOne(), FETCHED).store
  }

  lemma RepeatedHeldIs()
    ensures OneGroup(RepeatedHeld(), map[0 := FIRST], [0, 0])
  {
    hide OneGroup, WithOne, UpdatedOne, IsUpdated;
    WithOneIs();
    UpdatingOne(WithOne(), map[0 := FIRST], [], FETCHED);
    BothAtOne(WithOne(), RepeatedHeld());
  }

  lemma BothAtOne(s: Store, u: Store)
    requires OneGroup(s, map[0 := FIRST], []) && IsUpdated(s, u, FETCHED)
    ensures OneGroup(u, map[0 := FIRST], [0, 0])
  {
    hide Consistent, SharesIds;
    var order := u.groups[0].order;
    Holds(s, map[0 := FIRST], [], 0);
    assert MergedAt(s, u, 0, order[0], FETCHED[0], OneKey()) && MergedAt(s, u, 0, order[1], FETCHED[1], OneKey());
    assert order == [0, 0];
    assert Elements(order) == {0};
  }

  /** The one profile of the group is listed twice, and renumbering makes two rows of it, of which one does not name its
      own id. */
  lemma RepeatedHeldBecomesTwo()
    ensures var s := RepeatedHeld();
            && OneGroup(s, map[0 := FIRST], [0, 0]) && !ListsTidy(s.groups, s.profiles, false)
            && Renumbers(s, map[0 := FIRST.(id := 1), 1 := FIRST.(id := 1)]) && !Consistent(Renumbered(s))
  {
    hide RepeatedHeld, Renumbered, ListsTidy, NoneTwice, Consistent, Visits, OnTab, Renumbers;
    RepeatedHeldIs();
    OneTab(RepeatedHeld(), map[0 := FIRST], [0, 0]);
    TwoRows(RepeatedHeld());
    RenumberedIsConsistent(RepeatedHeld());
    TwiceIsTwice(RepeatedHeld());
  }

  lemma TwoRows(s: Store)
    requires OneGroup(s, map[0 := FIRST], [0, 0])
    ensures Renumbers(s, map[0 := FIRST.(id := 1), 1 := FIRST.(id := 1)])
  {
    hide Consistent, Renumbers;
    assert Upto(2) == [0, 1];
    OneTabRenumbers(s, map[0 := FIRST], [0, 0], map[0 := FIRST.(id := 1), 1 := FIRST.(id := 1)]);
  }

  lemma TwiceIsTwice(s: Store)
    requires OneGroup(s, map[0 := FIRST], [0, 0]) && TabsKnown(s) && AllVisits(s) == OnTab([0, 0], 0)
    ensures !NoneTwice(AllVisits(s)) && !ListsTidy(s.groups, s.profiles, false)
  {
    hide Consistent, ListsTidy;
    assert AllVisits(s)[0].id == AllVisits(s)[1].id;
    if ListsTidy(s.groups, s.profiles, false) {
      TidyAmong(s, 0, false);
    }
  }

  /** The group is empty, and two entries with one key are fetched, and fetched again: the second time, the older of the
      two new profiles goes, and the other is listed twice. */
  lemma RepeatedNewChangesAgain()
    ensures var u := UpdatedOne(Start(), FETCHED).store;
            var v := UpdatedOne(u, FETCHED).store;
            0 in u.groups && 0 in v.groups && OlderGoes(u.groups[0].order, v.groups[0].order)
            && u.profiles.Keys == Elements(u.groups[0].order) && v.profiles.Keys == Elements(v.groups[0].order)
  {
    hide Consistent, Start, UpdatedOne, Elements, SharesIds, MergedAt;
    StartIs();
    UpdatingOne(Start(), map[], [], FETCHED);
    var u := UpdatedOne(Start(), FETCHED).store;
    UpdatingOne(u, u.profiles, u.groups[0].order, FETCHED);
    TwoNew(Start(), u);
    TwoHeld(u, UpdatedOne(u, FETCHED).store, u.groups[0].order);
  }

  predicate OlderGoes(before: seq<int>, after: seq<int>) {
    && |before| == 2 && before[0] != before[1]
    && after == if before[0] < before[1] then [before[1], before[1]] else [before[0], before[0]]
  }

  lemma TwoNew(s: Store, u: Store)
    requires OneGroup(s, map[], []) && IsUpdated(s, u, FETCHED)
    ensures u.groups[0].order[0] != u.groups[0].order[1]
  {
    hide Consistent;
    assert !ShareHeld(s, 0, FETCHED, OneKey(), 0, 1);
  }

  lemma TwoHeld(u: Store, v: Store, order: seq<int>)
    requires OneGroup(u, u.profiles, order) && u.profiles.Keys == Elements(order)
    requires |order| == 2 && order[0] != order[1]
    requires IsUpdated(u, v, FETCHED)
    ensures OlderGoes(order, v.groups[0].order)
  {
    hide Consistent, SharesIds;
    var after := v.groups[0].order;
    Holds(u, u.profiles, order, order[0]);
    Holds(u, u.profiles, order, order[1]);
    assert order[0] in Elements(order) && order[1] in Elements(order);
    assert MergedAt(u, v, 0, after[0], FETCHED[0], OneKey()) && MergedAt(u, v, 0, after[1], FETCHED[1], OneKey());
    assert after[0] in Elements(order) && after[1] in Elements(order);
  }

  /** The group has two profiles with one key, and one entry with that key is fetched: the older of them is deleted, and
      the report does not say so. */
  lemma DeletionIsNotReported()
    ensures var o := UpdatedOne(WithTwo(), [FETCHED[0]]);
            && OneGroup(WithTwo(), map[0 := FIRST, 1 := SECOND], []) && OneGroup(o.store, map[1 := SECOND], [1])
            && o.report == Changed([], [])
  {
    hide OneGroup, WithTwo, UpdatedOne, IsUpdated, ReportRight;
    var s := WithTwo();
    WithTwoIs();
    UpdatingOne(s, map[0 := FIRST, 1 := SECOND], [], [FETCHED[0]]);
    LatestStays(s, UpdatedOne(s, [FETCHED[0]]).store);
    NothingReported(s, UpdatedOne(s, [FETCHED[0]]).report);
  }

  lemma LatestStays(s: Store, u: Store)
    requires OneGroup(s, map[0 := FIRST, 1 := SECOND], []) && IsUpdated(s, u, [FETCHED[0]])
    ensures OneGroup(u, map[1 := SECOND], [1])
  {
    hide Consistent, SharesIds;
    var order := u.groups[0].order;
    Holds(s, map[0 := FIRST, 1 := SECOND], [], 0);
    Holds(s, map[0 := FIRST, 1 := SECOND], [], 1);
    assert MergedAt(s, u, 0, order[0], FETCHED[0], OneKey());
    assert order == [1];
    assert Elements(order) == {1};
  }

  lemma NothingReported(s: Store, report: Report)
    requires OneGroup(s, map[0 := FIRST, 1 := SECOND], []) && ReportRight(s, 0, [FETCHED[0]], report, OneKey())
    ensures report == Changed([], [])
  {
    hide Consistent, ReportRight;
    Holds(s, map[0 := FIRST, 1 := SECOND], [], 0);
    assert OneKey()(FETCHED[0]) in FetchedKeys([FETCHED[0]], OneKey());
    assert GroupKeys(s.profiles, 0, OneKey()) == FetchedKeys([FETCHED[0]], OneKey()) + {};
    NothingToReport(s, 0, [FETCHED[0]], report, OneKey(), {});
  }
}
