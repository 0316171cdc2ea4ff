/** Renumbering at start-up: groups get the ids 0, 1, ... in tab order, and profiles get them in the order in which the
    tabs display them. An order may name a profile more than once, and profiles of other groups; then one object comes
    to stand under several ids. */
module ProfileReorder {
  import opened IdLists
  import opened Options
  import opened Orders
  import opened ProfileStore
  import opened ProfileStoreRuns
  import opened ProfileLists

  // ----- what is visited

  /** What holds after loading: the id lists enumerate, entities stand under their ids, and each group has one tab. */
  predicate Listed(s: Store) {
    && ProfilesRight(s.profiles, s.profileIds, s.db.profiles)
    && GroupsRight(s.groups, s.groupIds, s.tabOrder, s.db.groups, s.db.tabOrder)
  }

  /** A profile, by the id it is stored under, is met on a tab. */
  datatype Visit = Visit(id: int, tab: int)

  function KnownIds(ids: seq<int>, known: set<int>): (r: seq<int>)
    ensures forall id <- r :: id in known
    ensures (forall id <- ids :: id in known) ==> r == ids
  {
    if ids == [] then []
    else
      var rest, last := KnownIds(ids[..|ids| - 1], known), ids[|ids| - 1];
      assert ids == ids[..|ids| - 1] + [last];
      if last in known then rest + [last] else rest
  }

  /** The ids under which the profiles that a group displays are stored. */
  function DisplayedIds(s: Store, gid: int): seq<int>
    requires gid in s.groups
  {
    KnownIds(if s.groups[gid].order == [] then IdsIn(s.index, gid) else s.groups[gid].order, s.profiles.Keys)
  }

  predicate TabsKnown(s: Store) {
    forall k :: 0 <= k < |s.tabOrder| ==> s.tabOrder[k] in s.groups
  }

  function OnTab(ids: seq<int>, tab: int): seq<Visit> {
    seq(|ids|, i requires 0 <= i < |ids| => Visit(ids[i], tab))
  }

  /** The visits of the first k tabs, tab by tab. */
  function Visits(s: Store, k: nat): seq<Visit>
    requires TabsKnown(s) && k <= |s.tabOrder|
  {
    if k == 0 then [] else Visits(s, k - 1) + OnTab(DisplayedIds(s, s.tabOrder[k - 1]), k - 1)
  }

  function AllVisits(s: Store): seq<Visit>
    requires TabsKnown(s)
  {
    Visits(s, |s.tabOrder|)
  }

  /** The last of the first n visits to a profile, or -1. */
  function LastVisit(visits: seq<Visit>, n: nat, id: int): (r: int)
    requires n <= |visits|
    ensures -1 <= r < n && (r >= 0 ==> visits[r].id == id)
    ensures forall i :: r < i < n ==> visits[i].id != id
  {
    if n == 0 then -1 else if visits[n - 1].id == id then n - 1 else LastVisit(visits, n - 1, id)
  }

  // ----- what renumbering makes

  /** A profile as it is after the first n visits: each visit gives it a number and puts it into the group of the tab.
      */
  function AfterVisits(p: Profile, visits: seq<Visit>, n: nat, id: int): Profile
    requires n <= |visits|
  {
    var last := LastVisit(visits, n, id);
    if last < 0 then p else p.(id := last, gid := visits[last].tab)
  }

  /** The number that visit n replaces: that of the profile's last visit, or its old id. */
  function NumberBefore(visits: seq<Visit>, n: nat): int
    requires n < |visits|
  {
    var last := LastVisit(visits, n, visits[n].id);
    if last < 0 then visits[n].id else last
  }

  /** The recorded new numbers after the first n visits. */
  function Numbers(visits: seq<Visit>, n: nat): map<int, int>
    requires n <= |visits|
  {
    if n == 0 then map[] else Numbers(visits, n - 1)[NumberBefore(visits, n - 1) := n - 1]
  }

  function RenumberedProfiles(profiles: map<int, Profile>, visits: seq<Visit>): map<int, Profile> {
    map i | 0 <= i < |visits| && visits[i].id in profiles ::
      AfterVisits(profiles[visits[i].id], visits, |visits|, visits[i].id)
  }

  function Mapped(ids: seq<int>, numbers: map<int, int>): seq<int> {
    if ids == [] then []
    else
      var rest, last := Mapped(ids[..|ids| - 1], numbers), ids[|ids| - 1];
      if last in numbers then rest + [numbers[last]] else rest
  }

  function RenumberedGroup(g: Group, id: int, numbers: map<int, int>): Group {
    g.(id := id, order := [], toggleIds := Mapped(g.toggleIds, numbers))
  }

  function RenumberedGroups(groups: map<int, Group>, tabs: seq<int>, numbers: map<int, int>): map<int, Group> {
    map k | 0 <= k < |tabs| && tabs[k] in groups :: RenumberedGroup(groups[tabs[k]], k, numbers)
  }

  /** Where each tab stands. */
  function Places(tabs: seq<int>): map<int, int> {
    map gid | gid in tabs :: Position(tabs, gid)
  }

  function Number(numbers: map<int, int>, id: int): int {
    if id in numbers then numbers[id] else id
  }

  function Upto(n: nat): seq<int> {
    From(0, n)
  }

  /** The store after renumbering. */
  function Renumbered(s: Store): Store
    requires TabsKnown(s)
  {
    var visits, tabs := AllVisits(s), s.tabOrder;
    var numbers := Numbers(visits, |visits|);
    var profiles := RenumberedProfiles(s.profiles, visits);
    var groups := RenumberedGroups(s.groups, tabs, numbers);
    Store(profiles, groups, Upto(|visits|), Upto(|tabs|), Upto(|tabs|), Rebuilt(profiles, groups),
          Database(profiles, groups, Some(Upto(|tabs|))),
          Number(Places(tabs), s.currentGroup), Number(numbers, s.startedId))
  }

  // ----- tabs and visits

  lemma PositionIs(ids: seq<int>, k: nat)
    requires Distinct(ids) && k < |ids|
    ensures Position(ids, ids[k]) == k
  {
    var id := ids[k];
    assert id in ids;
  }

  lemma TabsAre(s: Store)
    requires Listed(s)
    ensures TabsKnown(s) && Distinct(s.tabOrder) && Elements(s.tabOrder) == s.groups.Keys
  {
    forall k | 0 <= k < |s.tabOrder|
      ensures s.tabOrder[k] in s.groups
    {
      assert s.tabOrder[k] in Elements(s.tabOrder);
    }
  }

  lemma TabOf(s: Store, gid: int) returns (k: nat)
    requires Listed(s) && gid in s.groups
    ensures k < |s.tabOrder| && s.tabOrder[k] == gid && gid in Places(s.tabOrder) && Places(s.tabOrder)[gid] == k
  {
    TabsAre(s);
    assert gid in Elements(s.tabOrder);
    k :| 0 <= k < |s.tabOrder| && s.tabOrder[k] == gid;
    PositionIs(s.tabOrder, k);
  }

  lemma {:induction false} VisitsGrow(s: Store, k: nat, n: nat)
    requires TabsKnown(s) && k <= n <= |s.tabOrder|
    ensures Visits(s, k) <= Visits(s, n)
    decreases n
  {
    if k < n {
      VisitsGrow(s, k, n - 1);
    }
  }

  lemma OneMoreTab(s: Store, k: nat)
    requires TabsKnown(s) && k < |s.tabOrder|
    ensures Visits(s, k + 1) == Visits(s, k) + OnTab(DisplayedIds(s, s.tabOrder[k]), k)
  {
    hide DisplayedIds;
  }

  /** Where the profiles of tab k stand among the visits. */
  lemma TabInVisits(s: Store, k: nat, j: nat)
    requires TabsKnown(s) && k < |s.tabOrder| && j < |DisplayedIds(s, s.tabOrder[k])|
    ensures var i := |Visits(s, k)| + j;
            i < |AllVisits(s)| && AllVisits(s)[i] == Visit(DisplayedIds(s, s.tabOrder[k])[j], k)
  {
    hide DisplayedIds, Visits;
    OneMoreTab(s, k);
    VisitsGrow(s, k + 1, |s.tabOrder|);
    var ids, i := DisplayedIds(s, s.tabOrder[k]), |Visits(s, k)| + j;
    assert Visits(s, k + 1)[i] == OnTab(ids, k)[j];
  }

  /** Every visit is to a profile that its tab displays. */
  lemma {:induction false} VisitOnTab(s: Store, n: nat, i: nat) returns (k: nat, j: nat)
    requires TabsKnown(s) && n <= |s.tabOrder| && i < |Visits(s, n)|
    ensures k < n && j < |DisplayedIds(s, s.tabOrder[k])| && i == |Visits(s, k)| + j
    ensures Visits(s, n)[i] == Visit(DisplayedIds(s, s.tabOrder[k])[j], k)
  {
    hide DisplayedIds;
    if i < |Visits(s, n - 1)| {
      k, j := VisitOnTab(s, n - 1, i);
    } else {
      k, j := n - 1, i - |Visits(s, n - 1)|;
    }
  }

  lemma VisitIsKnown(s: Store, i: nat)
    requires TabsKnown(s) && i < |AllVisits(s)|
    ensures AllVisits(s)[i].id in s.profiles && 0 <= AllVisits(s)[i].tab < |s.tabOrder|
  {
    hide Visits;
    var k, j := VisitOnTab(s, |s.tabOrder|, i);
    var id := DisplayedIds(s, s.tabOrder[k])[j];
    assert id in DisplayedIds(s, s.tabOrder[k]);
  }

  /** Visits to one tab stand next to each other. */
  lemma TabsStandTogether(s: Store, k: nat, i: nat)
    requires TabsKnown(s) && k < |s.tabOrder| && i < |AllVisits(s)|
    ensures AllVisits(s)[i].tab == k <==> |Visits(s, k)| <= i < |Visits(s, k)| + |DisplayedIds(s, s.tabOrder[k])|
  {
    hide Visits, DisplayedIds;
    var m, j := VisitOnTab(s, |s.tabOrder|, i);
    if |Visits(s, k)| <= i < |Visits(s, k)| + |DisplayedIds(s, s.tabOrder[k])| {
      TabInVisits(s, k, i - |Visits(s, k)|);
    }
  }

  // ----- the loops

  lemma {:induction false} SameLastVisit(a: seq<Visit>, b: seq<Visit>, n: nat, id: int)
    requires n <= |a| <= |b| && a == b[..|a|]
    ensures LastVisit(a, n, id) == LastVisit(b, n, id)
  {
    if n > 0 {
      SameLastVisit(a, b, n - 1, id);
    }
  }

  lemma {:induction false} SameNumbers(a: seq<Visit>, b: seq<Visit>, n: nat)
    requires n <= |a| <= |b| && a == b[..|a|]
    ensures Numbers(a, n) == Numbers(b, n)
  {
    if n > 0 {
      SameNumbers(a, b, n - 1);
      SameLastVisit(a, b, n - 1, a[n - 1].id);
    }
  }

  /** The stored objects after some visits. */
  function Visited(profiles: map<int, Profile>, visits: seq<Visit>): map<int, Profile> {
    map id | id in profiles :: AfterVisits(profiles[id], visits, |visits|, id)
  }

  lemma OneMoreVisit(profiles: map<int, Profile>, visits: seq<Visit>, v: Visit)
    requires v.id in profiles && profiles[v.id].id == v.id
    ensures var p, more := Visited(profiles, visits)[v.id], visits + [v];
            && Visited(profiles, more) == Visited(profiles, visits)[v.id := p.(id := |visits|, gid := v.tab)]
            && Numbers(more, |more|) == Numbers(visits, |visits|)[p.id := |visits|]
  {
    var more := visits + [v];
    assert visits == more[..|visits|];
    forall id
      ensures LastVisit(visits, |visits|, id) == LastVisit(more, |visits|, id)
    {
      SameLastVisit(visits, more, |visits|, id);
    }
    SameNumbers(visits, more, |visits|);
  }

  /** The visits to the profiles of one tab: each numbers the object that it meets, whatever number that has by then. */
  method NumberTab(manager: ProfileManager, tab: nat, shown: seq<int>, numbers: map<int, int>, met: seq<int>,
      ghost profiles: map<int, Profile>, ghost visits: seq<Visit>)
    returns (numbersAfter: map<int, int>, metAfter: seq<int>)
    requires forall id :: id in profiles ==> profiles[id].id == id
    requires forall j :: 0 <= j < |shown| ==> shown[j] in profiles
    requires manager.profiles == Visited(profiles, visits)
    requires numbers == Numbers(visits, |visits|) && met == IdsOf(visits)
    modifies manager`profiles
    ensures var after := visits + OnTab(shown, tab);
            && manager.profiles == Visited(profiles, after)
            && numbersAfter == Numbers(after, |after|) && metAfter == IdsOf(after)
  {
    hide Visited, Numbers;
    numbersAfter, metAfter := numbers, met;
    ghost var done := visits;
    assert visits + OnTab(shown[..0], tab) == visits;
    for j := 0 to |shown|
      invariant done == visits + OnTab(shown[..j], tab)
      invariant manager.profiles == Visited(profiles, done)
      invariant numbersAfter == Numbers(done, |done|) && metAfter == IdsOf(done)
    {
      OneMoreVisit(profiles, done, Visit(shown[j], tab));
      VisitedKeys(profiles, done);
      var p, n := manager.profiles[shown[j]], |metAfter|;
      numbersAfter := numbersAfter[p.id := n];
      manager.profiles := manager.profiles[shown[j] := p.(id := n, gid := tab)];
      metAfter := metAfter + [shown[j]];
      done := done + [Visit(shown[j], tab)];
      assert OnTab(shown[..j + 1], tab) == OnTab(shown[..j], tab) + [Visit(shown[j], tab)];
    }
    assert shown[..|shown|] == shown;
  }

  function IdsOf(visits: seq<Visit>): seq<int> {
    seq(|visits|, i requires 0 <= i < |visits| => visits[i].id)
  }

  lemma VisitedKeys(profiles: map<int, Profile>, visits: seq<Visit>)
    ensures Visited(profiles, visits).Keys == profiles.Keys
  {
  }

  method ShownIds(manager: ProfileManager, gid: int) returns (shown: seq<int>)
    requires gid in manager.groups
    ensures shown == DisplayedIds(manager.Value(), gid)
  {
    var group := manager.groups[gid];
    var ids := if group.order == [] then IdsIn(manager.groupProfileIds, gid) else group.order;
    shown := [];
    for k := 0 to |ids|
      invariant shown == KnownIds(ids[..k], manager.profiles.Keys)
    {
      assert ids[..k + 1][..k] == ids[..k];
      if ids[k] in manager.profiles {
        shown := shown + [ids[k]];
      }
    }
    assert ids[..|ids|] == ids;
  }

  method NumberProfiles(manager: ProfileManager) returns (gids: map<int, int>, numbers: map<int, int>, met: seq<int>)
    requires Listed(manager.Value())
    modifies manager`profiles
    ensures TabsKnown(old(manager.Value()))
    ensures var s := old(manager.Value());
            var visits := AllVisits(s);
            && gids == Places(s.tabOrder) && numbers == Numbers(visits, |visits|) && met == IdsOf(visits)
            && manager.profiles == Visited(s.profiles, visits)
  {
    hide Listed, Visits, Numbers, Visited, Distinct, DisplayedIds, Elements;
    ghost var s := manager.Value();
    TabsAre(s);
    gids, numbers, met := map[], map[], [];
    var tabs := manager.groupsTabOrder;
    NothingVisited(s);
    for k := 0 to |tabs|
      invariant manager.groups == s.groups && manager.groupProfileIds == s.index
      invariant gids == Places(tabs[..k])
      invariant numbers == Numbers(Visits(s, k), |Visits(s, k)|) && met == IdsOf(Visits(s, k))
      invariant manager.profiles == Visited(s.profiles, Visits(s, k))
    {
      OneMorePlace(tabs, k);
      gids := gids[tabs[k] := k];
      var shown := ShownIds(manager, tabs[k]);
      VisitedKeys(s.profiles, Visits(s, k));
      SameKeysShown(s, manager.Value(), tabs[k]);
      ShownAreStored(s, tabs[k]);
      OneMoreTab(s, k);
      numbers, met := NumberTab(manager, k, shown, numbers, met, s.profiles, Visits(s, k));
    }
    assert tabs[..|tabs|] == tabs;
  }

  lemma OneMorePlace(tabs: seq<int>, k: nat)
    requires Distinct(tabs) && k < |tabs|
    ensures Places(tabs[..k + 1]) == Places(tabs[..k])[tabs[k] := k]
  {
    var more := tabs[..k + 1];
    assert more[..k] == tabs[..k];
    forall gid | gid in more
      ensures Position(more, gid) == if gid == tabs[k] then k else Position(tabs[..k], gid)
    {
      var i := Position(more, gid);
      PositionIs(more, i);
      if i < k {
        assert tabs[..k][i] == gid;
        PositionIs(tabs[..k], i);
      }
    }
  }

  lemma NothingVisited(s: Store)
    requires TabsKnown(s)
    ensures Visits(s, 0) == [] && Visited(s.profiles, []) == s.profiles
    ensures Numbers([], 0) == map[] && IdsOf([]) == [] && Places([]) == map[]
  {
  }

  lemma SameKeysShown(s: Store, t: Store, gid: int)
    requires s.groups == t.groups && s.index == t.index && s.profiles.Keys == t.profiles.Keys && gid in s.groups
    ensures DisplayedIds(s, gid) == DisplayedIds(t, gid)
  {
  }

  lemma ShownAreStored(s: Store, gid: int)
    requires Listed(s) && gid in s.groups
    ensures forall j :: 0 <= j < |DisplayedIds(s, gid)| ==> DisplayedIds(s, gid)[j] in s.profiles
    ensures forall id :: id in s.profiles ==> s.profiles[id].id == id
  {
    hide Enumerates, Normalized;
    var ids := DisplayedIds(s, gid);
    forall j | 0 <= j < |ids|
      ensures ids[j] in s.profiles
    {
      var id := ids[j];
      assert id in ids;
    }
  }

  method MapIds(ids: seq<int>, numbers: map<int, int>) returns (mapped: seq<int>)
    ensures mapped == Mapped(ids, numbers)
  {
    mapped := [];
    for k := 0 to |ids|
      invariant mapped == Mapped(ids[..k], numbers)
    {
      assert ids[..k + 1][..k] == ids[..k];
      if ids[k] in numbers {
        mapped := mapped + [numbers[ids[k]]];
      }
    }
    assert ids[..|ids|] == ids;
  }

  method NumberGroups(tabs: seq<int>, groups: map<int, Group>, gids: map<int, int>, numbers: map<int, int>)
    returns (renumbered: map<int, Group>, ids: seq<int>)
    requires Distinct(tabs) && (forall k :: 0 <= k < |tabs| ==> tabs[k] in groups) && gids == Places(tabs)
    ensures renumbered == RenumberedGroups(groups, tabs, numbers) && ids == Upto(|tabs|)
  {
    hide Mapped, Position, RenumberedGroups;
    renumbered, ids := map[], [];
    NoGroup(groups, numbers);
    assert tabs[..0] == [];
    for k := 0 to |tabs|
      invariant renumbered == RenumberedGroups(groups, tabs[..k], numbers) && ids == Upto(k)
    {
      OneMoreGroup(groups, tabs, k, numbers);
      var group := groups[tabs[k]];
      PositionIs(tabs, k);
      var gid := tabs[k];
      assert gid in tabs;
      var toggles := MapIds(group.toggleIds, numbers);
      group := group.(toggleIds := toggles);
      group := group.(order := []);
      group := group.(id := gids[gid]);
      renumbered := renumbered[group.id := group];
      ids := ids + [group.id];
    }
    assert tabs[..|tabs|] == tabs;
  }

  lemma NoGroup(groups: map<int, Group>, numbers: map<int, int>)
    ensures RenumberedGroups(groups, [], numbers) == map[]
  {
  }

  lemma OneMoreGroup(groups: map<int, Group>, tabs: seq<int>, k: nat, numbers: map<int, int>)
    requires k < |tabs| && tabs[k] in groups
    ensures RenumberedGroups(groups, tabs[..k + 1], numbers)
         == RenumberedGroups(groups, tabs[..k], numbers)[k := RenumberedGroup(groups[tabs[k]], k, numbers)]
  {
    hide Mapped;
    assert tabs[..k + 1] == tabs[..k] + [tabs[k]];
  }

  /** Writes every row into emptied tables. */
  method SaveAll(manager: ProfileManager)
    requires manager.db.profiles == map[] && manager.db.groups == map[]
    modifies manager`db
    ensures manager.db == Database(manager.profiles, manager.groups, Some(manager.groupsTabOrder))
  {
    hide Sorted;
    var gids := Sorted(manager.groups.Keys);
    SortedEnumerates(manager.groups.Keys);
    for k := 0 to |gids|
      invariant manager.db.groups == Restricted(manager.groups, gids[..k]) && manager.db.profiles == map[]
    {
      assert gids[k] in Elements(gids);
      RestrictedWithOneMore(manager.groups, gids, k);
      var _ := manager.SaveGroupToDb(gids[k]);
    }
    assert gids[..|gids|] == gids;
    RestrictedToAll(manager.groups, gids);
    var ids := Sorted(manager.profiles.Keys);
    SortedEnumerates(manager.profiles.Keys);
    for k := 0 to |ids|
      invariant manager.db.profiles == Restricted(manager.profiles, ids[..k]) && manager.db.groups == manager.groups
    {
      assert ids[k] in Elements(ids);
      RestrictedWithOneMore(manager.profiles, ids, k);
      var _ := manager.SaveProfileToDb(ids[k]);
    }
    assert ids[..|ids|] == ids;
    RestrictedToAll(manager.profiles, ids);
    manager.SaveGroupsTabOrder();
  }

  /** The rows of the new ids: each stands for the object that was met. */
  method Rows(profiles: map<int, Profile>, met: seq<int>) returns (rows: map<int, Profile>)
    requires forall i :: 0 <= i < |met| ==> met[i] in profiles
    ensures rows == map i | 0 <= i < |met| :: profiles[met[i]]
  {
    rows := map[];
    for n := 0 to |met|
      invariant rows == map i | 0 <= i < n :: profiles[met[i]]
    {
      rows := rows[n := profiles[met[n]]];
    }
  }

  lemma RowsAre(s: Store, rows: map<int, Profile>)
    requires TabsKnown(s)
    requires var visits := AllVisits(s);
             && (forall i :: 0 <= i < |visits| ==> visits[i].id in s.profiles)
             && rows == map i | 0 <= i < |visits| :: Visited(s.profiles, visits)[IdsOf(visits)[i]]
    ensures rows == RenumberedProfiles(s.profiles, AllVisits(s))
  {
    hide Visits;
  }

  lemma AllAreStored(s: Store)
    requires TabsKnown(s)
    ensures forall i :: 0 <= i < |AllVisits(s)| ==> AllVisits(s)[i].id in s.profiles
  {
    hide Visits;
    forall i | 0 <= i < |AllVisits(s)|
      ensures AllVisits(s)[i].id in s.profiles
    {
      VisitIsKnown(s, i);
    }
  }

  /** Puts the renumbered entities into the maps, lists, index and tables. */
  method Install(manager: ProfileManager, profiles: map<int, Profile>, ids: seq<int>, groups: map<int, Group>,
      groupIds: seq<int>)
    modifies manager
    ensures manager.Value()
            == Store(profiles, groups, ids, groupIds, groupIds, Rebuilt(profiles, groups),
                     Database(profiles, groups, Some(groupIds)), old(manager.currentGroup), old(manager.startedId))
  {
    hide Rebuilt;
    manager.db := manager.db.(profiles := map[], groups := map[]);
    manager.profiles := profiles;
    manager.groups := groups;
    manager.profilesIdOrder := ids;
    manager.groupsIdOrder := groupIds;
    manager.groupsTabOrder := groupIds;
    manager.RebuildGroupProfileIndex();
    SaveAll(manager);
  }

  method Renumber(manager: ProfileManager, rememberId: int) returns (remembered: int)
    requires Listed(manager.Value())
    modifies manager
    ensures TabsKnown(old(manager.Value()))
    ensures manager.Value() == Renumbered(old(manager.Value()))
    ensures var visits := AllVisits(old(manager.Value()));
            remembered == Number(Numbers(visits, |visits|), rememberId)
  {
    hide Listed, Visits, Numbers, Visited, Places, RenumberedProfiles, RenumberedGroups, Rebuilt, Distinct, Elements;
    ghost var s := manager.Value();
    TabsAre(s);
    var gids, numbers, met := NumberProfiles(manager);
    AllAreStored(s);
    VisitedKeys(s.profiles, AllVisits(s));
    var profiles := Rows(manager.profiles, met);
    RowsAre(s, profiles);
    var groups, groupIds := NumberGroups(manager.groupsTabOrder, manager.groups, gids, numbers);
    if manager.currentGroup in gids {
      manager.currentGroup := gids[manager.currentGroup];
    }
    if manager.startedId in numbers {
      manager.startedId := numbers[manager.startedId];
    }
    remembered := if rememberId in numbers then numbers[rememberId] else rememberId;
    Install(manager, profiles, Upto(|met|), groups, groupIds);
  }
}
