/** Moving tabs: the window shows the groups that are not archived, and their new order is woven into that of all
    groups. */
module TabMoves {
  import opened IdLists
  import opened Options
  import opened Orders
  import opened ProfileStore
  import opened ProfileStoreRuns

  /** Archived groups keep their turns, the visible ones take the others in their new order. */
  function Woven(tabs: seq<int>, visible: seq<int>, groups: map<int, Group>): seq<int> {
    if tabs == [] then visible
    else if tabs[0] !in groups then Woven(tabs[1..], visible, groups)
    else if groups[tabs[0]].archive then [tabs[0]] + Woven(tabs[1..], visible, groups)
    else if visible == [] then Woven(tabs[1..], visible, groups)
    else [visible[0]] + Woven(tabs[1..], visible[1..], groups)
  }

  method MergeVisibleGroupOrder(groups: map<int, Group>, oldOrder: seq<int>, visibleOrder: seq<int>)
    returns (merged: seq<int>)
    ensures merged == Woven(oldOrder, visibleOrder, groups)
  {
    merged := [];
    var visibleIndex := 0;
    for k := 0 to |oldOrder|
      invariant visibleIndex <= |visibleOrder|
      invariant merged + Woven(oldOrder[k..], visibleOrder[visibleIndex..], groups)
             == Woven(oldOrder, visibleOrder, groups)
    {
      var gid, rest, left := oldOrder[k], oldOrder[k..], visibleOrder[visibleIndex..];
      assert rest[0] == gid && rest[1..] == oldOrder[k + 1..];
      if gid !in groups {
        continue;
      }
      if groups[gid].archive {
        merged := merged + [gid];
      } else if visibleIndex < |visibleOrder| {
        assert left[0] == visibleOrder[visibleIndex] && left[1..] == visibleOrder[visibleIndex + 1..];
        merged := merged + [visibleOrder[visibleIndex]];
        visibleIndex := visibleIndex + 1;
      }
    }
    while visibleIndex < |visibleOrder|
      invariant visibleIndex <= |visibleOrder|
      invariant merged + visibleOrder[visibleIndex..] == Woven(oldOrder, visibleOrder, groups)
    {
      merged := merged + [visibleOrder[visibleIndex]];
      visibleIndex := visibleIndex + 1;
    }
  }

  // ----- what comes out

  function ArchivedAmong(ids: seq<int>, groups: map<int, Group>): seq<int> {
    if ids == [] then []
    else if ids[0] in groups && groups[ids[0]].archive then [ids[0]] + ArchivedAmong(ids[1..], groups)
    else ArchivedAmong(ids[1..], groups)
  }

  function Archived(groups: map<int, Group>): set<int> {
    set gid | gid in groups && groups[gid].archive
  }

  lemma {:induction false} ArchivedAre(ids: seq<int>, groups: map<int, Group>)
    ensures Elements(ArchivedAmong(ids, groups)) == Elements(ids) * Archived(groups)
    ensures Distinct(ids) ==> Distinct(ArchivedAmong(ids, groups))
  {
    if ids == [] {
    } else {
      hide Distinct, Elements;
      ArchivedAre(ids[1..], groups);
      FirstAndRest(ids);
      var rest := ArchivedAmong(ids[1..], groups);
      assert ([ids[0]] + rest)[1..] == rest;
      FirstAndRest([ids[0]] + rest);
    }
  }

  lemma {:induction false} WovenHas(tabs: seq<int>, visible: seq<int>, groups: map<int, Group>)
    ensures |Woven(tabs, visible, groups)| == |ArchivedAmong(tabs, groups)| + |visible|
    ensures Elements(Woven(tabs, visible, groups)) == Elements(ArchivedAmong(tabs, groups)) + Elements(visible)
  {
    if tabs == [] {
      assert Elements([]) == {};
    } else {
      hide Elements;
      WovenHas(tabs[1..], visible, groups);
      var rest := Woven(tabs[1..], visible, groups);
      PrependedElements(tabs[0], rest);
      PrependedElements(tabs[0], ArchivedAmong(tabs[1..], groups));
      if visible != [] {
        WovenHas(tabs[1..], visible[1..], groups);
        PrependedElements(visible[0], Woven(tabs[1..], visible[1..], groups));
        PrependedElements(visible[0], visible[1..]);
        assert [visible[0]] + visible[1..] == visible;
      }
    }
  }

  lemma PrependedElements(id: int, ids: seq<int>)
    ensures Elements([id] + ids) == {id} + Elements(ids)
  {
  }

  /** Each group that is not archived, once. */
  predicate ListsVisible(visible: seq<int>, groups: map<int, Group>) {
    Distinct(visible) && Elements(visible) == groups.Keys - Archived(groups)
  }

  /** From an order of all groups, an order of all groups comes out if and only if the visible ones are listed each
      once. */
  lemma WovenListsAll(tabs: seq<int>, visible: seq<int>, groups: map<int, Group>)
    requires Distinct(tabs) && Elements(tabs) == groups.Keys
    ensures var order := Woven(tabs, visible, groups);
            (Distinct(order) && Elements(order) == groups.Keys) <==> ListsVisible(visible, groups)
  {
    hide Distinct, Elements;
    var order, archived := Woven(tabs, visible, groups), ArchivedAmong(tabs, groups);
    WovenHas(tabs, visible, groups);
    ArchivedAre(tabs, groups);
    ElementsCount(order);
    ElementsCount(visible);
    ElementsCount(archived);
    var a, v, u := Archived(groups), Elements(visible), groups.Keys - Archived(groups);
    assert Elements(archived) == a by {
      assert groups.Keys * a == a;
    }
    assert a + u == groups.Keys;
    assert |a + u| == |a| + |u|;
    if Distinct(order) && Elements(order) == groups.Keys {
      assert u <= v;
      assert |u| <= |v| by {
        SubsetCounts(u, v);
      }
      SameSize(u, v);
    }
  }

  lemma SubsetCounts(part: set<int>, whole: set<int>)
    requires part <= whole
    ensures |part| <= |whole|
  {
    assert whole == part + (whole - part);
  }

  /** Archived groups stay where they were. */
  lemma {:induction false} ArchivedStay(tabs: seq<int>, visible: seq<int>, groups: map<int, Group>, i: nat)
    requires i < |tabs| && tabs[i] in groups && groups[tabs[i]].archive
    requires (forall gid <- tabs :: gid in groups) && |visible| + |ArchivedAmong(tabs, groups)| == |tabs|
    ensures i < |Woven(tabs, visible, groups)| && Woven(tabs, visible, groups)[i] == tabs[i]
  {
    if i > 0 {
      ArchivedCount(tabs[1..], groups);
      var first := tabs[0];
      assert first in tabs && forall gid <- tabs[1..] :: gid in tabs;
      if groups[first].archive {
        ArchivedStay(tabs[1..], visible, groups, i - 1);
      } else {
        ArchivedStay(tabs[1..], visible[1..], groups, i - 1);
      }
    }
  }

  lemma {:induction false} ArchivedCount(ids: seq<int>, groups: map<int, Group>)
    ensures |ArchivedAmong(ids, groups)| <= |ids|
  {
    if ids != [] {
      ArchivedCount(ids[1..], groups);
    }
  }

  // ----- the store

  function MovedTabs(s: Store, visible: seq<int>): Store {
    TabOrderRow(s.(tabOrder := Woven(s.tabOrder, visible, s.groups)))
  }

  method MoveTabs(manager: ProfileManager, visible: seq<int>)
    modifies manager
    ensures manager.Value() == MovedTabs(old(manager.Value()), visible)
  {
    manager.groupsTabOrder := MergeVisibleGroupOrder(manager.groups, manager.groupsTabOrder, visible);
    manager.SaveGroupsTabOrder();
  }

  /** Moving tabs keeps the store consistent if and only if the window shows each group that is not archived once. */
  lemma MoveTabsKeeps(s: Store, visible: seq<int>)
    requires Consistent(s)
    ensures Consistent(MovedTabs(s, visible)) <==> ListsVisible(visible, s.groups)
  {
    hide IndexRight, ProfilesRight, Distinct, Elements, Enumerates, Woven, ListsVisible, Known, Completed;
    WovenListsAll(s.tabOrder, visible, s.groups);
    var order := Woven(s.tabOrder, visible, s.groups);
    if Elements(order) == s.groups.Keys {
      EnumeratesMeans(s.groupIds, s.groups.Keys);
      NormalizedIsSame(order, s.groupIds, s.groups);
    }
  }

  lemma EnumeratesMeans(ids: seq<int>, members: set<int>)
    requires Enumerates(ids, members)
    ensures Elements(ids) == members
  {
  }
}
