/** The results of renumbering, for any orders: how many rows come out, when each profile is kept, and what else follows
    then. */
module ReorderResults {
  import opened IdLists
  import opened Options
  import opened Orders
  import opened ProfileStore
  import opened ProfileStoreRuns
  import opened ProfileLists
  import opened ProfileReorder

  // ----- when each profile is visited once, on the tab of its own group

  predicate NoneTwice(visits: seq<Visit>) {
    forall i, j :: 0 <= i < j < |visits| ==> visits[i].id != visits[j].id
  }

  predicate AllMet(profiles: map<int, Profile>, visits: seq<Visit>) {
    forall id :: id in profiles ==> LastVisit(visits, |visits|, id) >= 0
  }

  predicate AtHome(s: Store, v: Visit) {
    v.id in s.profiles && 0 <= v.tab < |s.tabOrder| && s.profiles[v.id].gid == s.tabOrder[v.tab]
  }

  predicate AllAtHome(s: Store, visits: seq<Visit>) {
    forall i :: 0 <= i < |visits| ==> AtHome(s, visits[i])
  }

  /** What a group displays is the whole group, each profile once. */
  predicate ShowsItself(s: Store, gid: int)
    requires gid in s.groups
  {
    Distinct(DisplayedIds(s, gid)) && Elements(DisplayedIds(s, gid)) == Members(s.profiles, gid)
  }

  /** Every group displays the whole group, each profile once, and every profile is in a group of the store. */
  predicate Arranged(s: Store) {
    && (forall gid :: gid in s.groups ==> ShowsItself(s, gid))
    && (forall id :: id in s.profiles ==> s.profiles[id].gid in s.groups)
  }

  lemma ArrangedIsAtHome(s: Store)
    requires Listed(s) && TabsKnown(s) && Arranged(s)
    ensures NoneTwice(AllVisits(s)) && AllMet(s.profiles, AllVisits(s)) && AllAtHome(s, AllVisits(s))
  {
    hide DisplayedIds, Visits, Listed;
    var visits := AllVisits(s);
    TabsAre(s);
    forall i | 0 <= i < |visits|
      ensures AtHome(s, visits[i])
    {
      VisitIsKnown(s, i);
      var k, j := VisitOnTab(s, |s.tabOrder|, i);
      assert ShowsItself(s, s.tabOrder[k]);
      assert visits[i].id in Elements(DisplayedIds(s, s.tabOrder[k]));
    }
    forall i, j | 0 <= i < j < |visits|
      ensures visits[i].id != visits[j].id
    {
      assert AtHome(s, visits[i]) && AtHome(s, visits[j]);
      var k, m := VisitOnTab(s, |s.tabOrder|, i);
      var l, n := VisitOnTab(s, |s.tabOrder|, j);
      assert ShowsItself(s, s.tabOrder[k]);
    }
    forall id | id in s.profiles
      ensures LastVisit(visits, |visits|, id) >= 0
    {
      IsMet(s, id);
    }
  }

  lemma IsMet(s: Store, id: int)
    requires Listed(s) && TabsKnown(s) && Arranged(s) && id in s.profiles
    ensures LastVisit(AllVisits(s), |AllVisits(s)|, id) >= 0
  {
    hide DisplayedIds, Visits, Listed;
    var k := TabOf(s, s.profiles[id].gid);
    var ids := DisplayedIds(s, s.tabOrder[k]);
    assert ShowsItself(s, s.tabOrder[k]);
    assert id in Elements(ids);
    var j :| 0 <= j < |ids| && ids[j] == id;
    TabInVisits(s, k, j);
  }

  lemma AtHomeIsArranged(s: Store)
    requires Listed(s) && TabsKnown(s)
    requires NoneTwice(AllVisits(s)) && AllMet(s.profiles, AllVisits(s)) && AllAtHome(s, AllVisits(s))
    ensures Arranged(s)
  {
    hide DisplayedIds, Visits, Listed;
    TabsAre(s);
    forall gid | gid in s.groups
      ensures ShowsItself(s, gid)
    {
      GroupShowsItself(s, gid);
    }
    forall id | id in s.profiles
      ensures s.profiles[id].gid in s.groups
    {
      var i := LastVisit(AllVisits(s), |AllVisits(s)|, id);
      assert AtHome(s, AllVisits(s)[i]);
    }
  }

  lemma GroupShowsItself(s: Store, gid: int)
    requires Listed(s) && TabsKnown(s) && gid in s.groups
    requires NoneTwice(AllVisits(s)) && AllMet(s.profiles, AllVisits(s)) && AllAtHome(s, AllVisits(s))
    ensures ShowsItself(s, gid)
  {
    hide DisplayedIds, Visits, Listed;
    TabsAre(s);
    var k := TabOf(s, gid);
    var visits, ids, start := AllVisits(s), DisplayedIds(s, gid), |Visits(s, k)|;
    forall j | 0 <= j < |ids|
      ensures ids[j] in Members(s.profiles, gid)
    {
      TabInVisits(s, k, j);
      var i := start + j;
      assert AtHome(s, visits[i]);
    }
    forall i, j | 0 <= i < j < |ids|
      ensures ids[i] != ids[j]
    {
      TabInVisits(s, k, i);
      TabInVisits(s, k, j);
      var a, b := start + i, start + j;
      assert visits[a].id != visits[b].id;
    }
    forall id | id in Members(s.profiles, gid)
      ensures id in Elements(ids)
    {
      var i := LastVisit(visits, |visits|, id);
      assert AtHome(s, visits[i]);
      var m, j := VisitOnTab(s, |s.tabOrder|, i);
      assert m == k;
    }
  }

  /** In a consistent store whose lists name profiles of their groups, each once: every order is empty or full, and
      every profile is in a group of the store. */
  lemma ArrangedMeans(s: Store)
    requires Consistent(s) && ListsTidy(s.groups, s.profiles, false)
    ensures Arranged(s) <==>
            ListsTidy(s.groups, s.profiles, true) && forall id :: id in s.profiles ==> s.profiles[id].gid in s.groups
  {
    hide Consistent, Tidy, DisplayedIds, Members;
    forall gid | gid in s.groups
      ensures TidyAt(s.groups, s.profiles, gid, true) <==> ShowsItself(s, gid)
    {
      TidyShowsItself(s, gid);
      assert TidyAt(s.groups, s.profiles, gid, false);
    }
  }

  lemma TidyShowsItself(s: Store, gid: int)
    requires Consistent(s) && ListsTidy(s.groups, s.profiles, false) && gid in s.groups
    ensures ShowsItself(s, gid) <==> ShowsAll(s.groups[gid].order, Members(s.profiles, gid))
  {
    hide Sorted, ProfilesRight, Normalized, Enumerates;
    var members := Members(s.profiles, gid);
    assert TidyAt(s.groups, s.profiles, gid, false);
    if s.groups[gid].order == [] {
      assert Answers(s.index, s.profiles, gid);
      SortedEnumerates(members);
      forall id <- Sorted(members)
        ensures id in s.profiles.Keys
      {
      }
    } else {
      forall id <- s.groups[gid].order
        ensures id in s.profiles.Keys
      {
        assert id in Elements(s.groups[gid].order);
      }
    }
  }

  // ----- the new ids

  /** Old and new ids correspond one to one, and the new ones are 0, 1, ... without a gap. */
  ghost predicate IsRenumbering(numbers: map<int, int>, members: set<int>) {
    && numbers.Keys == members
    && (forall id :: id in numbers ==> 0 <= numbers[id] < |members|)
    && (forall a, b :: a in numbers && b in numbers && numbers[a] == numbers[b] ==> a == b)
    && (forall n :: 0 <= n < |members| ==> IsGiven(numbers, n))
  }

  ghost predicate IsGiven(numbers: map<int, int>, n: int) {
    exists id :: id in numbers && numbers[id] == n
  }

  function VisitedIds(visits: seq<Visit>, n: nat): set<int>
    requires n <= |visits|
  {
    set i | 0 <= i < n :: visits[i].id
  }

  lemma OneMoreVisited(visits: seq<Visit>, n: nat)
    requires n < |visits|
    ensures VisitedIds(visits, n + 1) == VisitedIds(visits, n) + {visits[n].id}
  {
  }

  lemma MetMeansVisited(visits: seq<Visit>, n: nat, id: int)
    requires n <= |visits|
    ensures LastVisit(visits, n, id) >= 0 <==> id in VisitedIds(visits, n)
  {
  }

  lemma NoneTwiceNext(visits: seq<Visit>, n: nat)
    requires n < |visits|
    ensures NoneTwice(visits[..n + 1]) <==> NoneTwice(visits[..n]) && LastVisit(visits, n, visits[n].id) < 0
  {
    var more, id := visits[..n + 1], visits[n].id;
    assert more[..n] == visits[..n];
    if NoneTwice(more) {
      assert forall i, j :: 0 <= i < j < n ==> more[i].id != more[j].id;
      assert forall i :: 0 <= i < n ==> more[i].id != id;
    }
  }

  lemma {:induction false} VisitsCount(visits: seq<Visit>, n: nat)
    requires n <= |visits|
    ensures |VisitedIds(visits, n)| <= n
    ensures NoneTwice(visits[..n]) <==> |VisitedIds(visits, n)| == n
  {
    if n == 0 {
      assert VisitedIds(visits, n) == {};
    } else {
      hide NoneTwice, LastVisit, VisitedIds;
      VisitsCount(visits, n - 1);
      OneMoreVisited(visits, n - 1);
      NoneTwiceNext(visits, n - 1);
      MetMeansVisited(visits, n - 1, visits[n - 1].id);
    }
  }

  /** When no profile is visited twice, the recorded numbers are where each was visited. */
  lemma {:induction false} NumbersAre(visits: seq<Visit>, n: nat)
    requires NoneTwice(visits) && n <= |visits|
    ensures Numbers(visits, n).Keys == VisitedIds(visits, n)
    ensures forall id :: id in Numbers(visits, n) ==> Numbers(visits, n)[id] == LastVisit(visits, n, id) >= 0
  {
    if n == 0 {
      assert VisitedIds(visits, n) == {};
    } else {
      hide Numbers;
      NumbersAre(visits, n - 1);
      OneMoreVisited(visits, n - 1);
      OneMoreNumber(visits, n - 1);
    }
  }

  lemma OneMoreNumber(visits: seq<Visit>, n: nat)
    requires NoneTwice(visits) && n < |visits|
    ensures Numbers(visits, n + 1) == Numbers(visits, n)[visits[n].id := n]
  {
  }

  lemma StoredAreVisited(s: Store)
    requires Listed(s) && TabsKnown(s) && AllMet(s.profiles, AllVisits(s))
    ensures VisitedIds(AllVisits(s), |AllVisits(s)|) == s.profiles.Keys
  {
    hide Visits, Listed, LastVisit;
    var visits, n := AllVisits(s), |AllVisits(s)|;
    forall i | 0 <= i < n
      ensures visits[i].id in s.profiles
    {
      VisitIsKnown(s, i);
    }
    forall id | id in s.profiles
      ensures id in VisitedIds(visits, n)
    {
      MetMeansVisited(visits, n, id);
    }
  }

  lemma NumbersRenumber(s: Store)
    requires Listed(s) && TabsKnown(s) && NoneTwice(AllVisits(s)) && AllMet(s.profiles, AllVisits(s))
    ensures IsRenumbering(Numbers(AllVisits(s), |AllVisits(s)|), s.profiles.Keys)
    ensures |AllVisits(s)| == |s.profiles|
  {
    hide Visits, Listed, Numbers, VisitedIds, LastVisit;
    var visits, n := AllVisits(s), |AllVisits(s)|;
    NumbersAre(visits, n);
    StoredAreVisited(s);
    VisitsCount(visits, n);
    assert visits[..n] == visits;
    assert |s.profiles| == |s.profiles.Keys|;
    forall i | 0 <= i < n
      ensures IsGiven(Numbers(visits, n), i)
    {
      VisitIsKnown(s, i);
      assert visits[i].id in Numbers(visits, n) && Numbers(visits, n)[visits[i].id] == i;
    }
  }

  lemma PlacesRenumber(tabs: seq<int>, members: set<int>)
    requires Distinct(tabs) && Elements(tabs) == members
    ensures IsRenumbering(Places(tabs), members) && |tabs| == |members|
  {
    ElementsCount(tabs);
    var places := Places(tabs);
    forall id
      ensures id in places <==> id in members
    {
      assert id in tabs <==> id in Elements(tabs);
    }
    forall n | 0 <= n < |tabs|
      ensures IsGiven(places, n)
    {
      PositionIs(tabs, n);
      var id := tabs[n];
      assert id in places && places[id] == n;
    }
  }

  // ----- what comes out

  /** A profile goes to the place that its new number names, with its contents, and in the group that its own has
      become. */
  predicate CarriedOver(s: Store, r: Store, numbers: map<int, int>, gids: map<int, int>, id: int)
    requires id in s.profiles
  {
    && id in numbers && s.profiles[id].gid in gids && numbers[id] in r.profiles
    && r.profiles[numbers[id]] == s.profiles[id].(id := numbers[id], gid := gids[s.profiles[id].gid])
  }

  /** The new ids are 0, 1, ...; profile i is the one of visit i, as its last visit left it. */
  lemma RenumberedAre(s: Store)
    requires Listed(s) && TabsKnown(s)
    ensures var r, visits := Renumbered(s), AllVisits(s);
            && (forall i :: i in r.profiles <==> 0 <= i < |visits|)
            && (forall i :: i in r.profiles ==> RowOfVisit(s, r, i))
            && (forall k :: k in r.groups <==> 0 <= k < |s.tabOrder|)
            && (forall k :: k in r.groups ==> r.groups[k].id == k)
  {
    hide Visits, Listed, Rebuilt, Numbers, Mapped, RenumberedProfiles, RenumberedGroups;
    var visits := AllVisits(s);
    forall i | 0 <= i < |visits|
      ensures visits[i].id in s.profiles
    {
      VisitIsKnown(s, i);
    }
    RenumberedRows(s.profiles, visits);
    TabsAre(s);
    RenumberedTabs(s.groups, s.tabOrder, Numbers(visits, |visits|));
  }

  /** The row of visit i holds the profile that was visited, with the number and group of its last visit. */
  predicate RowOfVisit(s: Store, r: Store, i: int)
    requires TabsKnown(s)
  {
    var visits := AllVisits(s);
    && 0 <= i < |visits| && i in r.profiles && visits[i].id in s.profiles
    && var last := LastVisit(visits, |visits|, visits[i].id);
       last >= i && r.profiles[i] == s.profiles[visits[i].id].(id := last, gid := visits[last].tab)
  }

  lemma RenumberedRows(profiles: map<int, Profile>, visits: seq<Visit>)
    requires forall i :: 0 <= i < |visits| ==> visits[i].id in profiles
    ensures var r := RenumberedProfiles(profiles, visits);
            && (forall i :: i in r <==> 0 <= i < |visits|)
            && forall i :: i in r ==>
                 var last := LastVisit(visits, |visits|, visits[i].id);
                 last >= i && r[i] == profiles[visits[i].id].(id := last, gid := visits[last].tab)
  {
  }

  lemma RenumberedTabs(groups: map<int, Group>, tabs: seq<int>, numbers: map<int, int>)
    requires forall k :: 0 <= k < |tabs| ==> tabs[k] in groups
    ensures var r := RenumberedGroups(groups, tabs, numbers);
            && (forall k :: k in r <==> 0 <= k < |tabs|)
            && forall k :: k in r ==> r[k] == RenumberedGroup(groups[tabs[k]], k, numbers)
  {
    hide Mapped;
  }

  lemma EachIsCarriedOver(s: Store, id: int)
    requires Listed(s) && TabsKnown(s) && Arranged(s) && id in s.profiles
    ensures var visits := AllVisits(s);
            CarriedOver(s, Renumbered(s), Numbers(visits, |visits|), Places(s.tabOrder), id)
  {
    hide Visits, Listed, Rebuilt, Arranged, Numbers, RenumberedProfiles, RenumberedGroups, Renumbered;
    var visits := AllVisits(s);
    ArrangedIsAtHome(s);
    NumbersRenumber(s);
    NumbersAre(visits, |visits|);
    RenumberedAre(s);
    var i := LastVisit(visits, |visits|, id);
    assert RowOfVisit(s, Renumbered(s), i) && AtHome(s, visits[i]);
    TabsAre(s);
    PositionIs(s.tabOrder, visits[i].tab);
    var gid := s.tabOrder[visits[i].tab];
    assert gid in s.tabOrder;
  }

  lemma UptoEnumerates(n: nat, members: set<int>)
    requires forall id :: id in members <==> 0 <= id < n
    ensures Enumerates(Upto(n), members) && Distinct(Upto(n))
  {
    forall id
      ensures id in Elements(Upto(n)) <==> id in members
    {
      FromHas(0, n, id);
    }
  }

  lemma CurrentIsPlaced(s: Store)
    requires Listed(s) && s.currentGroup in s.groups
    ensures s.currentGroup in Places(s.tabOrder)
    ensures 0 <= Number(Places(s.tabOrder), s.currentGroup) < |s.tabOrder|
  {
    var k := TabOf(s, s.currentGroup);
  }

  /** Renumbering gives a consistent store exactly when no profile is displayed twice: otherwise two rows hold one
      profile, of which one does not name its own id. */
  lemma RenumberedIsConsistent(s: Store)
    requires Listed(s) && s.currentGroup in s.groups
    ensures TabsKnown(s) && (Consistent(Renumbered(s)) <==> NoneTwice(AllVisits(s)))
  {
    hide Visits, Rebuilt, Sorted, Indexable, RenumberedProfiles, RenumberedGroups, Upto, Enumerates, Distinct,
      Normalized, Places, Numbers, TabsKnown, Elements;
    TabsAre(s);
    var r, visits, m := Renumbered(s), AllVisits(s), |s.tabOrder|;
    RenumberedAre(s);
    UptoEnumerates(|visits|, r.profiles.Keys);
    UptoEnumerates(m, r.groups.Keys);
    UptoCovers(m, r.groups);
    forall gid
      ensures Answers(r.index, r.profiles, gid)
    {
      RebuiltAnswers(r.profiles, r.groups, gid);
    }
    CurrentIsPlaced(s);
    RowsNameThemselves(s);
  }

  lemma RowsNameThemselves(s: Store)
    requires Listed(s) && TabsKnown(s)
    ensures var r := Renumbered(s);
            (forall i :: i in r.profiles ==> r.profiles[i].id == i) <==> NoneTwice(AllVisits(s))
  {
    hide Visits, Renumbered;
    var r, visits := Renumbered(s), AllVisits(s);
    RenumberedAre(s);
    if NoneTwice(visits) {
      forall i | i in r.profiles
        ensures r.profiles[i].id == i
      {
        assert RowOfVisit(s, r, i);
      }
    }
    if forall i :: i in r.profiles ==> r.profiles[i].id == i {
      forall i, j | 0 <= i < j < |visits|
        ensures visits[i].id != visits[j].id
      {
        assert RowOfVisit(s, r, i) && RowOfVisit(s, r, j);
      }
    }
  }

  lemma UptoCovers(m: nat, groups: map<int, Group>)
    requires Enumerates(Upto(m), groups.Keys)
    ensures Normalized(Some(Upto(m)), Upto(m), groups) == Upto(m) && Elements(Upto(m)) == groups.Keys
  {
    NormalizedIsSame(Upto(m), Upto(m), groups);
  }

  // ----- exactly when everything is kept

  /** Every profile of the store is carried over, to a place of its own, and there are no others. */
  ghost predicate CarriesAll(s: Store, r: Store, numbers: map<int, int>, gids: map<int, int>) {
    && IsRenumbering(numbers, s.profiles.Keys) && |r.profiles| == |s.profiles|
    && forall id :: id in s.profiles ==> CarriedOver(s, r, numbers, gids, id)
  }

  lemma UptoIsDistinct(n: nat)
    ensures Distinct(Upto(n)) && |Upto(n)| == n
  {
  }

  lemma RenumberedCount(s: Store)
    requires Listed(s) && TabsKnown(s)
    ensures |Renumbered(s).profiles| == |AllVisits(s)|
  {
    hide Visits, Renumbered, Listed;
    var r, n := Renumbered(s), |AllVisits(s)|;
    RenumberedAre(s);
    UptoEnumerates(n, r.profiles.Keys);
    ElementsCount(Upto(n));
    UptoIsDistinct(n);
    assert |r.profiles| == |r.profiles.Keys|;
  }

  /** One row for each displayed entry. They stand for as many profiles of before as are displayed at all, so there are
      as many rows as profiles carried over exactly when none is displayed twice, and all profiles are carried over
      exactly when all are displayed. */
  lemma RowsPerProfile(s: Store)
    requires Listed(s) && TabsKnown(s)
    ensures var r, visits := Renumbered(s), AllVisits(s);
            && |r.profiles| == |visits|
            && VisitedIds(visits, |visits|) <= s.profiles.Keys
            && (NoneTwice(visits) <==> |r.profiles| == |VisitedIds(visits, |visits|)|)
            && (AllMet(s.profiles, visits) <==> |VisitedIds(visits, |visits|)| == |s.profiles|)
  {
    hide Visits, Renumbered, Listed;
    var visits := AllVisits(s);
    var ids := VisitedIds(visits, |visits|);
    RenumberedCount(s);
    VisitsCount(visits, |visits|);
    assert visits[..|visits|] == visits;
    forall i | 0 <= i < |visits|
      ensures visits[i].id in s.profiles
    {
      VisitIsKnown(s, i);
    }
    forall id
      ensures LastVisit(visits, |visits|, id) >= 0 <==> id in ids
    {
      MetMeansVisited(visits, |visits|, id);
    }
    SameSize(ids, s.profiles.Keys);
    assert |s.profiles| == |s.profiles.Keys|;
    if AllMet(s.profiles, visits) {
      forall id | id in s.profiles.Keys
        ensures id in ids
      {
        assert LastVisit(visits, |visits|, id) >= 0;
      }
      assert ids == s.profiles.Keys;
    }
    if ids == s.profiles.Keys {
      forall id | id in s.profiles
        ensures LastVisit(visits, |visits|, id) >= 0
      {
        assert id in s.profiles.Keys;
      }
    }
  }

  /** Renumbering carries every profile over, each to one place in its own group, if and only if every group displays
      itself: no order repeats a profile, leaves one out, or names one of another group, and every profile is in a group
      of the store. */
  lemma EverythingIsKeptExactly(s: Store)
    requires Listed(s)
    ensures TabsKnown(s)
    ensures var visits := AllVisits(s);
            CarriesAll(s, Renumbered(s), Numbers(visits, |visits|), Places(s.tabOrder)) <==> Arranged(s)
  {
    hide Visits, Renumbered, Listed, Numbers, Arranged, CarriedOver, IsRenumbering, NoneTwice, AllMet, AllAtHome,
      TabsKnown;
    TabsAre(s);
    var r, visits, gids := Renumbered(s), AllVisits(s), Places(s.tabOrder);
    var numbers := Numbers(visits, |visits|);
    if Arranged(s) {
      ArrangedIsAtHome(s);
      NumbersRenumber(s);
      RenumberedCount(s);
      forall id | id in s.profiles
        ensures CarriedOver(s, r, numbers, gids, id)
      {
        EachIsCarriedOver(s, id);
      }
    }
    if CarriesAll(s, r, numbers, gids) {
      CarryingAllIsAtHome(s);
      AtHomeIsArranged(s);
    }
  }

  lemma CarryingAllIsAtHome(s: Store)
    requires Listed(s) && TabsKnown(s)
    requires var visits := AllVisits(s);
             CarriesAll(s, Renumbered(s), Numbers(visits, |visits|), Places(s.tabOrder))
    ensures NoneTwice(AllVisits(s)) && AllMet(s.profiles, AllVisits(s)) && AllAtHome(s, AllVisits(s))
  {
    hide Visits, Renumbered, Listed, Numbers, NoneTwice, AllMet, AtHome, IsRenumbering, Places;
    var visits := AllVisits(s);
    CarryingAllNamesRows(s);
    RowsNameThemselves(s);
    RowsPerProfile(s);
    forall i | 0 <= i < |visits|
      ensures AtHome(s, visits[i])
    {
      CarriedIsAtHome(s, i);
    }
  }

  lemma CarryingAllNamesRows(s: Store)
    requires Listed(s) && TabsKnown(s)
    requires var visits := AllVisits(s);
             CarriesAll(s, Renumbered(s), Numbers(visits, |visits|), Places(s.tabOrder))
    ensures var r := Renumbered(s);
            forall i :: i in r.profiles ==> r.profiles[i].id == i
  {
    hide Visits, Renumbered, Listed, Numbers, Places;
    var r, n := Renumbered(s), |AllVisits(s)|;
    var numbers := Numbers(AllVisits(s), n);
    RenumberedAre(s);
    RenumberedCount(s);
    forall i | i in r.profiles
      ensures r.profiles[i].id == i
    {
      assert IsGiven(numbers, i);
      var id :| id in numbers && numbers[id] == i;
      assert CarriedOver(s, r, numbers, Places(s.tabOrder), id);
    }
  }

  lemma OnlyVisit(visits: seq<Visit>, i: nat)
    requires NoneTwice(visits) && i < |visits|
    ensures LastVisit(visits, |visits|, visits[i].id) == i
  {
  }

  lemma CarriedIsAtHome(s: Store, i: nat)
    requires Listed(s) && TabsKnown(s) && i < |AllVisits(s)| && NoneTwice(AllVisits(s))
    requires var visits := AllVisits(s);
             CarriesAll(s, Renumbered(s), Numbers(visits, |visits|), Places(s.tabOrder))
    ensures AtHome(s, AllVisits(s)[i])
  {
    hide Visits, Renumbered, Listed, Numbers, IsRenumbering, NoneTwice, LastVisit, Places;
    var visits := AllVisits(s);
    var v := visits[i];
    VisitIsKnown(s, i);
    RowIsExact(s, i);
    OnlyVisit(visits, i);
    NumbersAre(visits, |visits|);
    assert CarriedOver(s, Renumbered(s), Numbers(visits, |visits|), Places(s.tabOrder), v.id);
    PlaceIsOf(s.tabOrder, s.profiles[v.id].gid);
  }

  lemma PlaceIsOf(tabs: seq<int>, gid: int)
    requires gid in Places(tabs)
    ensures 0 <= Places(tabs)[gid] < |tabs| && tabs[Places(tabs)[gid]] == gid
  {
  }

  // ----- the lists and the display follow

  lemma {:induction false} MappedAll(ids: seq<int>, numbers: map<int, int>)
    requires forall id :: id in ids ==> id in numbers
    ensures |Mapped(ids, numbers)| == |ids|
    ensures forall k :: 0 <= k < |ids| ==> ids[k] in numbers && Mapped(ids, numbers)[k] == numbers[ids[k]]
  {
    if ids != [] {
      var shorter, last := ids[..|ids| - 1], ids[|ids| - 1];
      assert last in ids;
      assert forall id :: id in shorter ==> id in ids;
      MappedAll(shorter, numbers);
    }
  }

  /** Ids that have no number are dropped. */
  lemma {:induction false} MappedKnown(ids: seq<int>, numbers: map<int, int>)
    ensures Mapped(KnownIds(ids, numbers.Keys), numbers) == Mapped(ids, numbers)
  {
    if ids != [] {
      var shorter, last := ids[..|ids| - 1], ids[|ids| - 1];
      MappedKnown(shorter, numbers);
      var known := KnownIds(shorter, numbers.Keys);
      assert (known + [last])[..|known|] == known;
    }
  }

  lemma SortedRun(members: set<int>, first: int, n: nat)
    requires forall id :: id in members <==> first <= id < first + n
    ensures Sorted(members) == From(first, n)
  {
    forall id
      ensures id in From(first, n) <==> id in Sorted(members)
    {
      FromHas(first, n, id);
    }
    AscendingIsUnique(From(first, n), Sorted(members));
  }

  lemma MembersOfTab(s: Store, k: nat, i: int)
    requires Listed(s) && TabsKnown(s) && k < |s.tabOrder| && NoneTwice(AllVisits(s))
    ensures var start, n := |Visits(s, k)|, |DisplayedIds(s, s.tabOrder[k])|;
            i in Members(Renumbered(s).profiles, k) <==> start <= i < start + n
  {
    hide Visits, Listed, DisplayedIds, Renumbered;
    RenumberedAre(s);
    if 0 <= i < |AllVisits(s)| {
      assert RowOfVisit(s, Renumbered(s), i);
      TabsStandTogether(s, k, i);
    }
    var start, n := |Visits(s, k)|, |DisplayedIds(s, s.tabOrder[k])|;
    if start <= i < start + n {
      TabInVisits(s, k, i - start);
    }
  }

  ghost predicate SameDisplay(before: seq<Profile>, after: seq<Profile>, first: int, gid: int) {
    |after| == |before| && forall i :: 0 <= i < |before| ==> after[i] == before[i].(id := first + i, gid := gid)
  }

  lemma {:induction false} ProfilesAtAre(profiles: map<int, Profile>, ids: seq<int>)
    ensures var known, listed := KnownIds(ids, profiles.Keys), ProfilesAt(profiles, ids);
            && |listed| == |known|
            && forall k :: 0 <= k < |known| ==> known[k] in profiles && listed[k] == profiles[known[k]]
  {
    if ids != [] {
      ProfilesAtAre(profiles, ids[..|ids| - 1]);
    }
  }

  lemma DisplayedAre(s: Store, gid: int)
    requires Listed(s) && gid in s.groups
    ensures var ids, listed := DisplayedIds(s, gid), Displayed(s, s.groups[gid]);
            |listed| == |ids| && forall k :: 0 <= k < |ids| ==>
              ids[k] in s.profiles && listed[k] == s.profiles[ids[k]] && listed[k].id == ids[k]
  {
    hide Enumerates, Normalized, ProfilesAt, KnownIds, Distinct;
    ProfilesAtAre(s.profiles, if s.groups[gid].order == [] then IdsIn(s.index, gid) else s.groups[gid].order);
  }

  /** A renumbered group displays the run of ids that its tab has been given. */
  lemma DisplayedAfter(s: Store, k: nat)
    requires Listed(s) && TabsKnown(s) && k < |s.tabOrder| && NoneTwice(AllVisits(s))
    ensures var r, n := Renumbered(s), |DisplayedIds(s, s.tabOrder[k])|;
            k in r.groups && Displayed(r, r.groups[k]) == ProfilesAt(r.profiles, From(|Visits(s, k)|, n))
  {
    hide Visits, Listed, Rebuilt, Sorted, DisplayedIds, RenumberedGroups, RenumberedProfiles, ProfilesAt, Members,
      NoneTwice, Numbers, LastVisit, Mapped, From;
    var r, n := Renumbered(s), |DisplayedIds(s, s.tabOrder[k])|;
    OrderIsDropped(s, k);
    forall i
      ensures i in Members(r.profiles, k) <==> |Visits(s, k)| <= i < |Visits(s, k)| + n
    {
      MembersOfTab(s, k, i);
    }
    SortedRun(Members(r.profiles, k), |Visits(s, k)|, n);
    RebuiltAnswers(r.profiles, r.groups, k);
  }

  /** How many profiles the tabs before the k-th one display. */
  function ShownBefore(s: Store, k: nat): nat
    requires TabsKnown(s) && k <= |s.tabOrder|
  {
    if k == 0 then 0 else ShownBefore(s, k - 1) + |Displayed(s, s.groups[s.tabOrder[k - 1]])|
  }

  lemma {:induction false} ShownAreVisited(s: Store, k: nat)
    requires Listed(s) && TabsKnown(s) && k <= |s.tabOrder|
    ensures |Visits(s, k)| == ShownBefore(s, k)
  {
    hide Listed, DisplayedIds, Displayed;
    if k > 0 {
      ShownAreVisited(s, k - 1);
      DisplayedAre(s, s.tabOrder[k - 1]);
    }
  }

  /** Every tab displays the same entries in the same order, under consecutive new ids, when none is displayed twice. */
  lemma DisplayIsKept(s: Store, k: nat)
    requires Listed(s) && TabsKnown(s) && k < |s.tabOrder| && NoneTwice(AllVisits(s))
    ensures var r, g := Renumbered(s), s.groups[s.tabOrder[k]];
            k in r.groups && SameDisplay(Displayed(s, g), Displayed(r, r.groups[k]), ShownBefore(s, k), k)
  {
    hide Visits, Listed, DisplayedIds, Renumbered, Displayed, ProfilesAt, NoneTwice, ShownBefore;
    ShownAreVisited(s, k);
    var r, shown, start := Renumbered(s), DisplayedIds(s, s.tabOrder[k]), |Visits(s, k)|;
    DisplayedAre(s, s.tabOrder[k]);
    DisplayedAfter(s, k);
    var ids := From(start, |shown|);
    forall i | 0 <= i < |ids|
      ensures ids[i] in r.profiles && r.profiles[ids[i]] == s.profiles[shown[i]].(id := ids[i], gid := k)
    {
      TabInVisits(s, k, i);
      RowIsExact(s, start + i);
    }
    ProfilesAtKnown(r.profiles, ids);
  }

  lemma RowIsExact(s: Store, i: nat)
    requires Listed(s) && TabsKnown(s) && NoneTwice(AllVisits(s)) && i < |AllVisits(s)|
    ensures var r, v := Renumbered(s), AllVisits(s)[i];
            i in r.profiles && v.id in s.profiles && r.profiles[i] == s.profiles[v.id].(id := i, gid := v.tab)
  {
    hide Visits, Listed, Renumbered;
    RenumberedAre(s);
    assert RowOfVisit(s, Renumbered(s), i);
  }

  lemma OrderIsDropped(s: Store, k: nat)
    requires Listed(s) && TabsKnown(s) && k < |s.tabOrder|
    ensures var r, g := Renumbered(s), s.groups[s.tabOrder[k]];
            k in r.groups && r.groups[k] == RenumberedGroup(g, k, Numbers(AllVisits(s), |AllVisits(s)|))
  {
    hide Visits, Listed, Rebuilt, Mapped, Numbers, RenumberedProfiles;
    RenumberedTabs(s.groups, s.tabOrder, Numbers(AllVisits(s), |AllVisits(s)|));
  }

  // ----- the main result

  ghost predicate SameList(before: seq<int>, after: seq<int>, numbers: map<int, int>) {
    |after| == |before| && forall i :: 0 <= i < |before| ==> before[i] in numbers && after[i] == numbers[before[i]]
  }

  /** A group goes to its new id with its settings and the profiles of its toggle list that exist, without its order,
      and displays what it did. */
  ghost predicate GroupCarriedOver(s: Store, r: Store, numbers: map<int, int>, gids: map<int, int>, gid: int)
    requires gid in s.groups && TabsKnown(s)
  {
    && gid in gids && 0 <= gids[gid] < |s.tabOrder| && gids[gid] in r.groups
    && var g, h := s.groups[gid], r.groups[gids[gid]];
       && h == g.(id := gids[gid], order := [], toggleIds := h.toggleIds)
       && SameList(KnownIds(g.toggleIds, s.profiles.Keys), h.toggleIds, numbers)
       && SameDisplay(Displayed(s, g), Displayed(r, h), ShownBefore(s, gids[gid]), gids[gid])
  }

  lemma EachGroupIsCarriedOver(s: Store, gid: int)
    requires Listed(s) && TabsKnown(s) && Arranged(s) && gid in s.groups
    ensures var visits := AllVisits(s);
            GroupCarriedOver(s, Renumbered(s), Numbers(visits, |visits|), Places(s.tabOrder), gid)
  {
    hide Visits, Listed, Arranged, Rebuilt, Mapped, Displayed, RenumberedProfiles, RenumberedGroups, Numbers,
      SameDisplay, Places, ShownBefore;
    var visits := AllVisits(s);
    var numbers := Numbers(visits, |visits|);
    var k := TabOf(s, gid);
    ArrangedIsAtHome(s);
    NumbersRenumber(s);
    OrderIsDropped(s, k);
    DisplayIsKept(s, k);
    var toggles := s.groups[gid].toggleIds;
    MappedKnown(toggles, numbers);
    MappedAll(KnownIds(toggles, s.profiles.Keys), numbers);
  }

  lemma RenumberedIsArranged(s: Store)
    requires Listed(s) && TabsKnown(s) && NoneTwice(AllVisits(s)) && Consistent(Renumbered(s))
    ensures Arranged(Renumbered(s))
  {
    hide Visits, Renumbered, Listed, Consistent, DisplayedIds, NoneTwice, Mapped;
    var r := Renumbered(s);
    RenumberedAre(s);
    forall k | k in r.groups
      ensures ShowsItself(r, k)
    {
      OrderIsDropped(s, k);
      NoOrderShowsItself(r, k);
    }
    forall i | i in r.profiles
      ensures r.profiles[i].gid in r.groups
    {
      RowIsExact(s, i);
      VisitIsKnown(s, i);
    }
  }

  lemma NoOrderShowsItself(s: Store, gid: int)
    requires Consistent(s) && gid in s.groups && s.groups[gid].order == []
    ensures ShowsItself(s, gid)
  {
    hide Sorted, Normalized, Enumerates;
    var members := Members(s.profiles, gid);
    assert Answers(s.index, s.profiles, gid);
    SortedEnumerates(members);
    forall id <- Sorted(members)
      ensures id in s.profiles.Keys
    {
    }
    assert Enumerates(Sorted(members), members);
    AscendingIsDistinct(Sorted(members));
  }

  lemma AscendingIsDistinct(ids: seq<int>)
    requires Ascending(ids)
    ensures Distinct(ids)
  {
  }

  /** An id that named a profile has become one that names the same profile; any other is as it was. */
  predicate Follows(s: Store, r: Store, gids: map<int, int>, before: int, after: int) {
    if before in s.profiles then
      && s.profiles[before].gid in gids && after in r.profiles
      && r.profiles[after] == s.profiles[before].(id := after, gid := gids[s.profiles[before].gid])
    else after == before
  }

  lemma EachFollows(s: Store, r: Store, numbers: map<int, int>, gids: map<int, int>, id: int)
    requires CarriesAll(s, r, numbers, gids)
    ensures Follows(s, r, gids, id, Number(numbers, id))
  {
    assert id in s.profiles.Keys <==> id in numbers.Keys;
    if id in s.profiles {
      assert CarriedOver(s, r, numbers, gids, id);
    }
  }

  /** Renumbering a store in which every group displays itself is a bijection onto 0, 1, ... for profiles and for
      groups. Profiles stay in their groups; toggle lists, the current group, the running profile and the remembered one
      name the same entities as before; every group displays the same profiles in the same order although its order is
      dropped; and the store is consistent. */
  lemma RenumberingKeepsEverything(s: Store, rememberId: int)
    requires Listed(s) && Arranged(s) && s.currentGroup in s.groups
    ensures TabsKnown(s)
    ensures var visits, gids := AllVisits(s), Places(s.tabOrder);
            var r, numbers := Renumbered(s), Numbers(visits, |visits|);
            && Consistent(r) && Arranged(r)
            && CarriesAll(s, r, numbers, gids) && IsRenumbering(gids, s.groups.Keys)
            && (forall gid :: gid in s.groups ==> GroupCarriedOver(s, r, numbers, gids, gid))
            && s.currentGroup in gids && r.currentGroup == gids[s.currentGroup]
            && Follows(s, r, gids, s.startedId, r.startedId)
            && Follows(s, r, gids, rememberId, Number(numbers, rememberId))
  {
    hide Visits, Listed, Arranged, Consistent, Rebuilt, RenumberedProfiles, RenumberedGroups, GroupCarriedOver,
      CarriedOver, Numbers, Distinct, TabsKnown, NoneTwice, AllMet, AllAtHome, Elements;
    TabsAre(s);
    EverythingIsKeptExactly(s);
    PlacesRenumber(s.tabOrder, s.groups.Keys);
    ArrangedIsAtHome(s);
    RenumberedIsConsistent(s);
    CurrentIsPlaced(s);
    RenumberedIsArranged(s);
    var numbers := Numbers(AllVisits(s), |AllVisits(s)|);
    EachFollows(s, Renumbered(s), numbers, Places(s.tabOrder), s.startedId);
    EachFollows(s, Renumbered(s), numbers, Places(s.tabOrder), rememberId);
    forall gid | gid in s.groups
      ensures GroupCarriedOver(s, Renumbered(s), Numbers(AllVisits(s), |AllVisits(s)|), Places(s.tabOrder), gid)
    {
      EachGroupIsCarriedOver(s, gid);
    }
  }

  // ----- ids that are not renumbered

  /** The ids of profiles that groups and profiles name in their settings and contents: front proxies, and the profiles
      that chains consist of. Renumbering leaves them as they are. */
  predicate Names(s: Store, id: int) {
    GroupsName(s.groups, id) || ProfilesName(s.profiles, id)
  }

  predicate GroupsName(groups: map<int, Group>, id: int) {
    exists gid :: gid in groups && groups[gid].settings.front == id
  }

  predicate ProfilesName(profiles: map<int, Profile>, id: int) {
    exists p :: p in profiles && id in profiles[p].content.chain
  }

  /** A group of the store, or a profile that is displayed, names the id. */
  predicate ShownNames(s: Store, visits: seq<Visit>, id: int) {
    || GroupsName(s.groups, id)
    || exists i :: 0 <= i < |visits| && visits[i].id in s.profiles && id in s.profiles[visits[i].id].content.chain
  }

  /** Under this id the renumbered store has what the store had under it: the same profile, as renumbering leaves it, or
      none. */
  predicate StillNames(s: Store, r: Store, visits: seq<Visit>, id: int) {
    if id in s.profiles then
      && LastVisit(visits, |visits|, id) >= 0 && id in r.profiles
      && r.profiles[id] == AfterVisits(s.profiles[id], visits, |visits|, id)
    else id !in r.profiles
  }

  /** The profile with this id is displayed as entry number id, counting from 0 over all tabs; an id of no profile is
      the number of no entry. */
  predicate ShownAtItsId(s: Store, visits: seq<Visit>, id: int) {
    if id in s.profiles then 0 <= id < |visits| && visits[id].id == id else !(0 <= id < |visits|)
  }

  /** Front proxies and chains name the same profiles after renumbering, and none where they named none, if and only if
      each such id is that of the profile displayed at this place. */
  lemma LinksSurviveExactly(s: Store)
    requires Listed(s)
    ensures TabsKnown(s)
    ensures var r, visits := Renumbered(s), AllVisits(s);
            && (forall id :: Names(r, id) <==> ShownNames(s, visits, id))
            && ((forall id :: Names(r, id) ==> StillNames(s, r, visits, id)) <==>
                (forall id :: Names(r, id) ==> ShownAtItsId(s, visits, id)))
  {
    hide Visits, Listed, Renumbered, Names, TabsKnown, ShownNames;
    TabsAre(s);
    forall id
      ensures Names(Renumbered(s), id) <==> ShownNames(s, AllVisits(s), id)
      ensures StillNames(s, Renumbered(s), AllVisits(s), id) <==> ShownAtItsId(s, AllVisits(s), id)
    {
      NamesAreKept(s, id);
      OneLinkSurvives(s, id);
    }
  }

  lemma OneLinkSurvives(s: Store, id: int)
    requires Listed(s) && TabsKnown(s)
    ensures StillNames(s, Renumbered(s), AllVisits(s), id) <==> ShownAtItsId(s, AllVisits(s), id)
  {
    hide Visits, Listed, Renumbered;
    RenumberedAre(s);
    if id in Renumbered(s).profiles {
      assert RowOfVisit(s, Renumbered(s), id);
    }
  }

  lemma NamesAreKept(s: Store, id: int)
    requires Listed(s) && TabsKnown(s)
    ensures Names(Renumbered(s), id) <==> ShownNames(s, AllVisits(s), id)
  {
    hide Visits, Listed, Renumbered, GroupsName;
    GroupNamesAreKept(s, id);
    var r, visits := Renumbered(s), AllVisits(s);
    RenumberedAre(s);
    if ProfilesName(r.profiles, id) {
      var i :| i in r.profiles && id in r.profiles[i].content.chain;
      assert RowOfVisit(s, r, i);
    }
    if i :| 0 <= i < |visits| && visits[i].id in s.profiles && id in s.profiles[visits[i].id].content.chain {
      assert i in r.profiles && RowOfVisit(s, r, i);
    }
  }

  lemma GroupNamesAreKept(s: Store, id: int)
    requires Listed(s) && TabsKnown(s)
    ensures GroupsName(Renumbered(s).groups, id) <==> GroupsName(s.groups, id)
  {
    hide Visits, Listed, Renumbered, Numbers, Mapped, Places;
    var r := Renumbered(s);
    RenumberedAre(s);
    if GroupsName(s.groups, id) {
      var gid :| gid in s.groups && s.groups[gid].settings.front == id;
      var k := TabOf(s, gid);
      OrderIsDropped(s, k);
    }
    if GroupsName(r.groups, id) {
      var k :| k in r.groups && r.groups[k].settings.front == id;
      TabsAre(s);
      OrderIsDropped(s, k);
    }
  }
}
