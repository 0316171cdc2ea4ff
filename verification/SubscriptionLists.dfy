/** What a subscription update does to the lists of the groups. */
module SubscriptionLists {
  import opened IdLists
  import opened Orders
  import opened ProfileStore
  import opened ProfileStoreRuns
  import opened ProfileLists
  import opened SubscriptionUpdate
  import opened SubscriptionMerge
  import opened SubscriptionResults
  import PF = ProfileFilter

  lemma PreparedTidy(s: Store, gid: int, refreshed: Settings)
    requires Consistent(s) && gid in s.groups && ListsTidy(s.groups, s.profiles, false)
    ensures ListsTidy(Prepared(s, gid, refreshed).groups, Prepared(s, gid, refreshed).profiles, false)
  {
    hide Consistent, SavedGroup, ListsTidy;
    var g := s.groups[gid].(order := [], settings := refreshed);
    TidyAmong(s, gid, false);
    IsNamed(s, gid);
    SaveGroupTidy(s, g, false);
  }

  lemma IsNamed(s: Store, gid: int)
    requires Consistent(s) && gid in s.groups
    ensures s.groups[gid].id == gid
  {
    GroupIdOf(s, gid);
  }

  /** Adding profiles to a group, or to none that the store has. */
  lemma {:induction false} AddedAllKeeps(s: Store, gid: int, contents: seq<Content>)
    requires Consistent(s)
    ensures Consistent(AddedAll(s, gid, contents))
  {
    hide Consistent, AddedProfile;
    if contents != [] {
      var shorter, last := contents[..|contents| - 1], contents[|contents| - 1];
      AddedAllKeeps(s, gid, shorter);
      AddProfileKeeps(AddedAll(s, gid, shorter), Profile(-1, -1, last), gid);
    }
  }

  lemma {:induction false} AddedAllTidy(s: Store, gid: int, contents: seq<Content>)
    requires Consistent(s) && ListsTidy(s.groups, s.profiles, false)
    ensures var t := AddedAll(s, gid, contents);
            Consistent(t) && ListsTidy(t.groups, t.profiles, false)
  {
    hide Consistent, ListsTidy, AddedProfile;
    AddedAllKeeps(s, gid, contents);
    if contents != [] {
      var shorter, last := contents[..|contents| - 1], contents[|contents| - 1];
      AddedAllTidy(s, gid, shorter);
      AddProfileTidy(AddedAll(s, gid, shorter), Profile(-1, -1, last), gid, false);
    }
  }

  lemma {:induction false} CleanedUpTidy(s: Store, gid: int, ents: seq<Profile>)
    requires Consistent(s) && gid in s.groups && ListsTidy(s.groups, s.profiles, false)
    ensures ListsTidy(CleanedUp(s, gid, ents).groups, CleanedUp(s, gid, ents).profiles, false)
  {
    hide Consistent, ListsTidy, DeletedProfile, Remaining;
    if ents != [] {
      var shorter := ents[..|ents| - 1];
      CleanedUpTidy(s, gid, shorter);
      CleanedUpIs(s, gid, shorter);
      DeleteProfileTidy(CleanedUp(s, gid, shorter), ents[|ents| - 1].id, false);
    }
  }

  lemma MergedTidy(t: Store, gid: int, before: seq<Profile>, updated: seq<Profile>, key: Content -> string)
    requires Consistent(t) && gid in t.groups && ListsTidy(t.groups, t.profiles, false)
    requires var u := SubscriptionUpdate.Merged(t, gid, before, updated, key).store;
             gid in u.groups && Tidy(u.groups[gid].order, Members(t.profiles, gid))
    ensures var u := SubscriptionUpdate.Merged(t, gid, before, updated, key).store;
            ListsTidy(u.groups, u.profiles, false)
  {
    hide Consistent, ListsTidy, Tidy, Substituted, CleanedUp, WithOrder, Remaining, SavedGroup, Members, PF.Excluding,
      PF.Having, PF.LastByKey, PF.Lacking, PF.KeysOf, GroupProfiles;
    var last := PF.LastByKey(before, EntityKey(key));
    var after := PF.Excluding(GroupProfiles(t, gid), before);
    var doubles := PF.Having(after, last.Keys, EntityKey(key));
    var kept := seq(|doubles|, i requires 0 <= i < |doubles| =>
                    if EntityKey(key)(doubles[i]) in last then last[EntityKey(key)(doubles[i])] else doubles[i]);
    var order := Substituted(updated, doubles, kept);
    OrderedIs(t, gid, order);
    CleanedUpIs(WithOrder(t, gid, order), gid, GroupProfiles(t, gid));
    WithOrderTidy(t, gid, order);
    CleanedUpTidy(WithOrder(t, gid, order), gid, GroupProfiles(t, gid));
  }

  lemma WithOrderTidy(t: Store, gid: int, order: seq<int>)
    requires Consistent(t) && gid in t.groups && ListsTidy(t.groups, t.profiles, false)
    requires Tidy(order, Members(t.profiles, gid))
    ensures ListsTidy(WithOrder(t, gid, order).groups, WithOrder(t, gid, order).profiles, false)
  {
    hide Consistent, ListsTidy, Tidy, SavedGroup;
    TidyAmong(t, gid, false);
    IsNamed(t, gid);
    SaveGroupTidy(t, t.groups[gid].(order := order), false);
  }

  /** No two entries are fetched under one key that the group has already. */
  predicate NoneShareHeld(s: Store, gid: int, contents: seq<Content>, key: Content -> string) {
    forall i, j :: 0 <= i < j < |contents| ==> !ShareHeld(s, gid, contents, key, i, j)
  }

  /** An update keeps the lists of all groups to profiles of theirs, each once, if and only if no two entries are
      fetched under one key that the group has already: those put one id into its order twice. */
  lemma UpdateKeepsTidy(s: Store, gid: int, contents: seq<Content>, refreshed: Settings, key: Content -> string)
    requires Consistent(s) && gid in s.groups && !s.groups[gid].archive && ListsTidy(s.groups, s.profiles, false)
    ensures var u := Updated(s, gid, contents, refreshed, false, key).store;
            ListsTidy(u.groups, u.profiles, false) <==> NoneShareHeld(s, gid, contents, key)
  {
    hide Consistent, Updated, ListsTidy, MergedAt, ReportRight, Spared, OthersStay, OldAreUnchanged, NewAreFetched,
      ShareHeld;
    var u := Updated(s, gid, contents, refreshed, false, key).store;
    UpdateMerges(s, gid, contents, refreshed, key);
    OrderDiffers(s, gid, contents, key, u.groups[gid].order);
    if Distinct(u.groups[gid].order) {
      UpdateTidy(s, gid, contents, refreshed, key);
    } else if ListsTidy(u.groups, u.profiles, false) {
      TidyAmong(u, gid, false);
    }
  }

  /** An update that clears the group first leaves the lists of all groups tidy. */
  lemma ClearingKeepsTidy(s: Store, gid: int, contents: seq<Content>, refreshed: Settings, key: Content -> string)
    requires Consistent(s) && gid in s.groups && !s.groups[gid].archive && ListsTidy(s.groups, s.profiles, false)
    ensures var u := Updated(s, gid, contents, refreshed, true, key).store;
            ListsTidy(u.groups, u.profiles, false)
  {
    hide Consistent, ListsTidy, GroupProfiles, AddedAll, Prepared, DeletedProfiles;
    var p, held := Prepared(s, gid, refreshed), GroupProfiles(s, gid);
    PreparedIs(s, gid, refreshed);
    PreparedTidy(s, gid, refreshed);
    DeleteProfilesKeeps(p, Ids(held));
    DeleteProfilesTidy(p, Ids(held), false);
    AddedAllTidy(DeletedProfiles(p, Ids(held)), gid, contents);
  }

  lemma OrderDiffers(s: Store, gid: int, contents: seq<Content>, key: Content -> string, order: seq<int>)
    requires |order| == |contents| && SharesIds(s, gid, contents, key, order)
    ensures Distinct(order) <==> NoneShareHeld(s, gid, contents, key)
  {
    hide ShareHeld;
  }

  lemma UpdateTidy(s: Store, gid: int, contents: seq<Content>, refreshed: Settings, key: Content -> string)
    requires Consistent(s) && gid in s.groups && !s.groups[gid].archive && ListsTidy(s.groups, s.profiles, false)
    requires var u := Updated(s, gid, contents, refreshed, false, key).store;
             gid in u.groups && Distinct(u.groups[gid].order)
             && Elements(u.groups[gid].order) <= Members(u.profiles, gid)
    ensures var u := Updated(s, gid, contents, refreshed, false, key).store;
            ListsTidy(u.groups, u.profiles, false)
  {
    hide Consistent, ListsTidy, GroupProfiles, AddedAll, NewOnes, Prepared, SubscriptionUpdate.Merged, HasAdded,
      NewProfileId, MergedOrder, Distinct, Elements;
    var p := Prepared(s, gid, refreshed);
    PreparedIs(s, gid, refreshed);
    PreparedTidy(s, gid, refreshed);
    var t, news := AddedAll(p, gid, contents), NewOnes(p, gid, contents);
    AddedAllIs(p, gid, contents);
    AddedAllTidy(p, gid, contents);
    MergeIs(p, t, gid, contents, news, key);
    MergedTidy(t, gid, GroupProfiles(s, gid), news, key);
  }
}
