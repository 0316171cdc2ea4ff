/** Updating the profiles of a subscription group: fetched profiles are added, those equal to one the group had are
    replaced by it, and what the subscription no longer has is deleted. */
module SubscriptionUpdate {
  import opened IdLists
  import opened ProfileStore
  import PF = ProfileFilter

  /** Profiles are compared by a key of their contents; it ignores ids. */
  function EntityKey(key: Content -> string): Profile -> string {
    (p: Profile) => key(p.content)
  }

  datatype Report = Archived | Imported(count: nat) | Cleared(added: seq<Profile>)
    | Changed(added: seq<Profile>, deleted: seq<Profile>)

  datatype Outcome = Outcome(store: Store, report: Report)

  // ----- the steps of an update

  /** The fetched profiles, added one after the other. */
  function AddedAll(s: Store, gid: int, contents: seq<Content>): Store {
    if contents == [] then s
    else AddedProfile(AddedAll(s, gid, contents[..|contents| - 1]), Profile(-1, -1, contents[|contents| - 1]), gid)
  }

  /** The entities that this makes, in the same order. */
  function NewOnes(s: Store, gid: int, contents: seq<Content>): seq<Profile> {
    if contents == [] then []
    else
      var shorter, last := contents[..|contents| - 1], contents[|contents| - 1];
      var t := AddedAll(s, gid, shorter);
      NewOnes(s, gid, shorter) + [Profile(NewProfileId(t), TargetGroup(t, gid), last)]
  }

  /** The fetched order, with the ids of the kept profiles in place of those of their new doubles. */
  function Substituted(updated: seq<Profile>, doubles: seq<Profile>, kept: seq<Profile>): seq<int> {
    if updated == [] then []
    else
      var rest, last := Substituted(updated[..|updated| - 1], doubles, kept), updated[|updated| - 1];
      var i := Position(doubles, last);
      if i < 0 then rest + [last.id] else if i >= |kept| then rest else rest + [kept[i].id]
  }

  function CleanedUp(s: Store, gid: int, ents: seq<Profile>): Store {
    if ents == [] then s
    else
      var t, last := CleanedUp(s, gid, ents[..|ents| - 1]), ents[|ents| - 1];
      if gid in t.groups && last.id in t.groups[gid].order then t else DeletedProfile(t, last.id)
  }

  function WithOrder(s: Store, gid: int, order: seq<int>): Store {
    if gid in s.groups then SavedGroup(s, s.groups[gid].(order := order)) else s
  }

  /** `doubles` and `kept` pair the new profiles that have an old equal with that old one. */
  method Substitute(updated: seq<Profile>, doubles: seq<Profile>, kept: seq<Profile>) returns (order: seq<int>)
    ensures order == Substituted(updated, doubles, kept)
  {
    order := [];
    for k := 0 to |updated|
      invariant order == Substituted(updated[..k], doubles, kept)
    {
      assert updated[..k + 1][..k] == updated[..k];
      var i := Position(doubles, updated[k]);
      if i >= 0 {
        if i >= |kept| {
          continue;
        }
        order := order + [kept[i].id];
      } else {
        order := order + [updated[k].id];
      }
    }
    assert updated[..|updated|] == updated;
  }

  method AddFetched(manager: ProfileManager, gid: int, contents: seq<Content>) returns (updated: seq<Profile>)
    modifies manager
    ensures manager.Value() == AddedAll(old(manager.Value()), gid, contents)
    ensures updated == NewOnes(old(manager.Value()), gid, contents)
  {
    hide AddedProfile, TargetGroup, NewProfileId;
    updated := [];
    for k := 0 to |contents|
      invariant manager.Value() == AddedAll(old(manager.Value()), gid, contents[..k])
      invariant updated == NewOnes(old(manager.Value()), gid, contents[..k])
    {
      assert contents[..k + 1][..k] == contents[..k];
      var _, p := manager.AddProfile(Profile(-1, -1, contents[k]), gid);
      updated := updated + [p];
    }
    assert contents[..|contents|] == contents;
  }

  method DeleteEach(manager: ProfileManager, ents: seq<Profile>)
    modifies manager
    ensures manager.Value() == DeletedProfiles(old(manager.Value()), Ids(ents))
  {
    hide DeletedProfile;
    for k := 0 to |ents|
      invariant manager.Value() == DeletedProfiles(old(manager.Value()), Ids(ents)[..k])
    {
      assert Ids(ents)[..k + 1][..k] == Ids(ents)[..k];
      manager.DeleteProfile(ents[k].id);
    }
    assert Ids(ents)[..|ents|] == Ids(ents);
  }

  function Ids(ents: seq<Profile>): seq<int> {
    seq(|ents|, k requires 0 <= k < |ents| => ents[k].id)
  }

  method CleanUp(manager: ProfileManager, gid: int, ents: seq<Profile>)
    modifies manager
    ensures manager.Value() == CleanedUp(old(manager.Value()), gid, ents)
  {
    hide DeletedProfile;
    for k := 0 to |ents|
      invariant manager.Value() == CleanedUp(old(manager.Value()), gid, ents[..k])
    {
      assert ents[..k + 1][..k] == ents[..k];
      if !(gid in manager.groups && ents[k].id in manager.groups[gid].order) {
        manager.DeleteProfile(ents[k].id);
      }
    }
    assert ents[..|ents|] == ents;
  }

  // ----- the update

  /** The group before anything is fetched: its order is dropped and its subscription data refreshed. */
  function Prepared(s: Store, gid: int, refreshed: Settings): Store
    requires gid in s.groups
  {
    SavedGroup(s, s.groups[gid].(order := [], settings := refreshed))
  }

  /** The merge after fetching: `before` are the profiles of the group before. */
  function Merged(t: Store, gid: int, before: seq<Profile>, updated: seq<Profile>, key: Content -> string): Outcome {
    var all := GroupProfiles(t, gid);
    var after := PF.Excluding(all, before);
    var last := PF.LastByKey(before, EntityKey(key));
    var doubles := PF.Having(after, last.Keys, EntityKey(key));
    var kept := seq(|doubles|, i requires 0 <= i < |doubles| =>
                    if EntityKey(key)(doubles[i]) in last then last[EntityKey(key)(doubles[i])] else doubles[i]);
    var ordered := WithOrder(t, gid, Substituted(updated, doubles, kept));
    Outcome(CleanedUp(ordered, gid, all),
            Changed(PF.Lacking(after, PF.KeysOf(before, EntityKey(key)), EntityKey(key)),
                    PF.Lacking(before, PF.KeysOf(after, EntityKey(key)), EntityKey(key))))
  }

  /** A whole update with the fetched contents; `clear` is the setting to delete the old profiles first. */
  function Updated(s: Store, gid: int, contents: seq<Content>, refreshed: Settings, clear: bool,
      key: Content -> string): Outcome
  {
    if gid !in s.groups then Outcome(AddedAll(s, gid, contents), Imported(|NewOnes(s, gid, contents)|))
    else if s.groups[gid].archive then Outcome(s, Archived)
    else
      var before := GroupProfiles(s, gid);
      var prepared := Prepared(s, gid, refreshed);
      if clear then
        var t := AddedAll(DeletedProfiles(prepared, Ids(before)), gid, contents);
        Outcome(t, Cleared(GroupProfiles(t, gid)))
      else
        Merged(AddedAll(prepared, gid, contents), gid, before, NewOnes(prepared, gid, contents), key)
  }

  method MergeFetched(manager: ProfileManager, gid: int, before: seq<Profile>, updated: seq<Profile>,
      key: Content -> string)
    returns (report: Report)
    modifies manager
    ensures Outcome(manager.Value(), report) == Merged(old(manager.Value()), gid, before, updated, key)
  {
    hide PF.Excluding, PF.LastByKey, PF.Having, PF.Lacking, PF.KeysOf, Substituted, CleanedUp, SavedGroup;
    var all := manager.ProfilesOfGroup(gid);
    var after := PF.OnlyInSrcByPointer(all, before);
    var onlyBefore := PF.OnlyInSrc(before, after, EntityKey(key));
    var onlyAfter := PF.OnlyInSrc(after, before, EntityKey(key));
    var kept, doubles := PF.Common(before, after, EntityKey(key));
    var order := Substitute(updated, doubles, kept);
    ghost var last := PF.LastByKey(before, EntityKey(key));
    assert kept == seq(|doubles|, i requires 0 <= i < |doubles| =>
                       if EntityKey(key)(doubles[i]) in last then last[EntityKey(key)(doubles[i])] else doubles[i]);
    if gid in manager.groups {
      var _ := manager.SaveGroup(manager.groups[gid].(order := order));
    }
    CleanUp(manager, gid, all);
    report := Changed(onlyAfter, onlyBefore);
  }

  method Update(manager: ProfileManager, gid: int, contents: seq<Content>, refreshed: Settings, clear: bool,
      key: Content -> string) returns (report: Report)
    modifies manager
    ensures Outcome(manager.Value(), report) == Updated(old(manager.Value()), gid, contents, refreshed, clear, key)
  {
    hide AddedAll, NewOnes, SavedGroup, Merged, GroupProfiles, DeletedProfiles;
    if gid !in manager.groups {
      var updated := AddFetched(manager, gid, contents);
      return Imported(|updated|);
    }
    var group := manager.groups[gid];
    if group.archive {
      return Archived;
    }
    var before := manager.ProfilesOfGroup(gid);
    var _ := manager.SaveGroup(group.(order := [], settings := refreshed));
    if clear {
      DeleteEach(manager, before);
    }
    var updated := AddFetched(manager, gid, contents);
    if clear {
      var all := manager.ProfilesOfGroup(gid);
      return Cleared(all);
    }
    report := MergeFetched(manager, gid, before, updated, key);
  }
}
