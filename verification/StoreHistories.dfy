/** Histories of the store: its own operations, subscription updates and moved tabs, in any order. */
module StoreHistories {
  import opened ProfileStore
  import opened ProfileStoreRuns
  import opened ProfileLists
  import opened SubscriptionUpdate
  import opened SubscriptionResults
  import opened SubscriptionLists
  import opened TabMoves

  datatype Event = Operate(op: Operation) | Refresh(gid: int, contents: seq<Content>, refreshed: Settings, clear: bool)
    | MoveTabs(visible: seq<int>)

  function After(s: Store, e: Event, key: Content -> string): Store {
    match e
    case Operate(op) => Applied(s, op)
    case Refresh(gid, contents, refreshed, clear) => Updated(s, gid, contents, refreshed, clear, key).store
    case MoveTabs(visible) => MovedTabs(s, visible)
  }

  /** What a caller can check before an event; updates are always allowed. */
  predicate Allowed(s: Store, e: Event) {
    match e
    case Operate(op) => Enabled(s, op)
    case Refresh(_, _, _, _) => true
    case MoveTabs(visible) => ListsVisible(visible, s.groups)
  }

  /** For tidy lists, no two entries may be fetched under one key that the group has already. */
  predicate AllowedTidy(s: Store, e: Event, key: Content -> string) {
    match e
    case Operate(op) => EnabledTidy(s, op, false)
    case Refresh(gid, contents, _, clear) => clear || gid !in s.groups || NoneShareHeld(s, gid, contents, key)
    case MoveTabs(_) => true
  }

  function Happened(s: Store, events: seq<Event>, key: Content -> string): Store {
    if events == [] then s else After(Happened(s, events[..|events| - 1], key), events[|events| - 1], key)
  }

  predicate AllAllowed(s: Store, events: seq<Event>, key: Content -> string) {
    forall k :: 0 <= k < |events| ==> Allowed(Happened(s, events[..k], key), events[k])
  }

  predicate AllAllowedTidy(s: Store, events: seq<Event>, key: Content -> string) {
    forall k :: 0 <= k < |events| ==> AllowedTidy(Happened(s, events[..k], key), events[k], key)
  }

  lemma RefreshKeeps(s: Store, gid: int, contents: seq<Content>, refreshed: Settings, clear: bool,
      key: Content -> string)
    requires Consistent(s)
    ensures Consistent(Updated(s, gid, contents, refreshed, clear, key).store)
  {
    hide Consistent, AddedAll, Merged;
    if gid !in s.groups {
      AddedAllKeeps(s, gid, contents);
    } else if !s.groups[gid].archive {
      if clear {
        ClearingReplaces(s, gid, contents, refreshed, key);
      } else {
        UpdateMerges(s, gid, contents, refreshed, key);
      }
    }
  }

  lemma EventKeeps(s: Store, e: Event, key: Content -> string)
    requires Consistent(s) && Allowed(s, e)
    ensures Consistent(After(s, e, key))
  {
    hide Consistent, Applied, Enabled, Updated, MovedTabs, ListsVisible;
    match e
    case Operate(op) => OperationKeeps(s, op);
    case Refresh(gid, contents, refreshed, clear) => RefreshKeeps(s, gid, contents, refreshed, clear, key);
    case MoveTabs(visible) => MoveTabsKeeps(s, visible);
  }

  /** The main result: through every history the store stays consistent, and loading its tables gives it back. */
  lemma {:induction false} EveryHistoryIsConsistent(s: Store, events: seq<Event>, key: Content -> string)
    requires Consistent(s) && AllAllowed(s, events, key)
    ensures var t := Happened(s, events, key);
            Consistent(t) && SameStore(Loaded(t.db, t.currentGroup, t.startedId), t)
  {
    hide Consistent, Allowed, After, SameStore, Loaded;
    if events != [] {
      var shorter := events[..|events| - 1];
      AllowedBefore(s, events, key);
      EveryHistoryIsConsistent(s, shorter, key);
      EventKeeps(Happened(s, shorter, key), events[|events| - 1], key);
    }
    ReloadGivesTheStore(Happened(s, events, key));
  }

  lemma AllowedBefore(s: Store, events: seq<Event>, key: Content -> string)
    requires events != [] && AllAllowed(s, events, key)
    ensures var shorter := events[..|events| - 1];
            AllAllowed(s, shorter, key) && Allowed(Happened(s, shorter, key), events[|events| - 1])
  {
    hide Allowed;
    var shorter := events[..|events| - 1];
    forall k | 0 <= k < |shorter|
      ensures Allowed(Happened(s, shorter[..k], key), shorter[k])
    {
      assert shorter[..k] == events[..k];
      assert Allowed(Happened(s, events[..k], key), events[k]);
    }
  }

  lemma TidyBefore(s: Store, events: seq<Event>, key: Content -> string)
    requires events != [] && AllAllowedTidy(s, events, key)
    ensures var shorter := events[..|events| - 1];
            AllAllowedTidy(s, shorter, key) && AllowedTidy(Happened(s, shorter, key), events[|events| - 1], key)
  {
    hide AllowedTidy;
    var shorter := events[..|events| - 1];
    forall k | 0 <= k < |shorter|
      ensures AllowedTidy(Happened(s, shorter[..k], key), shorter[k], key)
    {
      assert shorter[..k] == events[..k];
      assert AllowedTidy(Happened(s, events[..k], key), events[k], key);
    }
  }

  lemma EventTidy(s: Store, e: Event, key: Content -> string)
    requires Consistent(s) && Allowed(s, e) && AllowedTidy(s, e, key) && ListsTidy(s.groups, s.profiles, false)
    ensures ListsTidy(After(s, e, key).groups, After(s, e, key).profiles, false)
  {
    hide Consistent, Applied, Enabled, EnabledTidy, ListsTidy, NoneShareHeld, Woven, AddedAll, Merged, NewOnes;
    match e
    case Operate(op) => OperationTidy(s, op, false);
    case Refresh(gid, contents, refreshed, clear) =>
      if gid !in s.groups {
        AddedAllTidy(s, gid, contents);
      } else if !s.groups[gid].archive {
        if clear {
          ClearingKeepsTidy(s, gid, contents, refreshed, key);
        } else {
          UpdateKeepsTidy(s, gid, contents, refreshed, key);
        }
      }
    case MoveTabs(_) =>
  }

  /** And the lists of every group name profiles of that group, each once. */
  lemma {:induction false} EveryHistoryIsTidy(s: Store, events: seq<Event>, key: Content -> string)
    requires Consistent(s) && AllAllowed(s, events, key) && AllAllowedTidy(s, events, key)
    requires ListsTidy(s.groups, s.profiles, false)
    ensures ListsTidy(Happened(s, events, key).groups, Happened(s, events, key).profiles, false)
  {
    hide Consistent, Allowed, AllowedTidy, After, ListsTidy, SameStore, Loaded;
    if events != [] {
      var shorter := events[..|events| - 1];
      AllowedBefore(s, events, key);
      TidyBefore(s, events, key);
      EveryHistoryIsTidy(s, shorter, key);
      EveryHistoryIsConsistent(s, shorter, key);
      EventTidy(Happened(s, shorter, key), events[|events| - 1], key);
    }
  }
}
